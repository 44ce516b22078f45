/** What each construct of the rule language means, without the evaluator's own helpers; and which inputs are
    advertised. */
module RuleMeaning {
  import opened Prelude
  import opened RuleLanguage

  // ---------- Constants and names ----------

  lemma ConstantMeaning(py: Operators, s: Scope)
    ensures Eval(py, Constant(NoneLiteral), s) == Ok(NoneValue)
    ensures forall b :: Eval(py, Constant(BoolLiteral(b)), s) == Ok(Bool(b))
    ensures forall n :: Eval(py, Constant(NumberLiteral(n)), s) == Ok(Number(n))
    ensures forall t :: Eval(py, Constant(StringLiteral(t)), s) == Ok(Text(t))
    ensures forall t :: Eval(py, Constant(OtherLiteral(t)), s) == Ok(Other(t))
  {
  }

  lemma NameMeaning(py: Operators, id: string, s: Scope)
    ensures Eval(py, Name("context"), s) == Ok(Dict(s.context))
    ensures Eval(py, Name("run"), s) == Ok(Dict(s.run))
    ensures Eval(py, Name("True"), s) == Ok(Bool(true))
    ensures Eval(py, Name("False"), s) == Ok(Bool(false))
    ensures Eval(py, Name("None"), s) == Ok(NoneValue)
    ensures id !in {"context", "run", "True", "False", "None"} ==> Eval(py, Name(id), s) == Err(UnknownSymbol)
  {
    assert "context"[0] == 'c' && "run"[0] == 'r' && "True"[0] == 'T' && "False"[0] == 'F' && "None"[0] == 'N';
  }

  /** The names along a chain of attributes, from its root on; a root that is no name is left out. */
  predicate Spells(e: Expr, path: Path) {
    match e
    case Attribute(base, attr) => path != [] && path[|path| - 1] == attr && Spells(base, path[..|path| - 1])
    case Name(id) => path == [id]
    case _ => path == []
  }

  lemma {:induction false} SpellsExactly(e: Expr, path: Path)
    ensures Spells(e, path) <==> path == AttributePath(e)
  {
    if e.Attribute? {
      if path != [] {
        SpellsExactly(e.base, path[..|path| - 1]);
        assert path == path[..|path| - 1] + [path[|path| - 1]];
      }
      assert AttributePath(e)[..|AttributePath(e)| - 1] == AttributePath(e.base);
    }
  }

  /** An attribute is looked up in the dictionary before it; what is missing is reported by its spelling. */
  lemma AttributeMeaning(py: Operators, base: Expr, attr: string, s: Scope)
    ensures var e := Attribute(base, attr);
            && (Eval(py, base, s).Err? ==> Eval(py, e, s) == Eval(py, base, s))
            && (Eval(py, base, s).Ok? && !Eval(py, base, s).value.Dict? ==> Eval(py, e, s) == Err(NotAnObject))
            && (forall entries :: Eval(py, base, s) == Ok(Dict(entries)) ==>
                  && (attr in entries ==> Eval(py, e, s) == Ok(entries[attr]))
                  && (attr !in entries ==>
                        exists path :: Spells(e, path) && Eval(py, e, s) == Err(InputMissing(path))))
  {
    SpellsExactly(Attribute(base, attr), AttributePath(Attribute(base, attr)));
  }

  // ---------- Truth ----------

  /** None, false, zero, and whatever is empty; other objects say for themselves. */
  predicate Falsy(v: Value) {
    v in {NoneValue, Bool(false), Number(0.0), Text(""), List([]), Tuple([]), Dict(map[]), Other(false)}
  }

  lemma NotMeaning(py: Operators, e: Expr, s: Scope)
    ensures Eval(py, e, s).Err? ==> Eval(py, Unary(Not, e), s) == Eval(py, e, s)
    ensures Eval(py, e, s).Ok? ==> Eval(py, Unary(Not, e), s) == Ok(Bool(Falsy(Eval(py, e, s).value)))
    ensures Eval(py, Unary(OtherUnary, e), s) == Err(UnsupportedExpression)
  {
  }

  /** The first i operands all have values, none of which decides. */
  ghost predicate Undecided(py: Operators, kind: BoolKind, es: seq<Expr>, s: Scope, i: int)
    requires 0 <= i <= |es|
  {
    forall j :: 0 <= j < i ==> Eval(py, es[j], s).Ok? && (Falsy(Eval(py, es[j], s).value) <==> kind == Or)
  }

  /** The first operand with a falsy value decides an and, the first with a truthy one an or. */
  ghost predicate DecidesAt(py: Operators, kind: BoolKind, es: seq<Expr>, s: Scope, i: int)
    requires 0 <= i < |es|
  {
    && Undecided(py, kind, es, s, i)
    && Eval(py, es[i], s).Ok? && (Falsy(Eval(py, es[i], s).value) <==> kind == And)
  }

  ghost predicate FailsAt(py: Operators, kind: BoolKind, es: seq<Expr>, s: Scope, i: int, err: EvalError)
    requires 0 <= i < |es|
  {
    Undecided(py, kind, es, s, i) && Eval(py, es[i], s) == Err(err)
  }

  lemma UndecidedTail(py: Operators, kind: BoolKind, es: seq<Expr>, s: Scope, i: int)
    requires 0 <= i < |es|
    ensures Undecided(py, kind, es, s, i + 1) <==>
            Undecided(py, kind, es, s, 1) && Undecided(py, kind, es[1..], s, i)
  {
    if Undecided(py, kind, es, s, 1) && Undecided(py, kind, es[1..], s, i) {
      forall j | 0 < j < i + 1
        ensures Eval(py, es[j], s).Ok? && (Falsy(Eval(py, es[j], s).value) <==> kind == Or)
      {
        assert es[1..][j - 1] == es[j];
      }
    }
    if Undecided(py, kind, es, s, i + 1) {
      forall j | 0 <= j < i
        ensures Eval(py, es[1..][j], s).Ok? && (Falsy(Eval(py, es[1..][j], s).value) <==> kind == Or)
      {
        assert es[1..][j] == es[j + 1];
      }
    }
  }

  /** How the operands settle it: one decides, one fails first, or none does either. */
  lemma {:induction false} BoolSettled(py: Operators, kind: BoolKind, es: seq<Expr>, s: Scope)
    ensures EvalBool(py, kind, es, s) == Ok(kind == Or) ==> exists i :: 0 <= i < |es| && DecidesAt(py, kind, es, s, i)
    ensures EvalBool(py, kind, es, s) == Ok(kind == And) ==> Undecided(py, kind, es, s, |es|)
    ensures EvalBool(py, kind, es, s).Err? ==>
              exists i :: 0 <= i < |es| && FailsAt(py, kind, es, s, i, EvalBool(py, kind, es, s).error)
  {
    if es != [] && Undecided(py, kind, es, s, 1) {
      var rest := es[1..];
      assert Undecided(py, kind, es, s, 1) ==> EvalBool(py, kind, es, s) == EvalBool(py, kind, rest, s);
      BoolSettled(py, kind, rest, s);
      UndecidedTail(py, kind, es, s, |rest|);
      if i :| 0 <= i < |rest| && DecidesAt(py, kind, rest, s, i) {
        UndecidedTail(py, kind, es, s, i);
        assert es[i + 1] == rest[i];
        assert DecidesAt(py, kind, es, s, i + 1);
      }
      if EvalBool(py, kind, rest, s).Err? {
        var i :| 0 <= i < |rest| && FailsAt(py, kind, rest, s, i, EvalBool(py, kind, rest, s).error);
        UndecidedTail(py, kind, es, s, i);
        assert es[i + 1] == rest[i];
        assert FailsAt(py, kind, es, s, i + 1, EvalBool(py, kind, rest, s).error);
      }
    } else if es != [] {
      assert Undecided(py, kind, es, s, 0);
      if Eval(py, es[0], s).Ok? {
        assert DecidesAt(py, kind, es, s, 0);
      } else {
        assert FailsAt(py, kind, es, s, 0, Eval(py, es[0], s).error);
      }
    }
  }

  /** An and is false if and only if some operand is falsy and every earlier one is truthy, true if and only if all
      are truthy, and fails exactly with the first operand that fails before one is falsy; dually for an or. */
  lemma BoolMeaning(py: Operators, kind: BoolKind, es: seq<Expr>, s: Scope)
    ensures var r := Eval(py, BoolOp(kind, es), s);
            && (r == Ok(Bool(kind == Or)) <==> exists i :: 0 <= i < |es| && DecidesAt(py, kind, es, s, i))
            && (r == Ok(Bool(kind == And)) <==> Undecided(py, kind, es, s, |es|))
            && (forall err :: r == Err(err) <==> exists i :: 0 <= i < |es| && FailsAt(py, kind, es, s, i, err))
  {
    BoolSettled(py, kind, es, s);
    if i :| 0 <= i < |es| && DecidesAt(py, kind, es, s, i) {
      DecidedIsSettled(py, kind, es, s, i);
    }
    forall err | exists i :: 0 <= i < |es| && FailsAt(py, kind, es, s, i, err)
      ensures EvalBool(py, kind, es, s) == Err(err)
    {
      var i :| 0 <= i < |es| && FailsAt(py, kind, es, s, i, err);
      DecidedIsSettled(py, kind, es, s, i);
    }
    if Undecided(py, kind, es, s, |es|) {
      NoneDecides(py, kind, es, s);
    }
  }

  lemma {:induction false} NoneDecides(py: Operators, kind: BoolKind, es: seq<Expr>, s: Scope)
    requires Undecided(py, kind, es, s, |es|)
    ensures EvalBool(py, kind, es, s) == Ok(kind == And)
  {
    if es != [] {
      UndecidedTail(py, kind, es, s, |es| - 1);
      assert Undecided(py, kind, es, s, 1);
      NoneDecides(py, kind, es[1..], s);
    }
  }

  lemma {:induction false} DecidedIsSettled(py: Operators, kind: BoolKind, es: seq<Expr>, s: Scope, i: int)
    requires 0 <= i < |es| && Undecided(py, kind, es, s, i)
    requires Eval(py, es[i], s).Ok? ==> (Falsy(Eval(py, es[i], s).value) <==> kind == And)
    ensures EvalBool(py, kind, es, s) ==
            match Eval(py, es[i], s) case Err(err) => Err(err) case Ok(_) => Ok(kind == Or)
    decreases i
  {
    if i > 0 {
      UndecidedTail(py, kind, es, s, i - 1);
      assert Undecided(py, kind, es, s, 1);
      assert es[1..][i - 1] == es[i];
      DecidedIsSettled(py, kind, es[1..], s, i - 1);
    }
  }

  // ---------- Comparisons ----------

  /** A comparison of two values is Python's operator on them, in this order; identity is not supported. */
  lemma CompareMeaning(py: Operators, a: Expr, op: CompareOp, b: Expr, s: Scope)
    ensures var r := Eval(py, Compare(a, [op], [b]), s);
            && (Eval(py, a, s).Err? ==> r == Eval(py, a, s))
            && (Eval(py, a, s).Ok? && Eval(py, b, s).Err? ==> r == Eval(py, b, s))
            && (forall x, y :: Eval(py, a, s) == Ok(x) && Eval(py, b, s) == Ok(y) ==>
                  && (op == Is || op == IsNot ==> r == Err(UnsupportedCompare))
                  && (op != Is && op != IsNot ==>
                        && (forall v :: r == Ok(Bool(v)) <==> py(x, op, y) == Some(v))
                        && (r == Err(OperatorFailed) <==> py(x, op, y) == None)))
  {
    PairMeaning(py, a, op, b, s);
  }

  /** A comparison without operators is true of whatever has a value. */
  lemma LoneOperand(py: Operators, a: Expr, s: Scope)
    ensures Eval(py, Compare(a, [], []), s) ==
            match Eval(py, a, s) case Err(e) => Err(e) case Ok(_) => Ok(Bool(true))
  {
  }

  // ---------- Lists and tuples ----------

  ghost predicate Values(py: Operators, es: seq<Expr>, s: Scope, vs: seq<Value>) {
    |vs| == |es| && forall i :: 0 <= i < |es| ==> Eval(py, es[i], s) == Ok(vs[i])
  }

  /** The first element without a value. */
  ghost predicate FirstFailure(py: Operators, es: seq<Expr>, s: Scope, i: int, err: EvalError)
    requires 0 <= i < |es|
  {
    (forall j :: 0 <= j < i ==> Eval(py, es[j], s).Ok?) && Eval(py, es[i], s) == Err(err)
  }

  lemma {:induction false} AllSettled(py: Operators, es: seq<Expr>, s: Scope)
    ensures EvalAll(py, es, s).Ok? ==> Values(py, es, s, EvalAll(py, es, s).value)
    ensures EvalAll(py, es, s).Err? ==>
              exists i :: 0 <= i < |es| && FirstFailure(py, es, s, i, EvalAll(py, es, s).error)
  {
    if es != [] {
      var rest := es[1..];
      AllSettled(py, rest, s);
      if Eval(py, es[0], s).Err? {
        assert FirstFailure(py, es, s, 0, EvalAll(py, es, s).error);
      } else if EvalAll(py, rest, s).Err? {
        var i :| 0 <= i < |rest| && FirstFailure(py, rest, s, i, EvalAll(py, rest, s).error);
        FailureLater(py, es, s, i, EvalAll(py, rest, s).error);
      } else {
        var vs := EvalAll(py, es, s).value;
        forall i | 0 <= i < |es| ensures Eval(py, es[i], s) == Ok(vs[i]) {
          assert i > 0 ==> rest[i - 1] == es[i];
        }
      }
    }
  }

  lemma FailureLater(py: Operators, es: seq<Expr>, s: Scope, i: int, err: EvalError)
    requires es != [] && 0 <= i < |es| - 1 && Eval(py, es[0], s).Ok? && FirstFailure(py, es[1..], s, i, err)
    ensures FirstFailure(py, es, s, i + 1, err)
  {
    forall j | 0 <= j < i + 1 ensures Eval(py, es[j], s).Ok? {
      assert j > 0 ==> es[1..][j - 1] == es[j];
    }
    assert es[1..][i] == es[i + 1];
  }

  /** A list has a value if and only if all its elements have, and then it is the list of theirs, in order; otherwise
      it fails with the first that fails. Tuples likewise. */
  lemma DisplayMeaning(py: Operators, es: seq<Expr>, s: Scope)
    ensures var r, t := Eval(py, ListDisplay(es), s), Eval(py, TupleDisplay(es), s);
            && (forall vs :: r == Ok(List(vs)) <==> Values(py, es, s, vs))
            && (forall vs :: t == Ok(Tuple(vs)) <==> Values(py, es, s, vs))
            && (forall err :: r == Err(err) <==> exists i :: 0 <= i < |es| && FirstFailure(py, es, s, i, err))
            && (forall err :: t == Err(err) <==> exists i :: 0 <= i < |es| && FirstFailure(py, es, s, i, err))
  {
    AllSettled(py, es, s);
    forall vs | Values(py, es, s, vs) ensures EvalAll(py, es, s) == Ok(vs) {
      HaveValues(py, es, s, vs);
    }
    forall err | exists i :: 0 <= i < |es| && FirstFailure(py, es, s, i, err)
      ensures EvalAll(py, es, s) == Err(err)
    {
      var i :| 0 <= i < |es| && FirstFailure(py, es, s, i, err);
      FailsFirst(py, es, s, i, err);
    }
  }

  lemma {:induction false} HaveValues(py: Operators, es: seq<Expr>, s: Scope, vs: seq<Value>)
    requires Values(py, es, s, vs)
    ensures EvalAll(py, es, s) == Ok(vs)
  {
    if es != [] {
      assert Eval(py, es[0], s) == Ok(vs[0]);
      forall i | 0 <= i < |es| - 1 ensures Eval(py, es[1..][i], s) == Ok(vs[1..][i]) {
        assert es[1..][i] == es[i + 1];
      }
      HaveValues(py, es[1..], s, vs[1..]);
      assert vs == [vs[0]] + vs[1..];
    }
  }

  lemma {:induction false} FailsFirst(py: Operators, es: seq<Expr>, s: Scope, i: int, err: EvalError)
    requires 0 <= i < |es| && FirstFailure(py, es, s, i, err)
    ensures EvalAll(py, es, s) == Err(err)
    decreases i
  {
    if i > 0 {
      assert Eval(py, es[0], s).Ok?;
      assert es[1..][i - 1] == es[i];
      forall j | 0 <= j < i - 1 ensures Eval(py, es[1..][j], s).Ok? {
        assert es[1..][j] == es[j + 1];
      }
      FailsFirst(py, es[1..], s, i - 1, err);
    }
  }

  // ---------- What is advertised ----------

  /** node is e or somewhere below it. */
  predicate Within(node: Expr, e: Expr) {
    node == e || exists c | c in Children(e) :: Within(node, c)
  }

  /** The attribute spells context, and then the path. */
  predicate ReadsPath(node: Expr, path: Path) {
    node.Attribute? && path != [] && Spells(node, ["context"] + path)
  }

  /** What the validator lets through: no syntax outside the language, no operator but not, no identity. */
  lemma {:induction false} AllowedExactly(e: Expr)
    ensures Allowed(e) <==> forall node :: Within(node, e) ==> NodeFits(node)
  {
    forall c | c in Children(e) ensures Allowed(c) <==> forall node :: Within(node, c) ==> NodeFits(node) {
      AllowedExactly(c);
    }
    assert NodeAllowed(e) <==> NodeFits(e);
    assert Within(e, e);
    forall node, c | c in Children(e) && Within(node, c) ensures Within(node, e) {
    }
  }

  predicate NodeFits(node: Expr) {
    && !node.OtherSyntax?
    && (node.Unary? ==> node.unaryOp == Not)
    && (node.Compare? ==> Is !in node.ops && IsNot !in node.ops)
  }

  lemma OwnPathExactly(e: Expr, path: Path)
    ensures path in OwnPath(e) <==> ReadsPath(e, path)
  {
    SpellsExactly(e, ["context"] + path);
    if e.Attribute? {
      var full := AttributePath(e);
      if |full| >= 2 && full[0] == "context" {
        assert full == ["context"] + full[1..];
      }
      if full == ["context"] + path {
        assert full[1..] == path;
      }
    }
  }

  lemma {:induction false} AllAdvertised(es: seq<Expr>, path: Path)
    ensures path in AllContextPaths(es) <==> exists c :: c in es && path in ContextPaths(c)
  {
    if es != [] {
      AllAdvertised(es[1..], path);
      assert es == [es[0]] + es[1..];
      assert es[0] in es;
      forall c | c in es[1..] ensures c in es {
      }
    }
  }

  /** A path is advertised if and only if some attribute of the expression spells context and then the path. */
  lemma {:induction false} AdvertisedExactly(e: Expr, path: Path)
    ensures path in ContextPaths(e) <==> exists node :: Within(node, e) && ReadsPath(node, path)
  {
    ChildrenPaths(e);
    OwnPathExactly(e, path);
    AllAdvertised(Children(e), path);
    forall c | c in Children(e)
      ensures path in ContextPaths(c) <==> exists node :: Within(node, c) && ReadsPath(node, path)
    {
      AdvertisedExactly(c, path);
    }
    if path in OwnPath(e) {
      assert Within(e, e);
    } else if path in AllContextPaths(Children(e)) {
      var c :| c in Children(e) && path in ContextPaths(c);
      var node :| Within(node, c) && ReadsPath(node, path);
      assert Within(node, e);
    }
    if node :| Within(node, e) && ReadsPath(node, path) {
      if node != e {
        var c :| c in Children(e) && Within(node, c);
        assert path in ContextPaths(c);
      }
    }
  }

  /** A spelling can leave out a root that is no name, so an attribute called context counts as the input. */
  lemma AdvertisesForeignContext(attr: string)
    ensures var e := Attribute(Attribute(ListDisplay([]), "context"), attr);
            && [attr] in ContextPaths(e)
            && forall py, s :: Eval(py, e, s) == Err(NotAnObject)
  {
    var inner := Attribute(ListDisplay([]), "context");
    var e := Attribute(inner, attr);
    assert AttributePath(e) == ["context", attr];
    assert ["context", attr][1..] == [attr];
    assert [attr] in OwnPath(e);
    forall py, s ensures Eval(py, e, s) == Err(NotAnObject) {
      assert Eval(py, ListDisplay([]), s) == Ok(List([]));
      assert Eval(py, inner, s) == Err(NotAnObject);
    }
  }
}
