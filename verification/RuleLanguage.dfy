/** The rule expressions: what the validator accepts, what evaluation does, and which inputs it needs. */
module RuleLanguage {
  import opened Prelude

  // ---------- Syntax ----------

  datatype Literal =
    | NoneLiteral
    | BoolLiteral(b: bool)
    | NumberLiteral(n: real)
    | StringLiteral(s: string)
    | OtherLiteral(truthy: bool)

  datatype UnaryOp = Not | OtherUnary

  datatype BoolKind = And | Or

  datatype CompareOp = Eq | NotEq | Gt | GtE | Lt | LtE | In | NotIn | Is | IsNot

  /** Python's syntax tree of an expression. OtherSyntax is every node that the language has no use for. */
  datatype Expr =
    | Constant(literal: Literal)
    | Name(id: string)
    | Attribute(base: Expr, attr: string)
    | ListDisplay(items: seq<Expr>)
    | TupleDisplay(items: seq<Expr>)
    | Unary(unaryOp: UnaryOp, operand: Expr)
    | BoolOp(kind: BoolKind, values: seq<Expr>)
    | Compare(left: Expr, ops: seq<CompareOp>, comparators: seq<Expr>)
    | OtherSyntax(children: seq<Expr>)

  function Children(e: Expr): (cs: seq<Expr>)
    ensures forall c | c in cs :: c < e
  {
    match e
    case Constant(_) => []
    case Name(_) => []
    case Attribute(base, _) => [base]
    case ListDisplay(items) => items
    case TupleDisplay(items) => items
    case Unary(_, operand) => [operand]
    case BoolOp(_, values) => values
    case Compare(left, _, comparators) => [left] + comparators
    case OtherSyntax(children) => children
  }

  // ---------- Validation ----------

  predicate SupportedCompare(op: CompareOp) {
    op != Is && op != IsNot
  }

  /** The node itself passes, whatever is below it. */
  predicate NodeAllowed(e: Expr) {
    match e
    case Unary(op, _) => op == Not
    case Compare(_, ops, _) => forall op | op in ops :: SupportedCompare(op)
    case OtherSyntax(_) => false
    case _ => true
  }

  /** Every node of the tree passes. */
  predicate Allowed(e: Expr) {
    NodeAllowed(e) && forall c | c in Children(e) :: Allowed(c)
  }

  function Size(e: Expr): nat
    decreases e, 1
  {
    1 + match e
        case Constant(_) => 0
        case Name(_) => 0
        case Attribute(base, _) => Size(base)
        case ListDisplay(items) => SizeAll(items)
        case TupleDisplay(items) => SizeAll(items)
        case Unary(_, operand) => Size(operand)
        case BoolOp(_, values) => SizeAll(values)
        case Compare(left, _, comparators) => Size(left) + SizeAll(comparators)
        case OtherSyntax(children) => SizeAll(children)
  }

  function SizeAll(es: seq<Expr>): nat
    decreases es, 0
  {
    if es == [] then 0 else Size(es[0]) + SizeAll(es[1..])
  }

  lemma {:induction false} SizeAllAppend(a: seq<Expr>, b: seq<Expr>)
    ensures SizeAll(a + b) == SizeAll(a) + SizeAll(b)
  {
    if a == [] {
      assert a + b == b;
    } else {
      assert (a + b)[1..] == a[1..] + b;
      SizeAllAppend(a[1..], b);
    }
  }

  lemma ChildrenSize(e: Expr)
    ensures SizeAll(Children(e)) == Size(e) - 1
  {
    match e {
      case Attribute(base, _) => assert [base][1..] == [];
      case Unary(_, operand) => assert [operand][1..] == [];
      case Compare(left, _, comparators) => assert ([left] + comparators)[1..] == comparators;
      case _ =>
    }
  }

  lemma WalkStep(node: Expr, rest: seq<Expr>)
    ensures (forall e | e in [node] + rest :: Allowed(e))
            <==> NodeAllowed(node) && forall e | e in rest + Children(node) :: Allowed(e)
  {
    if forall e | e in [node] + rest :: Allowed(e) {
      assert node in [node] + rest;
      forall e | e in rest ensures Allowed(e) {
        assert e in [node] + rest;
      }
    }
    if NodeAllowed(node) && forall e | e in rest + Children(node) :: Allowed(e) {
      forall e | e in rest || e in Children(node) ensures Allowed(e) {
        assert e in rest + Children(node);
      }
    }
  }

  /** Walks the tree breadth first, as ast.walk does, and stops at the first node that does not pass. */
  method ValidateNode(root: Expr) returns (ok: bool)
    ensures ok <==> Allowed(root)
  {
    var todo := [root];
    while todo != []
      invariant Allowed(root) <==> forall e | e in todo :: Allowed(e)
      decreases SizeAll(todo)
    {
      var node, rest := todo[0], todo[1..];
      assert todo == [node] + rest;
      WalkStep(node, rest);
      if !NodeAllowed(node) {
        return false;
      }
      SizeAllAppend(rest, Children(node));
      ChildrenSize(node);
      todo := rest + Children(node);
    }
    return true;
  }

  // ---------- Values and Python's operators ----------

  datatype Value =
    | NoneValue
    | Bool(b: bool)
    | Number(n: real)
    | Text(s: string)
    | List(items: seq<Value>)
    | Tuple(items: seq<Value>)
    | Dict(entries: map<string, Value>)
    | Other(truthy: bool)

  function ValueOf(l: Literal): Value {
    match l
    case NoneLiteral => NoneValue
    case BoolLiteral(b) => Bool(b)
    case NumberLiteral(n) => Number(n)
    case StringLiteral(s) => Text(s)
    case OtherLiteral(truthy) => Other(truthy)
  }

  /** Python's bool(v). */
  predicate Truthy(v: Value) {
    match v
    case NoneValue => false
    case Bool(b) => b
    case Number(n) => n != 0.0
    case Text(s) => s != ""
    case List(items) => items != []
    case Tuple(items) => items != []
    case Dict(entries) => entries != map[]
    case Other(truthy) => truthy
  }

  /** Python's own comparison operators; None is an exception such as TypeError. */
  type Operators = (Value, CompareOp, Value) -> Option<bool>

  // ---------- Evaluation ----------

  type Path = seq<string>

  datatype EvalError =
    | InputMissing(path: Path)
    | UnknownSymbol
    | NotAnObject
    | OperatorFailed
    | UnsupportedCompare
    | UnsupportedExpression

  datatype Scope = Scope(context: map<string, Value>, run: map<string, Value>)

  function CompareValues(py: Operators, left: Value, op: CompareOp, right: Value): Result<bool, EvalError> {
    if !SupportedCompare(op) then Err(UnsupportedCompare)
    else
      match py(left, op, right)
      case None => Err(OperatorFailed)
      case Some(b) => Ok(b)
  }

  /** The dotted path of an attribute; a base that is no name contributes nothing. */
  function AttributePath(e: Expr): Path {
    match e
    case Attribute(base, attr) => AttributePath(base) + [attr]
    case Name(id) => [id]
    case _ => []
  }

  method AttributePathOf(node: Expr) returns (path: Path)
    ensures path == AttributePath(node)
  {
    var parts: Path := [];
    var current := node;
    while current.Attribute?
      invariant AttributePath(node) == AttributePath(current) + parts
      decreases current
    {
      parts := [current.attr] + parts;
      current := current.base;
    }
    path := if current.Name? then [current.id] + parts else parts;
  }

  function Eval(py: Operators, e: Expr, s: Scope): Result<Value, EvalError>
    decreases e, 1
  {
    match e
    case Constant(l) => Ok(ValueOf(l))
    case Name(id) =>
      if id == "context" then Ok(Dict(s.context))
      else if id == "run" then Ok(Dict(s.run))
      else if id == "True" then Ok(Bool(true))
      else if id == "False" then Ok(Bool(false))
      else if id == "None" then Ok(NoneValue)
      else Err(UnknownSymbol)
    case Attribute(base, attr) =>
      var b :- Eval(py, base, s);
      if !b.Dict? then Err(NotAnObject)
      else if attr !in b.entries then Err(InputMissing(AttributePath(e)))
      else Ok(b.entries[attr])
    case ListDisplay(items) =>
      var vs :- EvalAll(py, items, s);
      Ok(List(vs))
    case TupleDisplay(items) =>
      var vs :- EvalAll(py, items, s);
      Ok(Tuple(vs))
    case Unary(op, operand) =>
      if op != Not then Err(UnsupportedExpression) else
        var v :- Eval(py, operand, s);
        Ok(Bool(!Truthy(v)))
    case BoolOp(kind, values) =>
      var b :- EvalBool(py, kind, values, s);
      Ok(Bool(b))
    case Compare(left, ops, comparators) =>
      var l :- Eval(py, left, s);
      var b :- EvalChain(py, l, ops, comparators, s);
      Ok(Bool(b))
    case OtherSyntax(_) => Err(UnsupportedExpression)
  }

  function EvalAll(py: Operators, es: seq<Expr>, s: Scope): Result<seq<Value>, EvalError>
    decreases es, 0
  {
    if es == [] then Ok([]) else
      var v :- Eval(py, es[0], s);
      var vs :- EvalAll(py, es[1..], s);
      Ok([v] + vs)
  }

  /** Python's all (for and) or any (for or) over the truth of the operands, stopping at the first that decides. */
  function EvalBool(py: Operators, kind: BoolKind, es: seq<Expr>, s: Scope): Result<bool, EvalError>
    decreases es, 0
  {
    if es == [] then Ok(kind == And) else
      var v :- Eval(py, es[0], s);
      if Truthy(v) == (kind == Or) then Ok(kind == Or)
      else EvalBool(py, kind, es[1..], s)
  }

  /** The comparisons of a chain from a left value on, stopping at the first that is false. */
  function EvalChain(
    py: Operators, left: Value, ops: seq<CompareOp>, comparators: seq<Expr>, s: Scope): Result<bool, EvalError>
    decreases comparators, 0
  {
    if ops == [] || comparators == [] then Ok(true) else
      var right :- Eval(py, comparators[0], s);
      var holds :- CompareValues(py, left, ops[0], right);
      if !holds then Ok(false) else EvalChain(py, right, ops[1..], comparators[1..], s)
  }

  // ---------- Progress ----------

  predicate Unsupported(err: EvalError) {
    err == UnsupportedExpression || err == UnsupportedCompare
  }

  /** Evaluation of what the validator accepts never falls through to its last resort, nor does a comparison. */
  lemma {:induction false} Progress(py: Operators, e: Expr, s: Scope)
    requires Allowed(e)
    ensures Eval(py, e, s).Err? ==> !Unsupported(Eval(py, e, s).error)
    decreases e, 1
  {
    match e {
      case Constant(_) =>
      case Name(_) =>
      case Attribute(base, _) => Progress(py, base, s);
      case ListDisplay(items) => ProgressAll(py, items, s);
      case TupleDisplay(items) => ProgressAll(py, items, s);
      case Unary(_, operand) => Progress(py, operand, s);
      case BoolOp(kind, values) => ProgressBool(py, kind, values, s);
      case Compare(left, ops, comparators) =>
        Progress(py, left, s);
        if Eval(py, left, s).Ok? {
          ProgressChain(py, Eval(py, left, s).value, ops, comparators, s);
        }
    }
  }

  lemma {:induction false} ProgressAll(py: Operators, es: seq<Expr>, s: Scope)
    requires forall c | c in es :: Allowed(c)
    ensures EvalAll(py, es, s).Err? ==> !Unsupported(EvalAll(py, es, s).error)
    decreases es, 0
  {
    if es != [] {
      assert es == [es[0]] + es[1..];
      Progress(py, es[0], s);
      ProgressAll(py, es[1..], s);
    }
  }

  lemma {:induction false} ProgressBool(py: Operators, kind: BoolKind, es: seq<Expr>, s: Scope)
    requires forall c | c in es :: Allowed(c)
    ensures EvalBool(py, kind, es, s).Err? ==> !Unsupported(EvalBool(py, kind, es, s).error)
    decreases es, 0
  {
    if es != [] {
      assert es == [es[0]] + es[1..];
      Progress(py, es[0], s);
      ProgressBool(py, kind, es[1..], s);
    }
  }

  lemma {:induction false} ProgressChain(py: Operators, left: Value, ops: seq<CompareOp>, es: seq<Expr>, s: Scope)
    requires forall c | c in es :: Allowed(c)
    requires forall op | op in ops :: SupportedCompare(op)
    ensures EvalChain(py, left, ops, es, s).Err? ==> !Unsupported(EvalChain(py, left, ops, es, s).error)
    decreases es, 0
  {
    if es != [] && ops != [] {
      assert es == [es[0]] + es[1..] && ops == [ops[0]] + ops[1..];
      Progress(py, es[0], s);
      var right := Eval(py, es[0], s);
      if right.Ok? {
        ProgressChain(py, right.value, ops[1..], es[1..], s);
      }
    }
  }

  // ---------- Chained comparisons ----------

  /** The adjacent pairs of a chain: a < b < c gives a < b and b < c. */
  function AdjacentPairs(left: Expr, ops: seq<CompareOp>, comparators: seq<Expr>): seq<Expr>
    decreases |ops|
  {
    if ops == [] || comparators == [] then []
    else [Compare(left, [ops[0]], [comparators[0]])] + AdjacentPairs(comparators[0], ops[1..], comparators[1..])
  }

  lemma PairMeaning(py: Operators, left: Expr, op: CompareOp, right: Expr, s: Scope)
    ensures Eval(py, Compare(left, [op], [right]), s) ==
            match Eval(py, left, s)
            case Err(e) => Err(e)
            case Ok(l) =>
              match Eval(py, right, s)
              case Err(e) => Err(e)
              case Ok(r) => match CompareValues(py, l, op, r) case Err(e) => Err(e) case Ok(b) => Ok(Bool(b))
  {
    match Eval(py, left, s) {
      case Err(_) =>
      case Ok(l) =>
        assert [right][1..] == [] && [op][1..] == [];
        assert EvalChain(py, l, [op], [right], s) ==
          match Eval(py, right, s)
          case Err(e) => Err(e)
          case Ok(r) => match CompareValues(py, l, op, r) case Err(e) => Err(e) case Ok(b) => Ok(b);
    }
  }

  /** A chain means the short-circuit conjunction of its adjacent pairs: same value, same error, at the
      same place, although the chain evaluates each middle operand once where the conjunction would twice. */
  lemma {:induction false} ChainIsConjunction(
    py: Operators, left: Expr, ops: seq<CompareOp>, comparators: seq<Expr>, s: Scope)
    requires Eval(py, left, s).Ok?
    ensures EvalChain(py, Eval(py, left, s).value, ops, comparators, s)
            == EvalBool(py, And, AdjacentPairs(left, ops, comparators), s)
    decreases |comparators|
  {
    if ops != [] && comparators != [] {
      var pairs := AdjacentPairs(left, ops, comparators);
      PairMeaning(py, left, ops[0], comparators[0], s);
      assert pairs[1..] == AdjacentPairs(comparators[0], ops[1..], comparators[1..]);
      if Eval(py, comparators[0], s).Ok? {
        ChainIsConjunction(py, comparators[0], ops[1..], comparators[1..], s);
      }
    }
  }

  /** The loop over a chain. It evaluates the comparators in order, none twice, up to the first comparison
      that is false or fails, and no further. */
  method CompareChain(py: Operators, left: Value, ops: seq<CompareOp>, comparators: seq<Expr>, s: Scope)
    returns (r: Result<bool, EvalError>, ghost evaluated: seq<Expr>)
    ensures r == EvalChain(py, left, ops, comparators, s)
    ensures evaluated <= comparators && |evaluated| <= |ops|
    ensures forall i :: 0 <= i < |evaluated| - 1 ==> LinkHolds(py, left, ops, comparators, i, s)
    ensures |evaluated| < |ops| && |evaluated| < |comparators| ==>
              evaluated != [] && !LinkHolds(py, left, ops, comparators, |evaluated| - 1, s)
    ensures r == Ok(true) <==>
            forall i :: 0 <= i < |ops| && i < |comparators| ==> LinkHolds(py, left, ops, comparators, i, s)
  {
    var current := left;
    evaluated := [];
    assert ops[0..] == ops && comparators[0..] == comparators;
    for i := 0 to if |ops| < |comparators| then |ops| else |comparators|
      invariant evaluated == comparators[..i]
      invariant Ok(current) == OperandOf(py, left, comparators, i, s)
      invariant EvalChain(py, left, ops, comparators, s) == EvalChain(py, current, ops[i..], comparators[i..], s)
      invariant forall j :: 0 <= j < i ==> LinkHolds(py, left, ops, comparators, j, s)
    {
      assert ops[i..][1..] == ops[i + 1..] && comparators[i..][1..] == comparators[i + 1..];
      var right := Eval(py, comparators[i], s);
      evaluated := evaluated + [comparators[i]];
      if right.Err? {
        assert !LinkHolds(py, left, ops, comparators, i, s);
        return Err(right.error), evaluated;
      }
      var holds := CompareValues(py, current, ops[i], right.value);
      if holds.Err? {
        assert !LinkHolds(py, left, ops, comparators, i, s);
        return Err(holds.error), evaluated;
      }
      if !holds.value {
        assert !LinkHolds(py, left, ops, comparators, i, s);
        return Ok(false), evaluated;
      }
      current := right.value;
    }
    return Ok(true), evaluated;
  }

  /** The left operand of link i: the chain's own, or the comparator before. */
  function OperandOf(py: Operators, left: Value, comparators: seq<Expr>, i: nat, s: Scope): Result<Value, EvalError>
    requires i <= |comparators|
  {
    if i == 0 then Ok(left) else Eval(py, comparators[i - 1], s)
  }

  /** Both operands of link i have values, and they compare as it says. */
  predicate LinkHolds(py: Operators, left: Value, ops: seq<CompareOp>, comparators: seq<Expr>, i: nat, s: Scope)
    requires i < |ops| && i < |comparators|
  {
    var a, b := OperandOf(py, left, comparators, i, s), Eval(py, comparators[i], s);
    a.Ok? && b.Ok? && CompareValues(py, a.value, ops[i], b.value) == Ok(true)
  }

  // ---------- Advertised inputs ----------

  /** The context path that one node reads, if it reads one. */
  function OwnPath(e: Expr): set<Path> {
    if !e.Attribute? then {}
    else
      var full := AttributePath(e);
      if |full| >= 2 && full[0] == "context" then {full[1..]} else {}
  }

  function ContextPaths(e: Expr): set<Path>
    decreases e, 1
  {
    OwnPath(e) +
    match e
    case Constant(_) => {}
    case Name(_) => {}
    case Attribute(base, _) => ContextPaths(base)
    case ListDisplay(items) => AllContextPaths(items)
    case TupleDisplay(items) => AllContextPaths(items)
    case Unary(_, operand) => ContextPaths(operand)
    case BoolOp(_, values) => AllContextPaths(values)
    case Compare(left, _, comparators) => ContextPaths(left) + AllContextPaths(comparators)
    case OtherSyntax(children) => AllContextPaths(children)
  }

  function AllContextPaths(es: seq<Expr>): set<Path>
    decreases es, 0
  {
    if es == [] then {} else ContextPaths(es[0]) + AllContextPaths(es[1..])
  }

  lemma {:induction false} AllContextPathsAppend(a: seq<Expr>, b: seq<Expr>)
    ensures AllContextPaths(a + b) == AllContextPaths(a) + AllContextPaths(b)
  {
    if a == [] {
      assert a + b == b;
    } else {
      assert (a + b)[1..] == a[1..] + b;
      AllContextPathsAppend(a[1..], b);
    }
  }

  lemma ChildrenPaths(e: Expr)
    ensures ContextPaths(e) == OwnPath(e) + AllContextPaths(Children(e))
  {
    match e {
      case Attribute(base, _) => assert [base][1..] == [];
      case Unary(_, operand) => assert [operand][1..] == [];
      case Compare(left, _, comparators) => assert ([left] + comparators)[1..] == comparators;
      case _ =>
    }
  }

  /** An expression that does not parse advertises nothing. */
  method ExtractContextPaths(expression: Option<Expr>) returns (paths: set<Path>)
    ensures paths == if expression.None? then {} else ContextPaths(expression.value)
  {
    paths := {};
    if expression.None? {
      return;
    }
    var todo := [expression.value];
    assert todo[1..] == [];
    while todo != []
      invariant ContextPaths(expression.value) == paths + AllContextPaths(todo)
      decreases SizeAll(todo)
    {
      var node, rest := todo[0], todo[1..];
      SizeAllAppend(rest, Children(node));
      ChildrenSize(node);
      AllContextPathsAppend(rest, Children(node));
      ChildrenPaths(node);
      todo := rest + Children(node);
      if node.Attribute? {
        var full := AttributePathOf(node);
        if |full| >= 2 && full[0] == "context" {
          paths := paths + {full[1..]};
        }
      }
    }
  }

  /** What a path leads to inside a dictionary. */
  function Lookup(context: map<string, Value>, path: Path): Option<Value> {
    if path == [] then Some(Dict(context))
    else
      match Lookup(context, path[..|path| - 1])
      case Some(Dict(entries)) =>
        if path[|path| - 1] in entries then Some(entries[path[|path| - 1]]) else None
      case _ => None
  }

  /** A name followed by attributes. */
  predicate Dotted(e: Expr) {
    e.Name? || (e.Attribute? && Dotted(e.base))
  }

  function Root(e: Expr): string
    requires Dotted(e)
  {
    if e.Name? then e.id else Root(e.base)
  }

  lemma {:induction false} DottedPath(e: Expr)
    requires Dotted(e)
    ensures AttributePath(e) != [] && AttributePath(e)[0] == Root(e)
    ensures e.Attribute? ==> |AttributePath(e)| >= 2
  {
    if e.Attribute? {
      DottedPath(e.base);
    }
  }

  /** Only a dotted name rooted in one of the two inputs evaluates to a dictionary it can be asked for. */
  lemma {:induction false} DictIsDotted(py: Operators, e: Expr, s: Scope)
    requires Eval(py, e, s).Ok? && Eval(py, e, s).value.Dict?
    ensures Dotted(e) && (Root(e) == "context" || Root(e) == "run")
  {
    if e.Attribute? {
      DictIsDotted(py, e.base, s);
    }
  }

  /** A dotted name rooted in the context is looked up along its path. */
  lemma {:induction false} DottedIsLookup(py: Operators, e: Expr, s: Scope)
    requires Dotted(e) && Root(e) == "context"
    ensures AttributePath(e) != []
    ensures match Lookup(s.context, AttributePath(e)[1..])
            case Some(v) => Eval(py, e, s) == Ok(v)
            case None => Eval(py, e, s).Err?
  {
    DottedPath(e);
    if e.Attribute? {
      DottedIsLookup(py, e.base, s);
      DottedPath(e.base);
      var full := AttributePath(e);
      assert full[1..][..|full[1..]| - 1] == AttributePath(e.base)[1..];
      assert full[1..][|full[1..]| - 1] == e.attr;
    }
  }

  predicate ContextMissing(err: EvalError) {
    err.InputMissing? && err.path != [] && err.path[0] == "context"
  }

  ghost predicate Resolves(s: Scope, paths: set<Path>) {
    forall p | p in paths :: Lookup(s.context, p).Some?
  }

  /** A context that resolves every advertised path is never reported as missing one. */
  lemma {:induction false} AdvertisedSuffices(py: Operators, e: Expr, s: Scope)
    requires Resolves(s, ContextPaths(e))
    ensures Eval(py, e, s).Err? ==> !ContextMissing(Eval(py, e, s).error)
    decreases e, 1
  {
    match e {
      case Constant(_) =>
      case Name(_) =>
      case Attribute(base, attr) =>
        AdvertisedSuffices(py, base, s);
        var b := Eval(py, base, s);
        if b.Ok? && b.value.Dict? {
          DictIsDotted(py, base, s);
          DottedPath(e);
          if Root(e) == "context" {
            assert AttributePath(e)[1..] in ContextPaths(e);
            DottedIsLookup(py, e, s);
          }
        }
      case ListDisplay(items) => AdvertisedSufficesAll(py, items, s);
      case TupleDisplay(items) => AdvertisedSufficesAll(py, items, s);
      case Unary(_, operand) => AdvertisedSuffices(py, operand, s);
      case BoolOp(kind, values) => AdvertisedSufficesBool(py, kind, values, s);
      case Compare(left, ops, comparators) =>
        AdvertisedSuffices(py, left, s);
        if Eval(py, left, s).Ok? {
          AdvertisedSufficesChain(py, Eval(py, left, s).value, ops, comparators, s);
        }
      case OtherSyntax(_) =>
    }
  }

  lemma {:induction false} AdvertisedSufficesAll(py: Operators, es: seq<Expr>, s: Scope)
    requires Resolves(s, AllContextPaths(es))
    ensures EvalAll(py, es, s).Err? ==> !ContextMissing(EvalAll(py, es, s).error)
    decreases es, 0
  {
    if es != [] {
      AdvertisedSuffices(py, es[0], s);
      AdvertisedSufficesAll(py, es[1..], s);
    }
  }

  lemma {:induction false} AdvertisedSufficesBool(py: Operators, kind: BoolKind, es: seq<Expr>, s: Scope)
    requires Resolves(s, AllContextPaths(es))
    ensures EvalBool(py, kind, es, s).Err? ==> !ContextMissing(EvalBool(py, kind, es, s).error)
    decreases es, 0
  {
    if es != [] {
      AdvertisedSuffices(py, es[0], s);
      AdvertisedSufficesBool(py, kind, es[1..], s);
    }
  }

  lemma {:induction false} AdvertisedSufficesChain(
    py: Operators, left: Value, ops: seq<CompareOp>, es: seq<Expr>, s: Scope)
    requires Resolves(s, AllContextPaths(es))
    ensures EvalChain(py, left, ops, es, s).Err? ==> !ContextMissing(EvalChain(py, left, ops, es, s).error)
    decreases es, 0
  {
    if es != [] && ops != [] {
      AdvertisedSuffices(py, es[0], s);
      var right := Eval(py, es[0], s);
      if right.Ok? {
        AdvertisedSufficesChain(py, right.value, ops[1..], es[1..], s);
      }
    }
  }

  // ---------- Non-interference ----------

  /** context occurs only as the base of an attribute. */
  predicate OnlyAsBase(e: Expr) {
    match e
    case Name(id) => id != "context"
    case Attribute(base, _) => base.Name? || OnlyAsBase(base)
    case _ => forall c | c in Children(e) :: OnlyAsBase(c)
  }

  ghost predicate Agree(s: Scope, t: Scope, paths: set<Path>) {
    s.run == t.run && forall p | p in paths :: Lookup(s.context, p) == Lookup(t.context, p)
  }

  lemma LookupOne(context: map<string, Value>, attr: string)
    ensures Lookup(context, [attr]) == if attr in context then Some(context[attr]) else None
  {
    assert [attr][..0] == [];
    assert Lookup(context, []) == Some(Dict(context));
  }

  /** Two contexts that agree on the advertised paths cannot be told apart: same value or same error. */
  lemma {:induction false} NonInterference(py: Operators, e: Expr, s: Scope, t: Scope)
    requires OnlyAsBase(e) && Agree(s, t, ContextPaths(e))
    ensures Eval(py, e, s) == Eval(py, e, t)
    decreases e, 1
  {
    match e {
      case Constant(_) =>
      case Name(_) =>
      case Attribute(base, attr) =>
        if base.Name? && base.id == "context" {
          assert AttributePath(e) == ["context", attr];
          assert AttributePath(e)[1..] == [attr];
          assert [attr] in ContextPaths(e);
          LookupOne(s.context, attr);
          LookupOne(t.context, attr);
        } else {
          NonInterference(py, base, s, t);
        }
      case ListDisplay(items) => NonInterferenceAll(py, items, s, t);
      case TupleDisplay(items) => NonInterferenceAll(py, items, s, t);
      case Unary(_, operand) => NonInterference(py, operand, s, t);
      case BoolOp(kind, values) => NonInterferenceBool(py, kind, values, s, t);
      case Compare(left, ops, comparators) =>
        NonInterference(py, left, s, t);
        if Eval(py, left, s).Ok? {
          NonInterferenceChain(py, Eval(py, left, s).value, ops, comparators, s, t);
        }
      case OtherSyntax(_) =>
    }
  }

  lemma {:induction false} NonInterferenceAll(py: Operators, es: seq<Expr>, s: Scope, t: Scope)
    requires (forall c | c in es :: OnlyAsBase(c)) && Agree(s, t, AllContextPaths(es))
    ensures EvalAll(py, es, s) == EvalAll(py, es, t)
    decreases es, 0
  {
    if es != [] {
      assert es == [es[0]] + es[1..];
      NonInterference(py, es[0], s, t);
      NonInterferenceAll(py, es[1..], s, t);
    }
  }

  lemma {:induction false} NonInterferenceBool(py: Operators, kind: BoolKind, es: seq<Expr>, s: Scope, t: Scope)
    requires (forall c | c in es :: OnlyAsBase(c)) && Agree(s, t, AllContextPaths(es))
    ensures EvalBool(py, kind, es, s) == EvalBool(py, kind, es, t)
    decreases es, 0
  {
    if es != [] {
      assert es == [es[0]] + es[1..];
      NonInterference(py, es[0], s, t);
      NonInterferenceBool(py, kind, es[1..], s, t);
    }
  }

  lemma {:induction false} NonInterferenceChain(
    py: Operators, left: Value, ops: seq<CompareOp>, es: seq<Expr>, s: Scope, t: Scope)
    requires (forall c | c in es :: OnlyAsBase(c)) && Agree(s, t, AllContextPaths(es))
    ensures EvalChain(py, left, ops, es, s) == EvalChain(py, left, ops, es, t)
    decreases es, 0
  {
    if es != [] && ops != [] {
      assert es == [es[0]] + es[1..] && ops == [ops[0]] + ops[1..];
      NonInterference(py, es[0], s, t);
      var right := Eval(py, es[0], s);
      if right.Ok? {
        NonInterferenceChain(py, right.value, ops[1..], es[1..], s, t);
      }
    }
  }
}
