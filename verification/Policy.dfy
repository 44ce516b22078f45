/** Policy evaluation over a parsed rule set, and the catalog that advertises it. */
module Policy {
  import opened Prelude
  import opened RuleLanguage

  datatype RuleAction = AllowAction | RequireApprovalAction | DenyAction

  /** A parsed rule; a condition that is not valid Python is None. */
  datatype Rule = Rule(id: string, appliesTo: seq<string>, condition: Option<Expr>, action: RuleAction)

  datatype AuthorizeState = Allow | RequiresApproval | Deny

  datatype ReasonCode = PolicyAllowNoMatch | RuleAllow | RuleRequireApproval | RuleDeny

  datatype RuleError = RuleInputError(path: Path) | RuleExpressionError

  // ---------- One rule ----------

  function Evaluate(py: Operators, rule: Rule, s: Scope): Result<bool, RuleError> {
    if rule.condition.None? || !Allowed(rule.condition.value) then Err(RuleExpressionError)
    else
      match Eval(py, rule.condition.value, s)
      case Err(InputMissing(path)) => Err(RuleInputError(path))
      case Err(_) => Err(RuleExpressionError)
      case Ok(Bool(b)) => Ok(b)
      case Ok(_) => Err(RuleExpressionError)
  }

  method EvaluateRule(py: Operators, rule: Rule, s: Scope) returns (r: Result<bool, RuleError>)
    ensures r == Evaluate(py, rule, s)
  {
    if rule.condition.None? {
      return Err(RuleExpressionError);
    }
    var ok := ValidateNode(rule.condition.value);
    if !ok {
      return Err(RuleExpressionError);
    }
    match Eval(py, rule.condition.value, s)
    case Err(InputMissing(path)) => return Err(RuleInputError(path));
    case Err(_) => return Err(RuleExpressionError);
    case Ok(Bool(b)) => return Ok(b);
    case Ok(_) => return Err(RuleExpressionError);
  }

  // ---------- A rule set ----------

  /** The rules that match an action, in order; the first error wins. */
  function Matching(py: Operators, rules: seq<Rule>, action: string, s: Scope): Result<seq<Rule>, RuleError> {
    if rules == [] then Ok([])
    else
      var rule := rules[|rules| - 1];
      var earlier :- Matching(py, rules[..|rules| - 1], action, s);
      if action !in rule.appliesTo then Ok(earlier)
      else
        var outcome :- Evaluate(py, rule, s);
        Ok(if outcome then earlier + [rule] else earlier)
  }

  function Priority(a: RuleAction): int {
    match a
    case DenyAction => 3
    case RequireApprovalAction => 2
    case AllowAction => 1
  }

  function StateFor(a: RuleAction): AuthorizeState {
    match a
    case DenyAction => Deny
    case RequireApprovalAction => RequiresApproval
    case AllowAction => Allow
  }

  function ReasonFor(a: RuleAction): ReasonCode {
    match a
    case DenyAction => RuleDeny
    case RequireApprovalAction => RuleRequireApproval
    case AllowAction => RuleAllow
  }

  /** The first of the rules with the highest priority. */
  method WinnerRule(matched: seq<Rule>) returns (k: nat)
    requires matched != []
    ensures k < |matched|
    ensures forall i :: 0 <= i < |matched| ==> Priority(matched[i].action) <= Priority(matched[k].action)
    ensures forall i :: 0 <= i < k ==> Priority(matched[i].action) < Priority(matched[k].action)
  {
    k := 0;
    var bestScore := Priority(matched[0].action);
    for n := 1 to |matched|
      invariant k < n && bestScore == Priority(matched[k].action)
      invariant forall i :: 0 <= i < n ==> Priority(matched[i].action) <= bestScore
      invariant forall i :: 0 <= i < k ==> Priority(matched[i].action) < bestScore
    {
      var score := Priority(matched[n].action);
      if score > bestScore {
        k, bestScore := n, score;
      }
    }
  }

  datatype Decision = Decision(state: AuthorizeState, reason: ReasonCode, matched: seq<Rule>)

  /** The strictest action among the matched rules decides; without a match the action is allowed. */
  function Decide(matched: seq<Rule>): Decision {
    var strictest :=
      if exists r | r in matched :: r.action == DenyAction then DenyAction
      else if exists r | r in matched :: r.action == RequireApprovalAction then RequireApprovalAction
      else AllowAction;
    if matched == [] then Decision(Allow, PolicyAllowNoMatch, [])
    else Decision(StateFor(strictest), ReasonFor(strictest), matched)
  }

  function Authorize(py: Operators, rules: seq<Rule>, action: string, s: Scope): Result<Decision, RuleError> {
    var matched :- Matching(py, rules, action, s);
    Ok(Decide(matched))
  }

  lemma {:induction false} MatchingErrorPersists(py: Operators, rules: seq<Rule>, n: nat, action: string, s: Scope)
    requires n <= |rules| && Matching(py, rules[..n], action, s).Err?
    ensures Matching(py, rules, action, s) == Matching(py, rules[..n], action, s)
  {
    if n < |rules| {
      assert rules[..|rules| - 1][..n] == rules[..n];
      MatchingErrorPersists(py, rules[..|rules| - 1], n, action, s);
    } else {
      assert rules[..n] == rules;
    }
  }

  method EvaluateAuthorizeAction(py: Operators, rules: seq<Rule>, action: string, s: Scope)
    returns (r: Result<Decision, RuleError>)
    ensures r == Authorize(py, rules, action, s)
  {
    var matched: seq<Rule> := [];
    for i := 0 to |rules|
      invariant Matching(py, rules[..i], action, s) == Ok(matched)
    {
      assert rules[..i + 1][..i] == rules[..i];
      if action in rules[i].appliesTo {
        var outcome := EvaluateRule(py, rules[i], s);
        if outcome.Err? {
          MatchingErrorPersists(py, rules, i + 1, action, s);
          return Err(outcome.error);
        }
        if outcome.value {
          matched := matched + [rules[i]];
        }
      }
    }
    assert rules[..|rules|] == rules;
    if matched == [] {
      return Ok(Decision(Allow, PolicyAllowNoMatch, []));
    }
    var k := WinnerRule(matched);
    var winner := matched[k];
    assert winner in matched;
    assert Decide(matched).state == StateFor(winner.action);
    return Ok(Decision(StateFor(winner.action), ReasonFor(winner.action), matched));
  }

  /** A rule counts for an action when it applies to it and its condition holds. */
  predicate Counts(py: Operators, rule: Rule, action: string, s: Scope) {
    action in rule.appliesTo && Evaluate(py, rule, s) == Ok(true)
  }

  predicate Fails(py: Operators, rule: Rule, action: string, s: Scope) {
    action in rule.appliesTo && Evaluate(py, rule, s).Err?
  }

  lemma {:induction false} MatchingMeaning(py: Operators, rules: seq<Rule>, action: string, s: Scope)
    ensures Matching(py, rules, action, s).Err? <==> exists r :: r in rules && Fails(py, r, action, s)
    ensures Matching(py, rules, action, s).Ok? ==>
              forall r :: r in Matching(py, rules, action, s).value <==> r in rules && Counts(py, r, action, s)
    ensures Matching(py, rules, action, s).Err? ==>
              exists r :: r in rules && Fails(py, r, action, s)
                       && Evaluate(py, r, s) == Err(Matching(py, rules, action, s).error)
  {
    if rules != [] {
      var init, last := rules[..|rules| - 1], rules[|rules| - 1];
      MatchingMeaning(py, init, action, s);
      assert rules == init + [last];
      assert last in rules;
    }
  }

  /** The decision without the evaluation order: an error if and only if some rule for the action fails;
      otherwise deny if some counting rule denies, approval if none denies and some requires it, and allow
      if neither. In particular no order of the rules changes the state or the reason. */
  lemma AuthorizeMeaning(py: Operators, rules: seq<Rule>, action: string, s: Scope)
    ensures var r := Authorize(py, rules, action, s);
            && (r.Err? <==> exists rule :: rule in rules && Fails(py, rule, action, s))
            && (r.Ok? ==>
                  && (r.value.state == Deny <==>
                        exists rule :: rule in rules && Counts(py, rule, action, s) && rule.action == DenyAction)
                  && (r.value.state == Allow <==>
                        forall rule :: rule in rules && Counts(py, rule, action, s) ==> rule.action == AllowAction)
                  && (r.value.reason == PolicyAllowNoMatch <==>
                        forall rule :: rule in rules ==> !Counts(py, rule, action, s)))
  {
    MatchingMeaning(py, rules, action, s);
    if Matching(py, rules, action, s).Ok? {
      var matched := Matching(py, rules, action, s).value;
      assert matched == [] || matched[0] in matched;
    }
  }

  /** One rule: a boolean value of an allowed condition is its outcome, a missing input is reported with its path,
      and everything else is an error of the expression. */
  lemma EvaluateMeaning(py: Operators, rule: Rule, s: Scope)
    ensures var r := Evaluate(py, rule, s);
            var sound := rule.condition.Some? && Allowed(rule.condition.value);
            && (forall b :: r == Ok(b) <==> sound && Eval(py, rule.condition.value, s) == Ok(Bool(b)))
            && (forall path :: r == Err(RuleInputError(path)) <==>
                  sound && Eval(py, rule.condition.value, s) == Err(InputMissing(path)))
  {
  }

  /** Rule i is the first that fails. */
  ghost predicate FirstToFail(py: Operators, rules: seq<Rule>, action: string, s: Scope, i: int, err: RuleError)
    requires 0 <= i < |rules|
  {
    && action in rules[i].appliesTo && Evaluate(py, rules[i], s) == Err(err)
    && forall j :: 0 <= j < i && action in rules[j].appliesTo ==> Evaluate(py, rules[j], s).Ok?
  }

  /** The matched rules are the counting ones, in the order of the rule set; the error is the first failing rule's. */
  lemma {:induction false} MatchedInOrder(py: Operators, rules: seq<Rule>, action: string, s: Scope)
    ensures var m := Matching(py, rules, action, s);
            && (m.Ok? ==> m.value == Filter((rule: Rule) => Counts(py, rule, action, s), rules))
            && (m.Err? ==> exists i :: 0 <= i < |rules| && FirstToFail(py, rules, action, s, i, m.error))
  {
    if rules != [] {
      var n := |rules| - 1;
      var init := rules[..n];
      MatchedInOrder(py, init, action, s);
      if Matching(py, init, action, s).Err? {
        var i :| 0 <= i < n && FirstToFail(py, init, action, s, i, Matching(py, init, action, s).error);
        assert FirstToFail(py, rules, action, s, i, Matching(py, init, action, s).error);
      } else {
        MatchingMeaning(py, init, action, s);
        if Fails(py, rules[n], action, s) {
          forall j | 0 <= j < n && action in rules[j].appliesTo ensures Evaluate(py, rules[j], s).Ok? {
            assert rules[j] in init;
          }
          assert FirstToFail(py, rules, action, s, n, Evaluate(py, rules[n], s).error);
        }
      }
    }
  }

  /** The whole decision: which rules are reported, in which order, for which reason; and which error. */
  lemma DecisionMeaning(py: Operators, rules: seq<Rule>, action: string, s: Scope)
    ensures var r := Authorize(py, rules, action, s);
            var counting := Filter((rule: Rule) => Counts(py, rule, action, s), rules);
            && (r.Ok? ==>
                  && r.value.matched == counting
                  && (r.value.reason == PolicyAllowNoMatch <==> counting == [])
                  && (r.value.reason == RuleDeny <==> r.value.state == Deny)
                  && (r.value.reason == RuleRequireApproval <==> r.value.state == RequiresApproval))
            && (r.Err? ==> exists i :: 0 <= i < |rules| && FirstToFail(py, rules, action, s, i, r.error))
  {
    MatchedInOrder(py, rules, action, s);
  }

  lemma OrderIrrelevant(py: Operators, a: seq<Rule>, b: seq<Rule>, action: string, s: Scope)
    requires forall rule :: rule in a <==> rule in b
    ensures var r, t := Authorize(py, a, action, s), Authorize(py, b, action, s);
            && (r.Err? <==> t.Err?)
            && (r.Ok? ==> r.value.state == t.value.state && r.value.reason == t.value.reason)
  {
    MatchingMeaning(py, a, action, s);
    MatchingMeaning(py, b, action, s);
    if Matching(py, a, action, s).Ok? {
      var m, n := Matching(py, a, action, s).value, Matching(py, b, action, s).value;
      assert m == [] || m[0] in m;
      assert n == [] || n[0] in n;
      assert forall rule :: rule in m <==> rule in n;
    }
  }

  /** An action that no rule names is always allowed, whatever the context. */
  lemma {:induction false} UnprotectedIsAllowed(py: Operators, rules: seq<Rule>, action: string, s: Scope)
    requires forall rule :: rule in rules ==> action !in rule.appliesTo
    ensures Matching(py, rules, action, s) == Ok([])
    ensures Authorize(py, rules, action, s) == Ok(Decision(Allow, PolicyAllowNoMatch, []))
  {
    if rules != [] {
      assert rules == rules[..|rules| - 1] + [rules[|rules| - 1]];
      UnprotectedIsAllowed(py, rules[..|rules| - 1], action, s);
    }
  }

  // ---------- The catalog ----------

  datatype CatalogEntry = CatalogEntry(ruleIds: seq<string>, requiredContextFields: set<Path>)

  function RulePaths(rule: Rule): set<Path> {
    if rule.condition.None? then {} else ContextPaths(rule.condition.value)
  }

  function RequiredFields(rules: seq<Rule>, action: string): set<Path> {
    set rule, p | rule in rules && action in rule.appliesTo && p in RulePaths(rule) :: p
  }

  ghost predicate Catalogs(entries: map<string, CatalogEntry>, rules: seq<Rule>) {
    && (forall a :: a in entries <==> exists rule :: rule in rules && a in rule.appliesTo)
    && (forall a :: a in entries ==> entries[a].requiredContextFields == RequiredFields(rules, a))
    && (forall a, id :: a in entries ==>
          (id in entries[a].ruleIds <==> exists rule :: rule in rules && a in rule.appliesTo && rule.id == id))
  }

  function Entry(entries: map<string, CatalogEntry>, a: string): CatalogEntry {
    if a in entries then entries[a] else CatalogEntry([], {})
  }

  /** The entries after the first n actions of one more rule. */
  ghost predicate CatalogsPartly(entries: map<string, CatalogEntry>, rules: seq<Rule>, rule: Rule, n: nat)
    requires n <= |rule.appliesTo|
  {
    Catalogs(entries, rules + [rule.(appliesTo := rule.appliesTo[..n])])
  }

  lemma CatalogStep(entries: map<string, CatalogEntry>, rules: seq<Rule>, rule: Rule, n: nat)
    requires n < |rule.appliesTo| && CatalogsPartly(entries, rules, rule, n)
    ensures var a := rule.appliesTo[n];
            var e := Entry(entries, a);
            CatalogsPartly(entries[a := CatalogEntry(e.ruleIds + [rule.id], e.requiredContextFields + RulePaths(rule))],
                           rules, rule, n + 1)
  {
    var a := rule.appliesTo[n];
    var e := Entry(entries, a);
    var entries' := entries[a := CatalogEntry(e.ruleIds + [rule.id], e.requiredContextFields + RulePaths(rule))];
    var before, after := rule.(appliesTo := rule.appliesTo[..n]), rule.(appliesTo := rule.appliesTo[..n + 1]);
    var was, now := rules + [before], rules + [after];
    assert rule.appliesTo[..n + 1] == rule.appliesTo[..n] + [a];
    forall b ensures b in entries' <==> exists x :: x in now && b in x.appliesTo {
      NamedStep(rules, before, after, a, b);
    }
    forall b | b in entries' ensures entries'[b].requiredContextFields == RequiredFields(now, b) {
      FieldsStep(rules, before, after, a, b);
      if b !in entries {
        assert RequiredFields(was, b) == {};
      }
    }
    forall b, id | b in entries'
      ensures id in entries'[b].ruleIds <==> exists x :: x in now && b in x.appliesTo && x.id == id
    {
      IdsStep(rules, before, after, a, b, id);
    }
  }

  lemma NamedStep(rules: seq<Rule>, before: Rule, after: Rule, a: string, b: string)
    requires after.appliesTo == before.appliesTo + [a]
    ensures (exists x :: x in rules + [after] && b in x.appliesTo)
            <==> b == a || exists x :: x in rules + [before] && b in x.appliesTo
  {
    assert after in rules + [after] && before in rules + [before];
    forall x | x in rules ensures x in rules + [after] && x in rules + [before] {
    }
  }

  lemma FieldsStep(rules: seq<Rule>, before: Rule, after: Rule, a: string, b: string)
    requires after.appliesTo == before.appliesTo + [a] && after.condition == before.condition
    ensures RequiredFields(rules + [after], b) ==
            RequiredFields(rules + [before], b) + (if b == a then RulePaths(after) else {})
  {
    assert after in rules + [after] && before in rules + [before];
    assert RulePaths(after) == RulePaths(before);
    assert b in after.appliesTo <==> b in before.appliesTo || b == a;
    forall p ensures p in RequiredFields(rules + [after], b) <==>
                     p in RequiredFields(rules + [before], b) || (b == a && p in RulePaths(after))
    {
      if p in RequiredFields(rules + [after], b) {
        var x :| x in rules + [after] && b in x.appliesTo && p in RulePaths(x);
        assert if x in rules then x in rules + [before] else x == after;
      }
      if p in RequiredFields(rules + [before], b) {
        var x :| x in rules + [before] && b in x.appliesTo && p in RulePaths(x);
        assert if x in rules then x in rules + [after] else x == before;
      }
    }
  }

  lemma IdsStep(rules: seq<Rule>, before: Rule, after: Rule, a: string, b: string, id: string)
    requires after.appliesTo == before.appliesTo + [a] && after.id == before.id
    ensures (exists x :: x in rules + [after] && b in x.appliesTo && x.id == id)
            <==> (b == a && id == after.id) || exists x :: x in rules + [before] && b in x.appliesTo && x.id == id
  {
    assert after in rules + [after] && before in rules + [before];
    forall x | x in rules ensures x in rules + [after] && x in rules + [before] {
    }
  }

  lemma CatalogSame(entries: map<string, CatalogEntry>, rules: seq<Rule>, rule: Rule)
    requires Catalogs(entries, rules)
    ensures CatalogsPartly(entries, rules, rule, 0)
  {
    var unnamed := rule.(appliesTo := []);
    assert rule.appliesTo[..0] == [];
    forall x | x in rules ensures x in rules + [unnamed] {
    }
    forall a ensures RequiredFields(rules + [unnamed], a) == RequiredFields(rules, a) {
    }
  }

  /** One user's catalog: for each action that some rule names, the rules that name it and every context
      path that any of them reads. */
  method GetPolicyCatalog(rules: seq<Rule>) returns (entries: map<string, CatalogEntry>, protectedActions: set<string>)
    ensures Catalogs(entries, rules)
    ensures protectedActions == entries.Keys
  {
    entries, protectedActions := map[], {};
    for i := 0 to |rules|
      invariant Catalogs(entries, rules[..i])
      invariant protectedActions == entries.Keys
    {
      var rule := rules[i];
      var fields := ExtractContextPaths(rule.condition);
      CatalogSame(entries, rules[..i], rule);
      for n := 0 to |rule.appliesTo|
        invariant CatalogsPartly(entries, rules[..i], rule, n)
        invariant protectedActions == entries.Keys
      {
        CatalogStep(entries, rules[..i], rule, n);
        var action := rule.appliesTo[n];
        protectedActions := protectedActions + {action};
        var entry := Entry(entries, action);
        entries := entries[action := CatalogEntry(entry.ruleIds + [rule.id], entry.requiredContextFields + fields)];
      }
      assert rule.appliesTo[..|rule.appliesTo|] == rule.appliesTo;
      assert rule.(appliesTo := rule.appliesTo) == rule;
      assert rules[..i] + [rule] == rules[..i + 1];
    }
    assert rules[..|rules|] == rules;
  }

  // ---------- What the catalog promises ----------

  /** A context that resolves every field the catalog requires for an action is never refused for missing one. */
  lemma CatalogSuffices(py: Operators, rules: seq<Rule>, action: string, s: Scope)
    requires Resolves(s, RequiredFields(rules, action))
    ensures var r := Authorize(py, rules, action, s);
            r.Err? && r.error.RuleInputError? ==> r.error.path == [] || r.error.path[0] != "context"
  {
    MatchingMeaning(py, rules, action, s);
    if Matching(py, rules, action, s).Err? {
      var rule :| rule in rules && Fails(py, rule, action, s)
                  && Evaluate(py, rule, s) == Err(Matching(py, rules, action, s).error);
      if rule.condition.Some? {
        assert Resolves(s, RulePaths(rule));
        AdvertisedSuffices(py, rule.condition.value, s);
      }
    }
  }

  /** Two contexts that agree on the required fields get the same decision, or the same error. */
  lemma {:induction false} CatalogNonInterference(py: Operators, rules: seq<Rule>, action: string, s: Scope, t: Scope)
    requires Agree(s, t, RequiredFields(rules, action))
    requires forall rule :: rule in rules && action in rule.appliesTo && rule.condition.Some? ==>
                              OnlyAsBase(rule.condition.value)
    ensures Matching(py, rules, action, s) == Matching(py, rules, action, t)
    ensures Authorize(py, rules, action, s) == Authorize(py, rules, action, t)
  {
    if rules != [] {
      var init, last := rules[..|rules| - 1], rules[|rules| - 1];
      assert rules == init + [last];
      forall x | x in init ensures x in rules {
      }
      CatalogNonInterference(py, init, action, s, t);
      assert last in rules;
      if action in last.appliesTo && last.condition.Some? {
        assert Agree(s, t, RulePaths(last));
        NonInterference(py, last.condition.value, s, t);
      }
    }
  }
}
