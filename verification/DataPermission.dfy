/** Compiling a set of data rules to a row filter. */
module DataPermissionModel {
  /** `Unknown` stands for an expression or operator the compiler has no case for. */
  datatype Expression = Eq | Ne | Gt | Ge | Lt | Le | In | NotIn | UnknownExpression

  datatype Operator = And | Or | UnknownOperator

  datatype Rule = Rule(model: string, column: string, expression: Expression, operator: Operator, value: string)

  datatype Scope = Scope(enabled: bool, rules: seq<Rule>)

  datatype Role = Role(enabled: bool, filterScopes: bool, scopes: seq<Scope>)

  datatype User = User(superuser: bool, roles: seq<Role>)

  /** A comparison of a column of a model with a value; whether it holds is up to the row. */
  datatype Condition = Condition(model: string, column: string, expression: Expression, value: string)

  /** The columns of each target model, the columns never filtered, and what a column template stands for. */
  datatype Settings = Settings(targets: map<string, set<string>>, excluded: set<string>, templates: map<string, string>)

  const ALL_MODELS := "__ALL__"

  /** The filter handed to the query. */
  datatype Filter = Always | Never | Holds(condition: Condition) | AllOf(parts: seq<Filter>) | AnyOf(parts: seq<Filter>)

  predicate Eval(f: Filter, row: Condition -> bool) {
    match f
    case Always => true
    case Never => false
    case Holds(c) => row(c)
    case AllOf(parts) => forall i :: 0 <= i < |parts| ==> Eval(parts[i], row)
    case AnyOf(parts) => exists i :: 0 <= i < |parts| && Eval(parts[i], row)
  }

  // ---------------------------------------------------------------- what a rule contributes

  function ColumnOf(s: Settings, r: Rule): string {
    if r.column in s.templates then s.templates[r.column] else r.column
  }

  function TargetsOf(s: Settings, r: Rule): set<string> {
    if r.model == ALL_MODELS then s.targets.Keys else if r.model in s.targets then {r.model} else {}
  }

  predicate Applies(s: Settings, r: Rule, model: string) {
    model in s.targets && ColumnOf(s, r) in s.targets[model] && ColumnOf(s, r) !in s.excluded
        && !r.expression.UnknownExpression?
  }

  /** A rule for a target model, or for all of them, contributes a comparison of the column it stands for, if the
      model has that column, it is not excluded, and the expression is known. */
  ghost predicate Contributes(s: Settings, r: Rule, c: Condition) {
    && c.model in s.targets && (r.model == c.model || r.model == "__ALL__")
    && c.column == (if r.column in s.templates then s.templates[r.column] else r.column)
    && c.column in s.targets[c.model] && c.column !in s.excluded
    && c.expression == r.expression != UnknownExpression && c.value == r.value
  }

  /** The conditions of a rule, as they are compiled: one for each target model that has the column. */
  function Conditions(s: Settings, r: Rule): set<Condition> {
    set m | m in TargetsOf(s, r) && Applies(s, r, m) :: Condition(m, ColumnOf(s, r), r.expression, r.value)
  }

  lemma ConditionsAre(s: Settings, r: Rule, c: Condition)
    ensures c in Conditions(s, r) <==> Contributes(s, r, c)
  {
    if Contributes(s, r, c) {
      assert c.model in TargetsOf(s, r) && Applies(s, r, c.model);
      assert c == Condition(c.model, ColumnOf(s, r), r.expression, r.value);
    }
  }

  function ConditionsOf(s: Settings, rules: set<Rule>, op: Operator): set<Condition> {
    set r, c | r in rules && r.operator == op && c in Conditions(s, r) :: c
  }

  // ---------------------------------------------------------------- what is visible

  /** The condition comes from a rule of the operator. */
  ghost predicate Given(s: Settings, rules: set<Rule>, op: Operator, c: Condition) {
    exists r :: r in rules && r.operator == op && Contributes(s, r, c)
  }

  lemma GivenIff(s: Settings, rules: set<Rule>, op: Operator)
    ensures forall c :: c in ConditionsOf(s, rules, op) <==> Given(s, rules, op, c)
  {
    forall c ensures c in ConditionsOf(s, rules, op) <==> Given(s, rules, op, c) {
      forall r ensures c in Conditions(s, r) <==> Contributes(s, r, c) { ConditionsAre(s, r, c); }
      hide Conditions, Contributes;
    }
  }

  /** All AND-conditions hold, if there are any; or some OR-condition holds; or there are no conditions. */
  predicate Denotes(ands: set<Condition>, ors: set<Condition>, row: Condition -> bool) {
    || (ands == {} && ors == {})
    || (ands != {} && forall c :: c in ands ==> row(c))
    || (exists c :: c in ors && row(c))
  }

  predicate Unfiltered(u: User) {
    u.superuser || exists i :: 0 <= i < |u.roles| && u.roles[i].enabled && !u.roles[i].filterScopes
  }

  /** The rules of the enabled scopes of the enabled roles. */
  function RulesOf(u: User): set<Rule> {
    set i, j, r | 0 <= i < |u.roles| && u.roles[i].enabled && 0 <= j < |u.roles[i].scopes|
        && u.roles[i].scopes[j].enabled
      && r in u.roles[i].scopes[j].rules :: r
  }

  /** The user is not filtered; or there are rules, and they give no condition, or all their AND-conditions hold and
      there is one, or one of their OR-conditions holds. */
  ghost predicate Visible(s: Settings, u: User, row: Condition -> bool) {
    || Unfiltered(u)
    || (RulesOf(u) != {} &&
          var rules := RulesOf(u);
          || (forall c :: !Given(s, rules, And, c) && !Given(s, rules, Or, c))
          || ((exists c :: Given(s, rules, And, c)) && forall c :: Given(s, rules, And, c) ==> row(c))
          || (exists c :: Given(s, rules, Or, c) && row(c)))
  }

  lemma VisibleIff(s: Settings, u: User, row: Condition -> bool)
    requires !Unfiltered(u) && RulesOf(u) != {}
    ensures Visible(s, u, row) <==>
      Denotes(ConditionsOf(s, RulesOf(u), And), ConditionsOf(s, RulesOf(u), Or), row)
  {
    GivenIff(s, RulesOf(u), And);
    GivenIff(s, RulesOf(u), Or);
    hide ConditionsOf, Given, RulesOf, Unfiltered;
    var ands, ors := ConditionsOf(s, RulesOf(u), And), ConditionsOf(s, RulesOf(u), Or);
    assert ands != {} <==> exists c :: c in ands;
    assert ors != {} <==> exists c :: c in ors;
  }
}

/** The compiler as it runs: loops gather rules into a set and conditions into two lists. */
module DataPermissionCompiler {
  import opened Collections
  import opened DataPermissionModel

  function AsFilters(cs: seq<Condition>): seq<Filter> {
    seq(|cs|, i requires 0 <= i < |cs| => Holds(cs[i]))
  }

  method GatherRules(u: User) returns (rules: set<Rule>)
    ensures rules == RulesOf(u)
  {
    rules := {};
    for i := 0 to |u.roles|
      invariant rules == RulesOf(u.(roles := u.roles[..i]))
    {
      var role := u.roles[i];
      ghost var before := rules;
      var gathered: set<Rule> := {};
      if role.enabled {
        for j := 0 to |role.scopes|
          invariant gathered == set k, r | 0 <= k < j && role.scopes[k].enabled && r in role.scopes[k].rules :: r
        {
          if role.scopes[j].enabled { gathered := gathered + Elements(role.scopes[j].rules); }
        }
      }
      rules := rules + gathered;
      OneMoreRole(u, i, gathered);
    }
    assert u.roles[..|u.roles|] == u.roles;
  }

  lemma OneMoreRole(u: User, i: nat, gathered: set<Rule>)
    requires i < |u.roles|
    requires gathered == if u.roles[i].enabled then
      (set k, r | 0 <= k < |u.roles[i].scopes| && u.roles[i].scopes[k].enabled && r in u.roles[i].scopes[k].rules :: r)
    else {}
    ensures RulesOf(u.(roles := u.roles[..i + 1])) == RulesOf(u.(roles := u.roles[..i])) + gathered
  {
    var (a, b) := (u.(roles := u.roles[..i]), u.(roles := u.roles[..i + 1]));
    forall r ensures r in RulesOf(b) <==> r in RulesOf(a) || r in gathered {
      if r in RulesOf(b) {
        var k, j :| 0 <= k < |b.roles| && b.roles[k].enabled && 0 <= j < |b.roles[k].scopes|
            && b.roles[k].scopes[j].enabled && r in b.roles[k].scopes[j].rules;
        if k < i { assert a.roles[k] == b.roles[k]; }
      }
      if r in RulesOf(a) {
        var k, j :| 0 <= k < |a.roles| && a.roles[k].enabled && 0 <= j < |a.roles[k].scopes|
            && a.roles[k].scopes[j].enabled && r in a.roles[k].scopes[j].rules;
        assert a.roles[k] == b.roles[k];
      }
      if r in gathered {
        var j :| 0 <= j < |u.roles[i].scopes| && u.roles[i].scopes[j].enabled && r in u.roles[i].scopes[j].rules;
        assert b.roles[i] == u.roles[i];
      }
    }
  }

  /** The conditions of one rule, target by target. */
  method CompileRule(s: Settings, r: Rule) returns (conditions: seq<Condition>)
    ensures Elements(conditions) == Conditions(s, r)
  {
    conditions := [];
    var todo := TargetsOf(s, r);
    var done: set<string> := {};
    while todo != {}
      invariant done + todo == TargetsOf(s, r) && done * todo == {}
      invariant Elements(conditions) == set m | m in done && Applies(s, r, m) ::
        Condition(m, ColumnOf(s, r), r.expression, r.value)
      decreases todo
    {
      var m :| m in todo;
      todo := todo - {m};
      done := done + {m};
      var column := if r.column in s.templates then s.templates[r.column] else r.column;
      if column !in s.targets[m] || column in s.excluded { continue; }
      if r.expression.UnknownExpression? { continue; }
      conditions := conditions + [Condition(m, column, r.expression, r.value)];
    }
    assert done == TargetsOf(s, r);
  }

  /** The rules in whatever order the set yields them. */
  method CompileRules(s: Settings, rules: set<Rule>) returns (ands: seq<Condition>, ors: seq<Condition>)
    ensures Elements(ands) == ConditionsOf(s, rules, And)
    ensures Elements(ors) == ConditionsOf(s, rules, Or)
  {
    ands, ors := [], [];
    var todo := rules;
    while todo != {}
      invariant todo <= rules
      invariant Elements(ands) == ConditionsOf(s, rules - todo, And)
      invariant Elements(ors) == ConditionsOf(s, rules - todo, Or)
      decreases todo
    {
      var r :| r in todo;
      ghost var done := rules - todo;
      todo := todo - {r};
      assert rules - todo == done + {r};
      var conditions := CompileRule(s, r);
      OneMoreRule(s, done, r, And);
      OneMoreRule(s, done, r, Or);
      if r.operator == And {
        ands := ands + conditions;
      } else if r.operator == Or {
        ors := ors + conditions;
      }
    }
    assert rules - todo == rules;
  }

  lemma OneMoreRule(s: Settings, done: set<Rule>, r: Rule, op: Operator)
    ensures ConditionsOf(s, done + {r}, op) ==
      ConditionsOf(s, done, op) + (if r.operator == op then Conditions(s, r) else {})
  {
    hide Conditions;
  }

  method FilterDataPermission(s: Settings, u: User) returns (f: Filter)
    ensures forall row: Condition -> bool :: Eval(f, row) <==> Visible(s, u, row)
  {
    if u.superuser { return Always; }
    for i := 0 to |u.roles|
      invariant forall j :: 0 <= j < i ==> !(u.roles[j].enabled && !u.roles[j].filterScopes)
    {
      if u.roles[i].enabled && !u.roles[i].filterScopes { return Always; }
    }
    var rules := GatherRules(u);
    if rules == {} { return Never; }
    var ands, ors := CompileRules(s, rules);
    hide RulesOf, ConditionsOf, Conditions;
    var parts: seq<Filter> := [];
    if ands != [] { parts := parts + [AllOf(AsFilters(ands))]; }
    if ors != [] { parts := parts + [AnyOf(AsFilters(ors))]; }
    f := if parts != [] then AnyOf(parts) else Always;
    forall row: Condition -> bool ensures Eval(f, row) <==> Visible(s, u, row) {
      CombinedMeaning(ands, ors, f, row);
      VisibleIff(s, u, row);
    }
  }

  lemma CombinedMeaning(ands: seq<Condition>, ors: seq<Condition>, f: Filter, row: Condition -> bool)
    requires var parts := (if ands != [] then [AllOf(AsFilters(ands))] else []) +
      (if ors != [] then [AnyOf(AsFilters(ors))] else []);
      f == if parts != [] then AnyOf(parts) else Always
    ensures Eval(f, row) <==> Denotes(Elements(ands), Elements(ors), row)
  {
    ListMeaning(ands, row);
    ListMeaning(ors, row);
    assert ands != [] ==> ands[0] in Elements(ands);
    assert ors != [] ==> ors[0] in Elements(ors);
    if ands != [] && ors != [] {
      assert f.parts == [AllOf(AsFilters(ands)), AnyOf(AsFilters(ors))];
      assert Eval(f, row) <==> Eval(f.parts[0], row) || Eval(f.parts[1], row);
    } else if ands != [] {
      assert f.parts == [AllOf(AsFilters(ands))];
      assert Eval(f, row) <==> Eval(f.parts[0], row);
    } else if ors != [] {
      assert f.parts == [AnyOf(AsFilters(ors))];
      assert Eval(f, row) <==> Eval(f.parts[0], row);
    }
  }

  lemma ListMeaning(cs: seq<Condition>, row: Condition -> bool)
    ensures Eval(AllOf(AsFilters(cs)), row) <==> forall c :: c in Elements(cs) ==> row(c)
    ensures Eval(AnyOf(AsFilters(cs)), row) <==> exists c :: c in Elements(cs) && row(c)
  {
    var fs := AsFilters(cs);
    forall i | 0 <= i < |cs| ensures Eval(fs[i], row) <==> row(cs[i]) {}
    if Eval(AllOf(fs), row) {
      forall c | c in Elements(cs) ensures row(c) {
        var i :| 0 <= i < |cs| && cs[i] == c;
        assert Eval(fs[i], row);
      }
    }
    if Eval(AnyOf(fs), row) {
      var i :| 0 <= i < |fs| && Eval(fs[i], row);
      assert cs[i] in Elements(cs);
    }
    if c :| c in Elements(cs) && row(c) {
      var i :| 0 <= i < |cs| && cs[i] == c;
      assert Eval(fs[i], row);
    }
  }
}

/** What adding a rule does to what can be seen. */
module DataPermissionTheorems {
  import opened DataPermissionModel

  /** Adding OR-conditions hides some row exactly when there were no conditions before. */
  lemma AddingOrHidesIff(ands: set<Condition>, ors: set<Condition>, more: set<Condition>)
    requires more != {}
    ensures (exists row: Condition -> bool :: Denotes(ands, ors, row) && !Denotes(ands, ors + more, row)) <==>
      ands == {} && ors == {}
  {
    if ands == {} && ors == {} {
      var row: Condition -> bool := _ => false;
      assert more <= ors + more;
      assert Denotes(ands, ors, row) && !Denotes(ands, ors + more, row);
    } else {
      forall row: Condition -> bool | Denotes(ands, ors, row) ensures Denotes(ands, ors + more, row) {
        if c :| c in ors && row(c) { assert c in ors + more; }
      }
    }
  }

  /** Adding AND-conditions reveals some row exactly when there were only OR-conditions before and none of the new
      ones is among them. */
  lemma AddingAndRevealsIff(ands: set<Condition>, ors: set<Condition>, more: set<Condition>)
    requires more != {}
    ensures (exists row: Condition -> bool :: !Denotes(ands, ors, row) && Denotes(ands + more, ors, row)) <==>
      ands == {} && ors != {} && ors !! more
  {
    if ands == {} && ors != {} && ors !! more {
      var row: Condition -> bool := c => c in more;
      assert ands + more == more;
      assert !Denotes(ands, ors, row) && Denotes(ands + more, ors, row);
    } else {
      forall row: Condition -> bool | Denotes(ands + more, ors, row) ensures Denotes(ands, ors, row) {
        assert forall c :: c in ands || c in more ==> c in ands + more;
      }
    }
  }

  /** For a user whose rules already yield a condition, one more OR-rule never hides a row; for one whose rules already
      yield an AND-condition, one more AND-rule never reveals one. */
  lemma OneMoreRule(s: Settings, rules: set<Rule>, r: Rule, row: Condition -> bool)
    ensures var (ands, ors) := (ConditionsOf(s, rules, And), ConditionsOf(s, rules, Or));
      var (ands', ors') := (ConditionsOf(s, rules + {r}, And), ConditionsOf(s, rules + {r}, Or));
      && (r.operator == Or && ands + ors != {} && Denotes(ands, ors, row) ==> Denotes(ands', ors', row))
      && (r.operator == And && ands != {} && Denotes(ands', ors', row) ==> Denotes(ands, ors, row))
  {
    var (ands, ors) := (ConditionsOf(s, rules, And), ConditionsOf(s, rules, Or));
    var (ands', ors') := (ConditionsOf(s, rules + {r}, And), ConditionsOf(s, rules + {r}, Or));
    var more := Conditions(s, r);
    hide Conditions;
    assert ands' == ands + (if r.operator == And then more else {});
    assert ors' == ors + (if r.operator == Or then more else {});
    hide ConditionsOf;
    if r.operator == Or && more != {} {
      AddingOrHidesIff(ands, ors, more);
    } else if r.operator == And && more != {} {
      AddingAndRevealsIff(ands, ors, more);
    } else {
      assert ands' == ands && ors' == ors;
    }
  }
}
