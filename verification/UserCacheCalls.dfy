/** What each administration call means for the answers given after it. */
module UserCacheCalls {
  import opened Wrappers
  import opened TimedMaps
  import opened UserCacheModel
  import opened UserCacheCoherence
  import opened UserCacheTheorems

  // ---------------------------------------------------------------- answers and tables

  /** What authentication would hand on now. */
  function Answer(st: State, u: int): Access {
    GetJwtUser(st, u).1
  }

  /** The answer for `u` includes the role. */
  predicate Grants(st: State, u: int, r: int) {
    Answer(st, u).Served? && r in Answer(st, u).view.roles
  }

  function Granted(st: State, u: int, r: int): RoleView
    requires Grants(st, u, r)
  {
    Answer(st, u).view.roles[r]
  }

  lemma AnswerAgrees(st: State, u: int)
    requires Inv(st)
    ensures Answer(st, u).Served? ==> Agrees(st.db, u, Answer(st, u).view)
  {
    hide RolesOf, Integral, AllRolesLocked, DeptOf;
  }

  /** Cached or not, an answer shows a role as the tables hold it. */
  lemma GrantedFromTables(st: State, u: int, r: int)
    requires Inv(st) && Grants(st, u, r)
    ensures Present(st.db.roles, r) && (u, r) in st.db.userRole
    ensures Granted(st, u, r) == RoleView(st.db.roles[r].value, MenusOf(st.db, r), ScopesOf(st.db, r))
  {
    hide Inv, MenusOf, ScopesOf, GetJwtUser;
    AnswerAgrees(st, u);
  }

  // ---------------------------------------------------------------- users

  /** The answer is that of a fresh lookup up to the department, or the lookup fails for the department alone. */
  predicate UpToDepartment(db: Db, u: int, access: Access) {
    var lookup := Available(db, u);
    || access == lookup
    || (access.Served? && lookup.Served? && access.view.(dept := None) == lookup.view.(dept := None))
    || (access.Served? && (lookup == DeptMissing || lookup == DeptLocked))
  }

  lemma GetJwtUserCall(st: State, u: int)
    requires Inv(st)
    ensures var (st', access) := GetJwtUser(st, u); Inv(st') && UpToDepartment(st.db, u, access)
  {
    GetJwtUserKeeps(st, u);
    hide RolesOf, Integral, AllRolesLocked;
    if Live(st.cache, u, st.now) { assert Agrees(st.db, u, st.cache[u].value); }
  }

  /** The next answer is a fresh lookup. */
  predicate Afresh(st: State, u: int) {
    u !in st.cache && Answer(st, u) == Available(st.db, u)
  }

  lemma ClearedIsAfresh(st: State, us: set<int>, u: int)
    requires u in us
    ensures Afresh(Clear(st, us), u)
  {
    hide Available;
  }

  lemma CreateUserCall(st: State, u: int, account: Account, rs: set<int>)
    requires Inv(st)
    ensures Inv(CreateUser(st, u, account, rs))
  {
    hide Founded, Follows, Inv, CreateUser;
    InvIsFounded(st);
    CreateUserKeeps(st, u, account, rs);
    FollowsKeepsInv(st, CreateUser(st, u, account, rs));
  }

  lemma UpdateUserCall(st: State, u: int, profile: int, home: Option<int>, rs: set<int>)
    requires Inv(st)
    ensures var st' := UpdateUser(st, u, profile, home, rs); Inv(st') && (st' == st || Afresh(st', u))
  {
    InvIsFounded(st);
    UpdateUserKeeps(st, u, profile, home, rs);
    FollowsKeepsInv(st, UpdateUser(st, u, profile, home, rs));
    var st' := UpdateUser(st, u, profile, home, rs);
    hide Inv, Relink, Amend, Afresh;
    if st' != st { ClearedIsAfresh(st.(db := st'.db), {u}, u); }
  }

  lemma UpdatePermissionCall(st: State, requester: int, u: int, flag: Flag, seen: bool)
    requires Inv(st)
    ensures var st' := UpdatePermission(st, requester, u, flag, seen); Inv(st') && (st' == st || Afresh(st', u))
    ensures u == requester && !flag.MultiLogin? ==> UpdatePermission(st, requester, u, flag, seen) == st
  {
    InvIsFounded(st);
    UpdatePermissionKeeps(st, requester, u, flag, seen);
    FollowsKeepsInv(st, UpdatePermission(st, requester, u, flag, seen));
    var st' := UpdatePermission(st, requester, u, flag, seen);
    hide Inv, Toggled, Amend, Afresh;
    if st' != st { ClearedIsAfresh(st.(db := st'.db), {u}, u); }
  }

  lemma DeleteUserCall(st: State, u: int)
    requires Inv(st)
    ensures Inv(DeleteUser(st, u)) && Answer(DeleteUser(st, u), u) == InvalidToken
  {
    InvIsFounded(st);
    DeleteUserKeeps(st, u);
    FollowsKeepsInv(st, DeleteUser(st, u));
    var st' := DeleteUser(st, u);
    assert !Present(st'.db.users, u);
  }

  // ---------------------------------------------------------------- roles

  ghost predicate RoleIs(st: State, r: int, role: Role) {
    forall u :: Grants(st, u, r) ==> Granted(st, u, r).role == role
  }

  lemma UpdateRoleCall(st: State, r: int, role: Role)
    requires Inv(st)
    ensures var st' := UpdateRole(st, r, role); Inv(st') && (Present(st.db.roles, r) ==> RoleIs(st', r, role))
  {
    InvIsFounded(st);
    UpdateRoleKeeps(st, r, role);
    FollowsKeepsInv(st, UpdateRole(st, r, role));
    var st' := UpdateRole(st, r, role);
    assert Present(st.db.roles, r) ==> st'.db.roles[r].value == role;
    hide Inv, UpdateRole, MenusOf, ScopesOf;
    forall u | Grants(st', u, r) ensures Present(st.db.roles, r) ==> Granted(st', u, r).role == role {
      GrantedFromTables(st', u, r);
    }
  }

  ghost predicate MenusAre(st: State, r: int, ms: set<int>) {
    forall u :: Grants(st, u, r) ==> Granted(st, u, r).menus.Keys == ms
  }

  lemma RelinkedMenus(db: Db, r: int, ms: set<int>)
    requires AllPresent(db.menus, ms)
    ensures MenusOf(db.(roleMenu := Relink(db.roleMenu, r, ms)), r).Keys == ms
  {
    var db' := db.(roleMenu := Relink(db.roleMenu, r, ms));
    forall m ensures m in MenusOf(db', r) <==> m in ms {
      assert m in ms ==> Present(db.menus, m);
    }
  }

  lemma UpdateRoleMenusCall(st: State, r: int, ms: set<int>)
    requires Inv(st)
    ensures var st' := UpdateRoleMenus(st, r, ms);
      Inv(st') && (Present(st.db.roles, r) && AllPresent(st.db.menus, ms) ==> MenusAre(st', r, ms))
  {
    InvIsFounded(st);
    UpdateRoleMenusKeeps(st, r, ms);
    FollowsKeepsInv(st, UpdateRoleMenus(st, r, ms));
    var st' := UpdateRoleMenus(st, r, ms);
    hide Inv, MenusOf, ScopesOf, Relink;
    if Present(st.db.roles, r) && AllPresent(st.db.menus, ms) {
      RelinkedMenus(st.db, r, ms);
      forall u | Grants(st', u, r) ensures Granted(st', u, r).menus.Keys == ms { GrantedFromTables(st', u, r); }
    }
  }

  ghost predicate ScopesAre(st: State, r: int, ss: set<int>) {
    forall u :: Grants(st, u, r) ==> Granted(st, u, r).scopes.Keys == ss
  }

  lemma RelinkedScopes(db: Db, r: int, ss: set<int>)
    requires AllPresent(db.scopes, ss)
    ensures ScopesOf(db.(roleScope := Relink(db.roleScope, r, ss)), r).Keys == ss
  {
    hide RulesOf;
    var db' := db.(roleScope := Relink(db.roleScope, r, ss));
    forall s ensures s in ScopesOf(db', r) <==> s in ss {
      assert s in ss ==> Present(db.scopes, s);
    }
  }

  lemma UpdateRoleScopesCall(st: State, r: int, ss: set<int>)
    requires Inv(st)
    ensures var st' := UpdateRoleScopes(st, r, ss);
      Inv(st') && (Present(st.db.roles, r) && AllPresent(st.db.scopes, ss) ==> ScopesAre(st', r, ss))
  {
    InvIsFounded(st);
    UpdateRoleScopesKeeps(st, r, ss);
    FollowsKeepsInv(st, UpdateRoleScopes(st, r, ss));
    var st' := UpdateRoleScopes(st, r, ss);
    hide Inv, MenusOf, ScopesOf, Relink;
    if Present(st.db.roles, r) && AllPresent(st.db.scopes, ss) {
      RelinkedScopes(st.db, r, ss);
      forall u | Grants(st', u, r) ensures Granted(st', u, r).scopes.Keys == ss { GrantedFromTables(st', u, r); }
    }
  }

  ghost predicate NoRoles(st: State, rs: set<int>) {
    forall u, r :: r in rs ==> !Grants(st, u, r)
  }

  /** A deleted role is in no answer, whoever held it. */
  lemma DeleteRolesCall(st: State, rs: set<int>)
    requires Inv(st)
    ensures Inv(DeleteRoles(st, rs)) && NoRoles(DeleteRoles(st, rs), rs)
  {
    InvIsFounded(st);
    DeleteRolesKeeps(st, rs);
    FollowsKeepsInv(st, DeleteRoles(st, rs));
    var st' := DeleteRoles(st, rs);
    forall r | r in rs ensures !Present(st'.db.roles, r) {}
    hide Inv, DeleteRoles, Present;
    forall u, r | r in rs ensures !Grants(st', u, r) {
      if Grants(st', u, r) { GrantedFromTables(st', u, r); }
    }
  }

  // ---------------------------------------------------------------- menus

  ghost predicate MenuIs(st: State, m: int, menu: Menu) {
    forall u, r :: Grants(st, u, r) && m in Granted(st, u, r).menus ==> Granted(st, u, r).menus[m] == menu
  }

  lemma UpdateMenuCall(st: State, m: int, menu: Menu)
    requires Inv(st)
    ensures var st' := UpdateMenu(st, m, menu);
      Inv(st') && (Present(st.db.menus, m) && !Missing(st.db.menus, menu.parent) && menu.parent != Some(m) ==>
          MenuIs(st', m, menu))
  {
    InvIsFounded(st);
    UpdateMenuKeeps(st, m, menu);
    FollowsKeepsInv(st, UpdateMenu(st, m, menu));
    var st' := UpdateMenu(st, m, menu);
    if Present(st.db.menus, m) && !Missing(st.db.menus, menu.parent) && menu.parent != Some(m) {
      assert st'.db.menus[m].value == menu;
      forall r | m in MenusOf(st'.db, r) ensures MenusOf(st'.db, r)[m] == menu {}
      hide Inv, UpdateMenu, MenusOf, ScopesOf;
      forall u, r | Grants(st', u, r) && m in Granted(st', u, r).menus ensures Granted(st', u, r).menus[m] == menu {
        GrantedFromTables(st', u, r);
      }
    }
  }

  /** The deletion of a menu keeps the promise exactly when it is refused, finds no menu, or no entry shows it. */
  lemma DeleteMenuCall(st: State, m: int)
    requires Inv(st)
    ensures Inv(DeleteMenu(st, m)) <==> HasChildMenus(st.db, m) || !Present(st.db.menus, m) || !Shown(st, m)
  {
    DeleteMenuCoherentIff(st, m);
    hide Coherent;
  }

  // ---------------------------------------------------------------- scopes and rules

  ghost predicate ScopeIs(st: State, s: int, data: int) {
    forall u, r :: Grants(st, u, r) && s in Granted(st, u, r).scopes ==> Granted(st, u, r).scopes[s].data == data
  }

  lemma UpdateScopeCall(st: State, s: int, data: int)
    requires Inv(st)
    ensures var st' := UpdateScope(st, s, data); Inv(st') && (Present(st.db.scopes, s) ==> ScopeIs(st', s, data))
  {
    InvIsFounded(st);
    UpdateScopeKeeps(st, s, data);
    FollowsKeepsInv(st, UpdateScope(st, s, data));
    var st' := UpdateScope(st, s, data);
    if Present(st.db.scopes, s) {
      hide RulesOf;
      forall r | s in ScopesOf(st'.db, r) ensures ScopesOf(st'.db, r)[s].data == data {}
      hide Inv, UpdateScope, MenusOf, ScopesOf;
      forall u, r | Grants(st', u, r) && s in Granted(st', u, r).scopes
          ensures Granted(st', u, r).scopes[s].data == data {
        GrantedFromTables(st', u, r);
      }
    }
  }

  ghost predicate RulesAre(st: State, s: int, qs: set<int>) {
    forall u, r :: Grants(st, u, r) && s in Granted(st, u, r).scopes ==> Granted(st, u, r).scopes[s].rules.Keys == qs
  }

  lemma RelinkedRules(st: State, s: int, qs: set<int>)
    requires Present(st.db.scopes, s) && AllPresent(st.db.rules, qs)
    ensures RulesOf(UpdateScopeRules(st, s, qs).db, s).Keys == qs
  {
    var db' := UpdateScopeRules(st, s, qs).db;
    forall q ensures q in RulesOf(db', s) <==> q in qs {
      assert q in qs ==> Present(st.db.rules, q);
    }
  }

  /** After a change of a scope's rules, every answer that shows the scope shows exactly the new rules. */
  lemma UpdateScopeRulesCall(st: State, s: int, qs: set<int>)
    requires Inv(st)
    ensures var st' := UpdateScopeRules(st, s, qs);
      Inv(st') && (Present(st.db.scopes, s) && AllPresent(st.db.rules, qs) ==> RulesAre(st', s, qs))
  {
    InvIsFounded(st);
    UpdateScopeRulesKeeps(st, s, qs);
    FollowsKeepsInv(st, UpdateScopeRules(st, s, qs));
    var st' := UpdateScopeRules(st, s, qs);
    if Present(st.db.scopes, s) && AllPresent(st.db.rules, qs) {
      RelinkedRules(st, s, qs);
      hide RulesOf, UpdateScopeRules;
      forall r | s in ScopesOf(st'.db, r) ensures ScopesOf(st'.db, r)[s].rules.Keys == qs {}
      hide Inv, MenusOf, ScopesOf;
      forall u, r | Grants(st', u, r) && s in Granted(st', u, r).scopes
          ensures Granted(st', u, r).scopes[s].rules.Keys == qs {
        GrantedFromTables(st', u, r);
      }
    }
  }

  ghost predicate NoScopes(st: State, ss: set<int>) {
    forall u, r, s :: s in ss && Grants(st, u, r) ==> s !in Granted(st, u, r).scopes
  }

  lemma DeleteScopesCall(st: State, ss: set<int>)
    requires Inv(st)
    ensures Inv(DeleteScopes(st, ss)) && NoScopes(DeleteScopes(st, ss), ss)
  {
    InvIsFounded(st);
    DeleteScopesKeeps(st, ss);
    FollowsKeepsInv(st, DeleteScopes(st, ss));
    var st' := DeleteScopes(st, ss);
    hide RulesOf;
    forall r, s | s in ss ensures s !in ScopesOf(st'.db, r) {}
    hide Inv, DeleteScopes, MenusOf, ScopesOf;
    forall u, r, s | s in ss && Grants(st', u, r)
        ensures s !in Granted(st', u, r).scopes { GrantedFromTables(st', u, r); }
  }

  ghost predicate RuleIs(st: State, q: int, data: int) {
    forall u, r, s :: Grants(st, u, r) && s in Granted(st, u, r).scopes && q in Granted(st, u, r).scopes[s].rules ==>
      Granted(st, u, r).scopes[s].rules[q] == data
  }

  lemma ShownRules(st: State, u: int, r: int, s: int)
    requires Inv(st) && Grants(st, u, r) && s in Granted(st, u, r).scopes
    ensures Granted(st, u, r).scopes[s].rules == RulesOf(st.db, s)
  {
    hide Inv, RulesOf, MenusOf, Grants, Granted;
    GrantedFromTables(st, u, r);
  }

  lemma UpdateRuleCall(st: State, q: int, data: int)
    requires Inv(st)
    ensures var st' := UpdateRule(st, q, data); Inv(st') && (Present(st.db.rules, q) ==> RuleIs(st', q, data))
  {
    InvIsFounded(st);
    UpdateRuleKeeps(st, q, data);
    FollowsKeepsInv(st, UpdateRule(st, q, data));
    var st' := UpdateRule(st, q, data);
    if Present(st.db.rules, q) {
      forall s | q in RulesOf(st'.db, s) ensures RulesOf(st'.db, s)[q] == data {}
      hide Inv, UpdateRule, RulesOf, Grants, Granted;
      forall u, r, s | Grants(st', u, r) && s in Granted(st', u, r).scopes && q in Granted(st', u, r).scopes[s].rules
        ensures Granted(st', u, r).scopes[s].rules[q] == data
      {
        ShownRules(st', u, r, s);
      }
    }
  }

  ghost predicate NoRules(st: State, qs: set<int>) {
    forall u, r, s, q :: q in qs && Grants(st, u, r) && s in Granted(st, u, r).scopes ==>
        q !in Granted(st, u, r).scopes[s].rules
  }

  lemma DeleteRulesCall(st: State, qs: set<int>)
    requires Inv(st)
    ensures Inv(DeleteRules(st, qs)) && NoRules(DeleteRules(st, qs), qs)
  {
    InvIsFounded(st);
    DeleteRulesKeeps(st, qs);
    FollowsKeepsInv(st, DeleteRules(st, qs));
    var st' := DeleteRules(st, qs);
    forall s, q | q in qs ensures q !in RulesOf(st'.db, s) {}
    hide Inv, DeleteRules, RulesOf, Grants, Granted;
    forall u, r, s, q | q in qs && Grants(st', u, r) && s in Granted(st', u, r).scopes
      ensures q !in Granted(st', u, r).scopes[s].rules
    {
      ShownRules(st', u, r, s);
    }
  }
}
