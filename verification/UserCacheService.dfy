/** The user, role, menu, scope and rule services as they run: they change the tables in place,
    query the link tables as they then are, and delete cache keys. */
module UserCacheService {
  import opened Wrappers
  import opened TimedMaps
  import opened UserCacheModel
  import opened UserCacheCoherence
  import opened UserCacheTheorems
  import opened UserCacheCalls
  import opened UserCacheEffects

  class AdminService {
    const ttl: nat
    var users: Table<Account>
    var depts: Table<Dept>
    var roles: Table<Role>
    var menus: Table<Menu>
    var scopes: Table<int>
    var rules: Table<int>
    var userRole: Links
    var roleMenu: Links
    var roleScope: Links
    var scopeRule: Links
    var cache: map<int, Timed<View>>
    var now: int

    constructor (now: int, ttl: nat)
      ensures State() == Empty(now, ttl)
    {
      this.now, this.ttl := now, ttl;
      users, depts, roles, menus, scopes, rules, cache := map[], map[], map[], map[], map[], map[], map[];
      userRole, roleMenu, roleScope, scopeRule := {}, {}, {}, {};
    }

    function Tables(): Db
      reads this
    {
      Db(users, depts, roles, menus, scopes, rules, userRole, roleMenu, roleScope, scopeRule)
    }

    function State(): State
      reads this
    {
      UserCacheModel.State(Tables(), cache, now, ttl)
    }

    // -------------------------------------------------------------- invalidation

    method ClearKeys(userIds: set<int>)
      modifies this`cache
      ensures State() == Clear(old(State()), userIds)
    {
      if userIds != {} {
        cache := cache - userIds;
      } else {
        assert cache - {} == cache;
      }
    }

    method ClearByRoleId(roleIds: set<int>)
      modifies this`cache
      ensures State() == ClearByRoles(old(State()), roleIds)
    {
      var userIds := set p | p in userRole && p.1 in roleIds :: p.0;
      ClearKeys(userIds);
    }

    method ClearByMenuId(menuIds: set<int>)
      modifies this`cache
      ensures State() == ClearByMenus(old(State()), menuIds)
    {
      var userIds := set p, q | p in userRole && q in roleMenu && p.1 == q.0 && q.1 in menuIds :: p.0;
      UsersByMenu(Tables(), menuIds, userIds);
      ClearKeys(userIds);
    }

    method ClearByDataScopeId(scopeIds: set<int>)
      modifies this`cache
      ensures State() == ClearByScopes(old(State()), scopeIds)
    {
      var userIds := set p, q | p in userRole && q in roleScope && p.1 == q.0 && q.1 in scopeIds :: p.0;
      UsersByScope(Tables(), scopeIds, userIds);
      ClearKeys(userIds);
    }

    method ClearByDataRuleId(ruleIds: set<int>)
      modifies this`cache
      ensures State() == ClearByRules(old(State()), ruleIds)
    {
      var userIds := set p, q, x | p in userRole && q in roleScope && x in scopeRule && p.1 == q.0 && q.1 == x.0
          && x.1 in ruleIds :: p.0;
      UsersByRule(Tables(), ruleIds, userIds);
      ClearKeys(userIds);
    }

    // -------------------------------------------------------------- users

    method GetJwtUser(u: int) returns (access: Access)
      modifies this`cache
      ensures (State(), access) == UserCacheModel.GetJwtUser(old(State()), u)
      ensures Inv(old(State())) ==> Inv(State()) && UpToDepartment(Tables(), u, access)
    {
      hide Inv, UpToDepartment, Available;
      if Inv(State()) { GetJwtUserCall(State(), u); }
      if u in cache && now < cache[u].expires {
        return Served(cache[u].value);
      }
      access := Available(Tables(), u);
      if access.Served? {
        cache := cache[u := Timed(access.view, now + ttl)];
      }
    }

    method CreateUser(u: int, account: Account, roleIds: set<int>)
      modifies this`users, this`userRole
      ensures State() == UserCacheModel.CreateUser(old(State()), u, account, roleIds)
      ensures Inv(old(State())) ==> Inv(State())
      ensures UserCreated(old(State()), State(), u, account, roleIds)
    {
      CreateUserEffect(State(), u, account, roleIds);
      hide Inv, Relink, UserCreated;
      if Inv(State()) { CreateUserCall(State(), u, account, roleIds); }
      if u in users || Missing(depts, account.dept) || !AllPresent(roles, roleIds) { return; }
      users := users[u := Row(account, false)];
      userRole := Relink(userRole, u, roleIds);
    }

    method UpdateUser(u: int, profile: int, home: Option<int>, roleIds: set<int>)
      modifies this`users, this`userRole, this`cache
      ensures State() == UserCacheModel.UpdateUser(old(State()), u, profile, home, roleIds)
      ensures Inv(old(State())) ==> Inv(State()) && (State() == old(State()) || Afresh(State(), u))
      ensures UserUpdated(old(State()), State(), u, profile, home, roleIds)
    {
      UpdateUserEffect(State(), u, profile, home, roleIds);
      hide Inv, Relink, Afresh, UserUpdated;
      if Inv(State()) { UpdateUserCall(State(), u, profile, home, roleIds); }
      if !Present(users, u) { return; }
      if Unmovable(Tables(), users[u].value, home) { return; }
      if !AllPresent(roles, roleIds) { return; }
      users := users[u := Row(users[u].value.(profile := profile, dept := home), false)];
      userRole := Relink(userRole, u, roleIds);
      ClearKeys({u});
    }

    method UpdatePermission(requester: int, u: int, flag: Flag, seen: bool)
      modifies this`users, this`cache
      ensures State() == UserCacheModel.UpdatePermission(old(State()), requester, u, flag, seen)
      ensures Inv(old(State())) ==> Inv(State()) && (State() == old(State()) || Afresh(State(), u))
      ensures FlagReversed(old(State()), State(), requester, u, flag, seen)
    {
      UpdatePermissionEffect(State(), requester, u, flag, seen);
      hide Inv, Toggled, Afresh, FlagReversed;
      if Inv(State()) { UpdatePermissionCall(State(), requester, u, flag, seen); }
      if !Present(users, u) { return; }
      if u == requester && flag != MultiLogin { return; }
      users := users[u := Row(Toggled(users[u].value, flag, u == requester, seen), false)];
      ClearKeys({u});
    }

    method DeleteUser(u: int)
      modifies this`users, this`userRole, this`cache
      ensures State() == UserCacheModel.DeleteUser(old(State()), u)
      ensures Inv(old(State())) ==> Inv(State()) && Answer(State(), u) == InvalidToken
    {
      hide Inv, Relink, Answer, Retire;
      if Inv(State()) { DeleteUserCall(State(), u); }
      if !Present(users, u) { return; }
      userRole := Relink(userRole, u, {});
      users := Retire(users, {u});
      ClearKeys({u});
    }

    // -------------------------------------------------------------- roles

    method UpdateRole(r: int, role: Role)
      modifies this`roles, this`cache
      ensures State() == UserCacheModel.UpdateRole(old(State()), r, role)
      ensures Inv(old(State())) ==> Inv(State()) && (old(Present(roles, r)) ==> RoleIs(State(), r, role))
    {
      hide Inv, RoleIs, UsersOfRoles;
      if Inv(State()) { UpdateRoleCall(State(), r, role); }
      if !Present(roles, r) { return; }
      roles := roles[r := Row(role, false)];
      ClearByRoleId({r});
    }

    method UpdateRoleMenus(r: int, menuIds: set<int>)
      modifies this`roleMenu, this`cache
      ensures State() == UserCacheModel.UpdateRoleMenus(old(State()), r, menuIds)
      ensures Inv(old(State())) ==>
        && Inv(State())
        && (old(Present(roles, r) && AllPresent(menus, menuIds)) ==> MenusAre(State(), r, menuIds))
    {
      hide Inv, MenusAre, Relink, UsersOfRoles;
      if Inv(State()) { UpdateRoleMenusCall(State(), r, menuIds); }
      if !Present(roles, r) || !AllPresent(menus, menuIds) { return; }
      roleMenu := Relink(roleMenu, r, menuIds);
      ClearByRoleId({r});
    }

    method UpdateRoleScopes(r: int, scopeIds: set<int>)
      modifies this`roleScope, this`cache
      ensures State() == UserCacheModel.UpdateRoleScopes(old(State()), r, scopeIds)
      ensures Inv(old(State())) ==>
        && Inv(State())
        && (old(Present(roles, r) && AllPresent(scopes, scopeIds)) ==> ScopesAre(State(), r, scopeIds))
    {
      hide Inv, ScopesAre, Relink, UsersOfRoles;
      if Inv(State()) { UpdateRoleScopesCall(State(), r, scopeIds); }
      if !Present(roles, r) || !AllPresent(scopes, scopeIds) { return; }
      roleScope := Relink(roleScope, r, scopeIds);
      ClearByRoleId({r});
    }

    method DeleteRoles(roleIds: set<int>)
      modifies this`roles, this`cache
      ensures State() == UserCacheModel.DeleteRoles(old(State()), roleIds)
      ensures Inv(old(State())) ==> Inv(State()) && NoRoles(State(), roleIds)
    {
      hide Inv, NoRoles, Retire, UsersOfRoles;
      if Inv(State()) { DeleteRolesCall(State(), roleIds); }
      roles := Retire(roles, roleIds);
      ClearByRoleId(roleIds);
    }

    // -------------------------------------------------------------- menus

    method UpdateMenu(m: int, menu: Menu)
      modifies this`menus, this`cache
      ensures State() == UserCacheModel.UpdateMenu(old(State()), m, menu)
      ensures Inv(old(State())) ==> Inv(State())
      ensures Inv(old(State())) && old(Present(menus, m) && !Missing(menus, menu.parent)) && menu.parent != Some(m) ==>
        MenuIs(State(), m, menu)
    {
      hide Inv, MenuIs, UsersOfRoles, RolesOfMenus;
      if Inv(State()) { UpdateMenuCall(State(), m, menu); }
      if !Present(menus, m) || Missing(menus, menu.parent) || menu.parent == Some(m) { return; }
      menus := menus[m := Row(menu, false)];
      ClearByMenuId({m});
    }

    method DeleteMenu(m: int)
      modifies this`menus, this`roleMenu, this`cache
      ensures State() == UserCacheModel.DeleteMenu(old(State()), m)
      ensures Inv(old(State())) ==>
        (Inv(State()) <==> old(HasChildMenus(Tables(), m) || !Present(menus, m) || !Shown(State(), m)))
    {
      hide Inv, Shown, Retire, Unlink, UsersOfRoles, RolesOfMenus;
      if Inv(State()) { DeleteMenuCall(State(), m); }
      if HasChildMenus(Tables(), m) { return; }
      roleMenu := Unlink(roleMenu, m);
      var found := Present(menus, m);
      if found {
        menus := Retire(menus, {m});
        ClearByMenuId({m});
      }
    }

    // -------------------------------------------------------------- scopes and rules

    method UpdateScope(s: int, data: int)
      modifies this`scopes, this`cache
      ensures State() == UserCacheModel.UpdateScope(old(State()), s, data)
      ensures Inv(old(State())) ==> Inv(State()) && (old(Present(scopes, s)) ==> ScopeIs(State(), s, data))
    {
      hide Inv, ScopeIs, UsersOfRoles, RolesOfScopes;
      if Inv(State()) { UpdateScopeCall(State(), s, data); }
      if !Present(scopes, s) { return; }
      scopes := scopes[s := Row(data, false)];
      ClearByDataScopeId({s});
    }

    method UpdateScopeRules(s: int, ruleIds: set<int>)
      modifies this`scopeRule, this`cache
      ensures State() == UserCacheModel.UpdateScopeRules(old(State()), s, ruleIds)
      ensures Inv(old(State())) ==>
        && Inv(State())
        && (old(Present(scopes, s) && AllPresent(rules, ruleIds)) ==> RulesAre(State(), s, ruleIds))
    {
      hide Inv, RulesAre, Relink, UsersOfRoles, RolesOfScopes;
      if Inv(State()) { UpdateScopeRulesCall(State(), s, ruleIds); }
      if !Present(scopes, s) || !AllPresent(rules, ruleIds) { return; }
      scopeRule := Relink(scopeRule, s, ruleIds);
      ClearByDataScopeId({s});
    }

    method DeleteScopes(scopeIds: set<int>)
      modifies this`scopes, this`cache
      ensures State() == UserCacheModel.DeleteScopes(old(State()), scopeIds)
      ensures Inv(old(State())) ==> Inv(State()) && NoScopes(State(), scopeIds)
    {
      hide Inv, NoScopes, Retire, UsersOfRoles, RolesOfScopes;
      if Inv(State()) { DeleteScopesCall(State(), scopeIds); }
      scopes := Retire(scopes, scopeIds);
      ClearByDataScopeId(scopeIds);
    }

    method UpdateRule(q: int, data: int)
      modifies this`rules, this`cache
      ensures State() == UserCacheModel.UpdateRule(old(State()), q, data)
      ensures Inv(old(State())) ==> Inv(State()) && (old(Present(rules, q)) ==> RuleIs(State(), q, data))
    {
      hide Inv, RuleIs, UsersOfRoles, RolesOfScopes, ScopesOfRules;
      if Inv(State()) { UpdateRuleCall(State(), q, data); }
      if !Present(rules, q) { return; }
      rules := rules[q := Row(data, false)];
      ClearByDataRuleId({q});
    }

    method DeleteRules(ruleIds: set<int>)
      modifies this`rules, this`cache
      ensures State() == UserCacheModel.DeleteRules(old(State()), ruleIds)
      ensures Inv(old(State())) ==> Inv(State()) && NoRules(State(), ruleIds)
    {
      hide Inv, NoRules, Retire, UsersOfRoles, RolesOfScopes, ScopesOfRules;
      if Inv(State()) { DeleteRulesCall(State(), ruleIds); }
      rules := Retire(rules, ruleIds);
      ClearByDataRuleId(ruleIds);
    }
  }

  // ---------------------------------------------------------------- the reverse joins

  /** The two-table join finds the users of the roles of the menus. */
  lemma UsersByMenu(db: Db, ms: set<int>, us: set<int>)
    requires us == set p, q | p in db.userRole && q in db.roleMenu && p.1 == q.0 && q.1 in ms :: p.0
    ensures us == UsersOfRoles(db, RolesOfMenus(db, ms))
  {
    forall p | p in db.userRole && p.1 in RolesOfMenus(db, ms) ensures p.0 in us {
      var q :| q in db.roleMenu && q.1 in ms && q.0 == p.1;
    }
  }

  lemma UsersByScope(db: Db, ss: set<int>, us: set<int>)
    requires us == set p, q | p in db.userRole && q in db.roleScope && p.1 == q.0 && q.1 in ss :: p.0
    ensures us == UsersOfRoles(db, RolesOfScopes(db, ss))
  {
    forall p | p in db.userRole && p.1 in RolesOfScopes(db, ss) ensures p.0 in us {
      var q :| q in db.roleScope && q.1 in ss && q.0 == p.1;
    }
  }

  /** The three-table join finds the users of the roles of the scopes of the rules. */
  lemma UsersByRule(db: Db, qs: set<int>, us: set<int>)
    requires us == set p, q, x | p in db.userRole && q in db.roleScope && x in db.scopeRule && p.1 == q.0
      && q.1 == x.0 && x.1 in qs :: p.0
    ensures us == UsersOfRoles(db, RolesOfScopes(db, ScopesOfRules(db, qs)))
  {
    forall p | p in db.userRole && p.1 in RolesOfScopes(db, ScopesOfRules(db, qs)) ensures p.0 in us {
      var q :| q in db.roleScope && q.1 in ScopesOfRules(db, qs) && q.0 == p.1;
      var x :| x in db.scopeRule && x.1 in qs && x.0 == q.1;
    }
  }
}
