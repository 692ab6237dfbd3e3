/** Cached entries agree with the join recomputed from the tables, over every run. */
module UserCacheCoherence {
  import opened Wrappers
  import opened UserCacheModel

  // ---------------------------------------------------------------- the invariant

  /** Links only name rows that exist, deleted or not. */
  ghost predicate Integral(db: Db) {
    && (forall p :: p in db.userRole ==> p.0 in db.users && p.1 in db.roles)
    && (forall p :: p in db.roleMenu ==> p.0 in db.roles && p.1 in db.menus)
    && (forall p :: p in db.roleScope ==> p.0 in db.roles && p.1 in db.scopes)
    && (forall p :: p in db.scopeRule ==> p.0 in db.scopes && p.1 in db.rules)
  }

  /** The account and the roles, menus, scopes and rules of the entry are those of the tables,
      and the entry would not be refused for its user or its roles. */
  ghost predicate Agrees(db: Db, u: int, view: View) {
    && Present(db.users, u)
    && view.account == db.users[u].value
    && view.roles == RolesOf(db, u)
    && view.account.enabled
    && !AllRolesLocked(view.roles)
  }

  ghost predicate Coherent(st: State) {
    forall u :: u in st.cache ==> Agrees(st.db, u, st.cache[u].value)
  }

  ghost predicate Inv(st: State) {
    Integral(st.db) && Coherent(st)
  }

  // ---------------------------------------------------------------- whose join can change

  ghost predicate SameRow<T>(t: Table<T>, t': Table<T>, id: int) {
    (id in t <==> id in t') && (id in t ==> t[id] == t'[id])
  }

  /** Nothing that the join of `u` reads has changed. */
  ghost predicate SameJoin(db: Db, db': Db, u: int) {
    SameRow(db.users, db'.users, u) && RolesOf(db', u) == RolesOf(db, u)
  }

  /** Every entry that survives is of a user whose join has not changed. */
  ghost predicate Survives(st: State, st': State) {
    forall u :: u in st'.cache ==> u in st.cache && st'.cache[u] == st.cache[u] && SameJoin(st.db, st'.db, u)
  }

  lemma SurvivesItself(st: State)
    ensures Survives(st, st)
  {
    hide RolesOf;
  }

  lemma SurvivorsAgree(st: State, st': State)
    requires Coherent(st) && Survives(st, st')
    ensures Coherent(st')
  {
    hide RolesOf;
  }

  /** What an operation may rely on when entries are not coherent: links name rows, entries name users. */
  ghost predicate Founded(st: State) {
    Integral(st.db) && forall u :: u in st.cache ==> Present(st.db.users, u)
  }

  /** The operation keeps links sound, and clears every entry whose join it changes. */
  ghost predicate Follows(st: State, st': State) {
    Integral(st'.db) && Survives(st, st')
  }

  lemma InvIsFounded(st: State)
    requires Inv(st)
    ensures Founded(st)
  {
    hide RolesOf, Integral;
    forall u | u in st.cache ensures Present(st.db.users, u) { assert Agrees(st.db, u, st.cache[u].value); }
  }

  lemma FollowsKeepsInv(st: State, st': State)
    requires Inv(st) && Follows(st, st')
    ensures Inv(st')
  {
    hide Integral, Agrees, SameJoin;
    SurvivorsAgree(st, st');
  }

  /** The tables differ only in the accounts and role links of the users `us`. */
  ghost predicate UsersDiffer(db: Db, db': Db, us: set<int>) {
    && db' == db.(users := db'.users, userRole := db'.userRole)
    && forall u :: u !in us ==> SameRow(db.users, db'.users, u) && forall r :: (u, r) in db'.userRole <==>
         (u, r) in db.userRole
  }

  lemma UsersFrame(db: Db, db': Db, us: set<int>, u: int)
    requires UsersDiffer(db, db', us) && u !in us
    ensures SameJoin(db, db', u)
  {
    RoleViewsSame(db, db');
    assert SameRow(db.users, db'.users, u);
    assert forall r :: (u, r) in db'.userRole <==> (u, r) in db.userRole;
    hide UsersDiffer, MenusOf, ScopesOf;
    assert RolesOf(db', u) == RolesOf(db, u);
  }

  lemma RoleViewsSame(db: Db, db': Db)
    requires db' == db.(users := db'.users, userRole := db'.userRole)
    ensures forall r :: MenusOf(db', r) == MenusOf(db, r) && ScopesOf(db', r) == ScopesOf(db, r)
  {
    forall s ensures RulesOf(db', s) == RulesOf(db, s) {}
    hide RulesOf;
    forall r ensures MenusOf(db', r) == MenusOf(db, r) && ScopesOf(db', r) == ScopesOf(db, r) {}
  }

  /** The tables differ only in the rows, menu links and scope links of the roles `rs`. */
  ghost predicate RolesDiffer(db: Db, db': Db, rs: set<int>) {
    && db' == db.(roles := db'.roles, roleMenu := db'.roleMenu, roleScope := db'.roleScope)
    && forall r :: r !in rs ==>
         && SameRow(db.roles, db'.roles, r)
         && (forall m :: (r, m) in db'.roleMenu <==> (r, m) in db.roleMenu)
         && (forall s :: (r, s) in db'.roleScope <==> (r, s) in db.roleScope)
  }

  lemma RolesFrame(db: Db, db': Db, rs: set<int>, u: int)
    requires RolesDiffer(db, db', rs) && u !in UsersOfRoles(db, rs)
    ensures SameJoin(db, db', u)
  {
    forall r | (u, r) in db.userRole
      ensures SameRow(db.roles, db'.roles, r) && MenusOf(db', r) == MenusOf(db, r)
        && ScopesOf(db', r) == ScopesOf(db, r)
    {
      NotAffected(db, rs, u, r);
      RoleFrame(db, db', rs, r);
    }
    hide RolesDiffer, MenusOf, ScopesOf;
    assert RolesOf(db', u) == RolesOf(db, u);
  }

  lemma NotAffected(db: Db, rs: set<int>, u: int, r: int)
    requires u !in UsersOfRoles(db, rs) && (u, r) in db.userRole
    ensures r !in rs
  {
    assert (u, r).1 in rs ==> (u, r).0 in UsersOfRoles(db, rs);
  }

  lemma SameMenus(db: Db, db': Db, r: int)
    requires forall m :: (r, m) in db'.roleMenu <==> (r, m) in db.roleMenu
    requires forall m :: (r, m) in db.roleMenu ==> SameRow(db.menus, db'.menus, m)
    ensures MenusOf(db', r) == MenusOf(db, r)
  {
    forall m ensures m in MenusOf(db', r) <==> m in MenusOf(db, r) {
      assert (r, m) in db.roleMenu ==> SameRow(db.menus, db'.menus, m);
    }
    forall m | m in MenusOf(db, r) ensures MenusOf(db', r)[m] == MenusOf(db, r)[m] {
      assert (r, m) in db.roleMenu ==> SameRow(db.menus, db'.menus, m);
    }
  }

  lemma RoleFrame(db: Db, db': Db, rs: set<int>, r: int)
    requires RolesDiffer(db, db', rs) && r !in rs
    ensures SameRow(db.roles, db'.roles, r) && MenusOf(db', r) == MenusOf(db, r) && ScopesOf(db', r) == ScopesOf(db, r)
  {
    forall s ensures RulesOf(db', s) == RulesOf(db, s) {}
    hide RulesOf;
    assert SameRow(db.roles, db'.roles, r);
    SameMenus(db, db', r);
    assert ScopesOf(db', r) == ScopesOf(db, r);
  }

  ghost predicate MenusDiffer(db: Db, db': Db, ms: set<int>) {
    db' == db.(menus := db'.menus) && forall m :: m !in ms ==> SameRow(db.menus, db'.menus, m)
  }

  lemma MenusFrame(db: Db, db': Db, ms: set<int>, u: int)
    requires MenusDiffer(db, db', ms) && u !in UsersOfRoles(db, RolesOfMenus(db, ms))
    ensures SameJoin(db, db', u)
  {
    forall s ensures RulesOf(db', s) == RulesOf(db, s) {}
    hide RulesOf;
    forall r | (u, r) in db.userRole ensures MenusOf(db', r) == MenusOf(db, r) && ScopesOf(db', r) == ScopesOf(db, r) {
      NotAffected(db, RolesOfMenus(db, ms), u, r);
      forall m | (r, m) in db.roleMenu ensures SameRow(db.menus, db'.menus, m) {
        assert (r, m).1 in ms ==> (r, m).0 in RolesOfMenus(db, ms);
      }
      SameMenus(db, db', r);
      assert ScopesOf(db', r) == ScopesOf(db, r);
    }
    hide MenusOf, ScopesOf, MenusDiffer;
    assert SameRow(db.users, db'.users, u);
    assert RolesOf(db', u) == RolesOf(db, u);
  }

  ghost predicate ScopesDiffer(db: Db, db': Db, ss: set<int>) {
    && db' == db.(scopes := db'.scopes, scopeRule := db'.scopeRule)
    && forall s :: s !in ss ==> SameRow(db.scopes, db'.scopes, s) && forall q :: (s, q) in db'.scopeRule <==>
         (s, q) in db.scopeRule
  }

  lemma ScopesFrame(db: Db, db': Db, ss: set<int>, u: int)
    requires ScopesDiffer(db, db', ss) && u !in UsersOfRoles(db, RolesOfScopes(db, ss))
    ensures SameJoin(db, db', u)
  {
    forall r | (u, r) in db.userRole ensures MenusOf(db', r) == MenusOf(db, r) && ScopesOf(db', r) == ScopesOf(db, r) {
      NotAffected(db, RolesOfScopes(db, ss), u, r);
      ScopesOfRoleFrame(db, db', ss, r);
    }
    hide MenusOf, ScopesOf, ScopesDiffer;
    assert SameRow(db.users, db'.users, u);
    assert RolesOf(db', u) == RolesOf(db, u);
  }

  lemma ScopesOfRoleFrame(db: Db, db': Db, ss: set<int>, r: int)
    requires ScopesDiffer(db, db', ss) && r !in RolesOfScopes(db, ss)
    ensures MenusOf(db', r) == MenusOf(db, r) && ScopesOf(db', r) == ScopesOf(db, r)
  {
    forall s | (r, s) in db.roleScope ensures s !in ss && RulesOf(db', s) == RulesOf(db, s) {
      assert (r, s).1 in ss ==> (r, s).0 in RolesOfScopes(db, ss);
      assert SameRow(db.scopes, db'.scopes, s);
      SameRules(db, db', s);
    }
    hide RulesOf;
    assert MenusOf(db', r) == MenusOf(db, r);
    assert ScopesOf(db', r) == ScopesOf(db, r);
  }

  lemma SameRules(db: Db, db': Db, s: int)
    requires forall q :: (s, q) in db'.scopeRule <==> (s, q) in db.scopeRule
    requires forall q :: (s, q) in db.scopeRule ==> SameRow(db.rules, db'.rules, q)
    ensures RulesOf(db', s) == RulesOf(db, s)
  {
    forall q ensures q in RulesOf(db', s) <==> q in RulesOf(db, s) {
      assert (s, q) in db.scopeRule ==> SameRow(db.rules, db'.rules, q);
    }
    forall q | q in RulesOf(db, s) ensures RulesOf(db', s)[q] == RulesOf(db, s)[q] {
      assert (s, q) in db.scopeRule ==> SameRow(db.rules, db'.rules, q);
    }
  }

  ghost predicate RulesDiffer(db: Db, db': Db, qs: set<int>) {
    db' == db.(rules := db'.rules) && forall q :: q !in qs ==> SameRow(db.rules, db'.rules, q)
  }

  lemma RulesFrame(db: Db, db': Db, qs: set<int>, u: int)
    requires RulesDiffer(db, db', qs) && u !in UsersOfRoles(db, RolesOfScopes(db, ScopesOfRules(db, qs)))
    ensures SameJoin(db, db', u)
  {
    forall r | (u, r) in db.userRole ensures MenusOf(db', r) == MenusOf(db, r) && ScopesOf(db', r) == ScopesOf(db, r) {
      NotAffected(db, RolesOfScopes(db, ScopesOfRules(db, qs)), u, r);
      RulesOfRoleFrame(db, db', qs, r);
    }
    hide MenusOf, ScopesOf, RulesDiffer;
    assert SameRow(db.users, db'.users, u);
    assert RolesOf(db', u) == RolesOf(db, u);
  }

  lemma RulesOfRoleFrame(db: Db, db': Db, qs: set<int>, r: int)
    requires RulesDiffer(db, db', qs) && r !in RolesOfScopes(db, ScopesOfRules(db, qs))
    ensures MenusOf(db', r) == MenusOf(db, r) && ScopesOf(db', r) == ScopesOf(db, r)
  {
    forall s | (r, s) in db.roleScope ensures RulesOf(db', s) == RulesOf(db, s) {
      assert (r, s).1 in ScopesOfRules(db, qs) ==> (r, s).0 in RolesOfScopes(db, ScopesOfRules(db, qs));
      forall q | (s, q) in db.scopeRule ensures SameRow(db.rules, db'.rules, q) {
        assert (s, q).1 in qs ==> (s, q).0 in ScopesOfRules(db, qs);
      }
      SameRules(db, db', s);
    }
    hide RulesOf;
    assert MenusOf(db', r) == MenusOf(db, r);
    assert ScopesOf(db', r) == ScopesOf(db, r);
  }

  // ---------------------------------------------------------------- clearing covers what changed

  lemma ClearCoversUsers(st: State, db': Db, us: set<int>)
    requires UsersDiffer(st.db, db', us)
    ensures Survives(st, Clear(st.(db := db'), us))
    ensures Coherent(st) ==> Coherent(Clear(st.(db := db'), us))
  {
    hide SameJoin, UsersDiffer, Coherent;
    var st' := Clear(st.(db := db'), us);
    forall u | u in st'.cache ensures SameJoin(st.db, db', u) { UsersFrame(st.db, db', us, u); }
    if Coherent(st) { SurvivorsAgree(st, st'); }
  }

  lemma ClearCoversRoles(st: State, db': Db, rs: set<int>)
    requires RolesDiffer(st.db, db', rs)
    ensures Survives(st, ClearByRoles(st.(db := db'), rs))
    ensures Coherent(st) ==> Coherent(ClearByRoles(st.(db := db'), rs))
  {
    assert UsersOfRoles(db', rs) == UsersOfRoles(st.db, rs);
    hide SameJoin, RolesDiffer, UsersOfRoles, Coherent;
    var st' := ClearByRoles(st.(db := db'), rs);
    forall u | u in st'.cache ensures SameJoin(st.db, db', u) { RolesFrame(st.db, db', rs, u); }
    if Coherent(st) { SurvivorsAgree(st, st'); }
  }

  lemma ClearCoversMenus(st: State, db': Db, ms: set<int>)
    requires MenusDiffer(st.db, db', ms)
    ensures Survives(st, ClearByMenus(st.(db := db'), ms))
    ensures Coherent(st) ==> Coherent(ClearByMenus(st.(db := db'), ms))
  {
    var rs := RolesOfMenus(st.db, ms);
    assert RolesOfMenus(db', ms) == rs;
    assert UsersOfRoles(db', rs) == UsersOfRoles(st.db, rs);
    hide SameJoin, MenusDiffer, UsersOfRoles, RolesOfMenus, Coherent;
    var st' := ClearByMenus(st.(db := db'), ms);
    forall u | u in st'.cache ensures SameJoin(st.db, db', u) { MenusFrame(st.db, db', ms, u); }
    if Coherent(st) { SurvivorsAgree(st, st'); }
  }

  lemma ClearCoversScopes(st: State, db': Db, ss: set<int>)
    requires ScopesDiffer(st.db, db', ss)
    ensures Survives(st, ClearByScopes(st.(db := db'), ss))
    ensures Coherent(st) ==> Coherent(ClearByScopes(st.(db := db'), ss))
  {
    var rs := RolesOfScopes(st.db, ss);
    assert RolesOfScopes(db', ss) == rs;
    assert UsersOfRoles(db', rs) == UsersOfRoles(st.db, rs);
    hide SameJoin, ScopesDiffer, UsersOfRoles, RolesOfScopes, Coherent;
    var st' := ClearByScopes(st.(db := db'), ss);
    forall u | u in st'.cache ensures SameJoin(st.db, db', u) { ScopesFrame(st.db, db', ss, u); }
    if Coherent(st) { SurvivorsAgree(st, st'); }
  }

  lemma ClearCoversRules(st: State, db': Db, qs: set<int>)
    requires RulesDiffer(st.db, db', qs)
    ensures Survives(st, ClearByRules(st.(db := db'), qs))
    ensures Coherent(st) ==> Coherent(ClearByRules(st.(db := db'), qs))
  {
    var ss := ScopesOfRules(st.db, qs);
    var rs := RolesOfScopes(st.db, ss);
    assert ScopesOfRules(db', qs) == ss;
    assert RolesOfScopes(db', ss) == rs;
    assert UsersOfRoles(db', rs) == UsersOfRoles(st.db, rs);
    hide SameJoin, RulesDiffer, UsersOfRoles, RolesOfScopes, ScopesOfRules, Coherent;
    var st' := ClearByRules(st.(db := db'), qs);
    forall u | u in st'.cache ensures SameJoin(st.db, db', u) { RulesFrame(st.db, db', qs, u); }
    if Coherent(st) { SurvivorsAgree(st, st'); }
  }

  // ---------------------------------------------------------------- users

  lemma CreateUserKeeps(st: State, u: int, account: Account, rs: set<int>)
    requires Founded(st)
    ensures Follows(st, CreateUser(st, u, account, rs))
  {
    hide Survives;
    SurvivesItself(st);
    var st' := CreateUser(st, u, account, rs);
    if st' != st {
      assert UsersDiffer(st.db, st'.db, {u});
      ClearCoversUsers(st, st'.db, {u});
      assert st' == Clear(st.(db := st'.db), {u});
    }
  }

  lemma UpdateUserKeeps(st: State, u: int, profile: int, home: Option<int>, rs: set<int>)
    requires Founded(st)
    ensures Follows(st, UpdateUser(st, u, profile, home, rs))
  {
    hide Survives;
    SurvivesItself(st);
    var st' := UpdateUser(st, u, profile, home, rs);
    if st' != st {
      assert UsersDiffer(st.db, st'.db, {u});
      ClearCoversUsers(st, st'.db, {u});
    }
  }

  lemma AmendUserKeeps(st: State, u: int, account: Account)
    requires Founded(st)
    ensures Follows(st, Clear(st.(db := st.db.(users := Amend(st.db.users, u, account))), {u}))
  {
    hide Survives;
    SurvivesItself(st);
    var db' := st.db.(users := Amend(st.db.users, u, account));
    assert UsersDiffer(st.db, db', {u});
    ClearCoversUsers(st, db', {u});
  }

  lemma UpdateProfileKeeps(st: State, u: int, profile: int)
    requires Founded(st)
    ensures Follows(st, UpdateProfile(st, u, profile))
  {
    hide Integral, Amend, Survives;
    if Present(st.db.users, u) {
      AmendUserKeeps(st, u, st.db.users[u].value.(profile := profile));
    } else {
      assert UsersDiffer(st.db, st.db, {u});
      ClearCoversUsers(st, st.db, {u});
    }
  }

  lemma UpdatePermissionKeeps(st: State, requester: int, u: int, flag: Flag, seen: bool)
    requires Founded(st)
    ensures Follows(st, UpdatePermission(st, requester, u, flag, seen))
  {
    hide Integral, Survives, Amend, Toggled;
    SurvivesItself(st);
    if Present(st.db.users, u) {
      AmendUserKeeps(st, u, Toggled(st.db.users[u].value, flag, u == requester, seen));
    }
  }

  lemma DeleteUserKeeps(st: State, u: int)
    requires Founded(st)
    ensures Follows(st, DeleteUser(st, u))
  {
    hide Survives;
    SurvivesItself(st);
    var st' := DeleteUser(st, u);
    if Present(st.db.users, u) {
      assert UsersDiffer(st.db, st'.db, {u});
      ClearCoversUsers(st, st'.db, {u});
    }
  }

  lemma GetJwtUserKeeps(st: State, u: int)
    requires Inv(st)
    ensures Inv(GetJwtUser(st, u).0)
  {
    hide Integral, RolesOf, AllRolesLocked, DeptOf;
  }

  // ---------------------------------------------------------------- roles

  lemma CreateRoleKeeps(st: State, r: int, role: Role)
    requires Founded(st)
    ensures Follows(st, CreateRole(st, r, role))
  {
    hide Survives;
    SurvivesItself(st);
    var st' := CreateRole(st, r, role);
    if r !in st.db.roles {
      assert RolesDiffer(st.db, st'.db, {r});
      ClearCoversRoles(st, st'.db, {r});
      assert UsersOfRoles(st'.db, {r}) == {};
      assert Clear(st.(db := st'.db), {}) == st';
    }
  }

  lemma UpdateRoleKeeps(st: State, r: int, role: Role)
    requires Founded(st)
    ensures Follows(st, UpdateRole(st, r, role))
  {
    hide Survives;
    SurvivesItself(st);
    var st' := UpdateRole(st, r, role);
    if Present(st.db.roles, r) {
      assert RolesDiffer(st.db, st'.db, {r});
      ClearCoversRoles(st, st'.db, {r});
    }
  }

  lemma UpdateRoleMenusKeeps(st: State, r: int, ms: set<int>)
    requires Founded(st)
    ensures Follows(st, UpdateRoleMenus(st, r, ms))
  {
    hide Survives;
    SurvivesItself(st);
    var st' := UpdateRoleMenus(st, r, ms);
    if Present(st.db.roles, r) && AllPresent(st.db.menus, ms) {
      assert RolesDiffer(st.db, st'.db, {r});
      ClearCoversRoles(st, st'.db, {r});
    }
  }

  lemma UpdateRoleScopesKeeps(st: State, r: int, ss: set<int>)
    requires Founded(st)
    ensures Follows(st, UpdateRoleScopes(st, r, ss))
  {
    hide Survives;
    SurvivesItself(st);
    var st' := UpdateRoleScopes(st, r, ss);
    if Present(st.db.roles, r) && AllPresent(st.db.scopes, ss) {
      assert RolesDiffer(st.db, st'.db, {r});
      ClearCoversRoles(st, st'.db, {r});
    }
  }

  lemma DeleteRolesKeeps(st: State, rs: set<int>)
    requires Founded(st)
    ensures Follows(st, DeleteRoles(st, rs))
  {
    hide Survives;
    SurvivesItself(st);
    var st' := DeleteRoles(st, rs);
    assert RolesDiffer(st.db, st'.db, rs);
    ClearCoversRoles(st, st'.db, rs);
  }

  // ---------------------------------------------------------------- menus

  lemma CreateMenuKeeps(st: State, m: int, menu: Menu)
    requires Founded(st)
    ensures Follows(st, CreateMenu(st, m, menu))
  {
    hide Survives;
    SurvivesItself(st);
    var st' := CreateMenu(st, m, menu);
    if m !in st.db.menus && !Missing(st.db.menus, menu.parent) {
      assert MenusDiffer(st.db, st'.db, {m});
      ClearCoversMenus(st, st'.db, {m});
      assert RolesOfMenus(st'.db, {m}) == {};
      assert UsersOfRoles(st'.db, {}) == {};
      assert Clear(st.(db := st'.db), {}) == st';
    }
  }

  lemma UpdateMenuKeeps(st: State, m: int, menu: Menu)
    requires Founded(st)
    ensures Follows(st, UpdateMenu(st, m, menu))
  {
    hide Survives;
    SurvivesItself(st);
    var db' := st.db.(menus := Amend(st.db.menus, m, menu));
    assert MenusDiffer(st.db, db', {m});
    ClearCoversMenus(st, db', {m});
  }

  // ---------------------------------------------------------------- scopes and rules

  lemma CreateScopeKeeps(st: State, s: int, data: int)
    requires Founded(st)
    ensures Follows(st, CreateScope(st, s, data))
  {
    hide Survives;
    SurvivesItself(st);
    var st' := CreateScope(st, s, data);
    if s !in st.db.scopes {
      assert ScopesDiffer(st.db, st'.db, {s});
      ClearCoversScopes(st, st'.db, {s});
      assert RolesOfScopes(st'.db, {s}) == {};
      assert UsersOfRoles(st'.db, {}) == {};
      assert Clear(st.(db := st'.db), {}) == st';
    }
  }

  lemma UpdateScopeKeeps(st: State, s: int, data: int)
    requires Founded(st)
    ensures Follows(st, UpdateScope(st, s, data))
  {
    hide Survives;
    SurvivesItself(st);
    var db' := st.db.(scopes := Amend(st.db.scopes, s, data));
    assert ScopesDiffer(st.db, db', {s});
    ClearCoversScopes(st, db', {s});
  }

  lemma UpdateScopeRulesKeeps(st: State, s: int, qs: set<int>)
    requires Founded(st)
    ensures Follows(st, UpdateScopeRules(st, s, qs))
  {
    hide Survives;
    SurvivesItself(st);
    var st' := UpdateScopeRules(st, s, qs);
    if Present(st.db.scopes, s) && AllPresent(st.db.rules, qs) {
      assert ScopesDiffer(st.db, st'.db, {s});
      ClearCoversScopes(st, st'.db, {s});
    }
  }

  lemma DeleteScopesKeeps(st: State, ss: set<int>)
    requires Founded(st)
    ensures Follows(st, DeleteScopes(st, ss))
  {
    hide Survives;
    SurvivesItself(st);
    var st' := DeleteScopes(st, ss);
    assert ScopesDiffer(st.db, st'.db, ss);
    ClearCoversScopes(st, st'.db, ss);
  }

  lemma CreateRuleKeeps(st: State, q: int, data: int)
    requires Founded(st)
    ensures Follows(st, CreateRule(st, q, data))
  {
    hide Survives;
    SurvivesItself(st);
    var st' := CreateRule(st, q, data);
    if q !in st.db.rules {
      assert RulesDiffer(st.db, st'.db, {q});
      ClearCoversRules(st, st'.db, {q});
      assert ScopesOfRules(st'.db, {q}) == {};
      assert RolesOfScopes(st'.db, {}) == {};
      assert UsersOfRoles(st'.db, {}) == {};
      assert Clear(st.(db := st'.db), {}) == st';
    }
  }

  lemma UpdateRuleKeeps(st: State, q: int, data: int)
    requires Founded(st)
    ensures Follows(st, UpdateRule(st, q, data))
  {
    hide Survives;
    SurvivesItself(st);
    var db' := st.db.(rules := Amend(st.db.rules, q, data));
    assert RulesDiffer(st.db, db', {q});
    ClearCoversRules(st, db', {q});
  }

  lemma DeleteRulesKeeps(st: State, qs: set<int>)
    requires Founded(st)
    ensures Follows(st, DeleteRules(st, qs))
  {
    hide Survives;
    SurvivesItself(st);
    var st' := DeleteRules(st, qs);
    assert RulesDiffer(st.db, st'.db, qs);
    ClearCoversRules(st, st'.db, qs);
  }

  // ---------------------------------------------------------------- departments

  lemma DeptsFrame(db: Db, db': Db, u: int)
    requires db' == db.(depts := db'.depts)
    ensures SameJoin(db, db', u)
  {
    forall s ensures RulesOf(db', s) == RulesOf(db, s) {}
    hide RulesOf;
    forall r ensures MenusOf(db', r) == MenusOf(db, r) && ScopesOf(db', r) == ScopesOf(db, r) {}
    hide MenusOf, ScopesOf;
    assert RolesOf(db', u) == RolesOf(db, u);
  }

  /** The department is outside what the entries must agree with. */
  lemma DeptsKeep(st: State, depts: Table<Dept>)
    requires Founded(st)
    ensures Follows(st, st.(db := st.db.(depts := depts)))
  {
    hide SameJoin;
    var db' := st.db.(depts := depts);
    forall u ensures SameJoin(st.db, db', u) { DeptsFrame(st.db, db', u); }
  }

  // ---------------------------------------------------------------- runs

  /** Every step but a request keeps links sound and clears every entry whose join it changes. */
  lemma StepFollows(st: State, step: Step)
    requires Founded(st) && !step.DoGetJwtUser?
    ensures Follows(st, Apply(st, step))
  {
    hide Founded, Follows, Insert, Amend, Retire, Staffed, CreateUser, UpdateUser, UpdateProfile, UpdatePermission,
      DeleteUser, CreateRole, UpdateRole, UpdateRoleMenus, UpdateRoleScopes, DeleteRoles, CreateMenu, UpdateMenu,
      CreateScope, UpdateScope, UpdateScopeRules, DeleteScopes, CreateRule, UpdateRule, DeleteRules;
    ClockFollows(st, st.now);
    match step
    case DoCreateUser(u, account, rs) => CreateUserKeeps(st, u, account, rs);
    case DoUpdateUser(u, profile, home, rs) => UpdateUserKeeps(st, u, profile, home, rs);
    case DoUpdateProfile(u, profile) => UpdateProfileKeeps(st, u, profile);
    case DoUpdatePermission(requester, u, flag, seen) => UpdatePermissionKeeps(st, requester, u, flag, seen);
    case DoDeleteUser(u) => DeleteUserKeeps(st, u);
    case DoCreateRole(r, role) => CreateRoleKeeps(st, r, role);
    case DoUpdateRole(r, role) => UpdateRoleKeeps(st, r, role);
    case DoUpdateRoleMenus(r, ms) => UpdateRoleMenusKeeps(st, r, ms);
    case DoUpdateRoleScopes(r, ss) => UpdateRoleScopesKeeps(st, r, ss);
    case DoDeleteRoles(rs) => DeleteRolesKeeps(st, rs);
    case DoCreateMenu(m, menu) => CreateMenuKeeps(st, m, menu);
    case DoUpdateMenu(m, menu) => UpdateMenuKeeps(st, m, menu);
    case DoCreateScope(s, data) => CreateScopeKeeps(st, s, data);
    case DoUpdateScope(s, data) => UpdateScopeKeeps(st, s, data);
    case DoUpdateScopeRules(s, qs) => UpdateScopeRulesKeeps(st, s, qs);
    case DoDeleteScopes(ss) => DeleteScopesKeeps(st, ss);
    case DoCreateRule(q, data) => CreateRuleKeeps(st, q, data);
    case DoUpdateRule(q, data) => UpdateRuleKeeps(st, q, data);
    case DoDeleteRules(qs) => DeleteRulesKeeps(st, qs);
    case DoCreateDept(d, dept) => DeptsKeep(st, Insert(st.db.depts, d, dept));
    case DoUpdateDept(d, dept) => DeptsKeep(st, Amend(st.db.depts, d, dept));
    case DoDeleteDept(d) => DeptsKeep(st, Retire(st.db.depts, {d}));
    case DoTick(seconds) => ClockFollows(st, st.now + seconds);
    case DoGetJwtUser(_) =>
  }

  lemma ClockFollows(st: State, now: int)
    requires Founded(st)
    ensures Follows(st, st.(now := now))
  {
    hide RolesOf;
    assert st == st.(now := st.now);
  }

  lemma StepKeepsInv(st: State, step: Step)
    requires Inv(st)
    ensures Inv(Apply(st, step))
  {
    hide Inv, Apply, Founded, Follows;
    if u :| step == DoGetJwtUser(u) {
      GetJwtUserKeeps(st, u);
      RequestIsStep(st, u);
    } else {
      InvIsFounded(st);
      StepFollows(st, step);
      FollowsKeepsInv(st, Apply(st, step));
    }
  }

  lemma RequestIsStep(st: State, u: int)
    ensures Apply(st, DoGetJwtUser(u)) == GetJwtUser(st, u).0
  {
  }

  lemma {:induction false} RunKeepsInv(st: State, steps: seq<Step>)
    requires Inv(st)
    ensures Inv(Exec(st, steps))
    decreases |steps|
  {
    hide Inv, Apply;
    if steps != [] {
      RunKeepsInv(st, steps[..|steps| - 1]);
      StepKeepsInv(Exec(st, steps[..|steps| - 1]), steps[|steps| - 1]);
    }
  }

  ghost predicate Reachable(st: State) {
    exists now: int, ttl: nat, steps: seq<Step> :: st == Exec(Empty(now, ttl), steps)
  }

  lemma ReachableInv(st: State)
    requires Reachable(st)
    ensures Inv(st)
  {
    var now: int, ttl: nat, steps: seq<Step> :| st == Exec(Empty(now, ttl), steps);
    assert Inv(Empty(now, ttl));
    hide Inv, Exec, Empty;
    RunKeepsInv(Empty(now, ttl), steps);
  }
}
