/** The promises of the authorization cache, and the two places where it breaks them. */
module UserCacheTheorems {
  import opened Wrappers
  import opened TimedMaps
  import opened UserCacheModel
  import opened UserCacheCoherence

  /** The department of `u`, if it names one, exists and is not locked. */
  predicate DeptFine(db: Db, account: Account) {
    account.dept.Some? ==> Present(db.depts, account.dept.value) && db.depts[account.dept.value].value.enabled
  }

  /** A cached entry carries the account, roles, menus, scopes and rules that the tables hold now. */
  lemma CachedEqualsJoin(st: State, u: int)
    requires Reachable(st) && u in st.cache
    ensures Present(st.db.users, u)
    ensures st.cache[u].value.account == Join(st.db, u).account
    ensures st.cache[u].value.roles == Join(st.db, u).roles
  {
    hide Reachable, RolesOf, Integral;
    ReachableInv(st);
    assert Agrees(st.db, u, st.cache[u].value);
  }

  /** A hit hands on what a miss would, up to the department, exactly when the department is fine;
      otherwise a miss would be refused for the department and for nothing else. */
  lemma HitEqualsMiss(st: State, u: int)
    requires Reachable(st) && Live(st.cache, u, st.now)
    ensures GetJwtUser(st, u).1.Served?
    ensures DeptFine(st.db, st.cache[u].value.account) <==>
      Available(st.db, u).Served? && Available(st.db, u).view.(dept := None) == GetJwtUser(st, u).1.view.(dept := None)
    ensures !DeptFine(st.db, st.cache[u].value.account) ==>
      Available(st.db, u) == DeptMissing || Available(st.db, u) == DeptLocked
  {
    hide Reachable, RolesOf, Integral, AllRolesLocked;
    ReachableInv(st);
    assert Agrees(st.db, u, st.cache[u].value);
  }

  /** Locking the department of a cached user is not noticed until the entry goes. */
  lemma LockedDepartmentStillServed(st: State, u: int, d: int, dept: Dept)
    requires Reachable(st) && Live(st.cache, u, st.now) && st.cache[u].value.account.dept == Some(d)
    requires Present(st.db.depts, d) && !dept.enabled && !Missing(st.db.depts, dept.parent) && dept.parent != Some(d)
    ensures GetJwtUser(UpdateDept(st, d, dept), u).1 == Served(st.cache[u].value)
    ensures Available(UpdateDept(st, d, dept).db, u) == DeptLocked
  {
    hide Reachable, RolesOf, Integral, AllRolesLocked;
    ReachableInv(st);
    assert Agrees(st.db, u, st.cache[u].value);
  }

  /** The answer for `u` after locking department `d`, and the reason a fresh lookup would refuse it for. */
  predicate StaleAfterLocking(st: State, u: int, d: int, dept: Dept) {
    var st' := UpdateDept(st, d, dept);
    GetJwtUser(st', u).1.Served? && Available(st'.db, u) == DeptLocked
  }

  /** Such a lock can happen: one department, and one user of it who has signed in. */
  lemma LockedDepartmentHappens(profile: int, data: int)
    ensures exists st: State, u: int, d: int, dept: Dept :: Reachable(st) && StaleAfterLocking(st, u, d, dept)
  {
    var account := Account(profile, Some(1), true, false, true, false);
    var s0, s1 := Empty(0, 60), CreateDept(Empty(0, 60), 1, Dept(None, true, data));
    var s2 := CreateUser(s1, 1, account, {});
    var s3 := GetJwtUser(s2, 1).0;
    SignedInToDepartment(account, Dept(None, true, data));
    hide CreateDept, CreateUser, GetJwtUser, Empty, Reachable, UpdateDept, Available;
    EmptyReachable(0, 60);
    ReachableStep(s0, s1, DoCreateDept(1, Dept(None, true, data)));
    ReachableStep(s1, s2, DoCreateUser(1, account, {}));
    ReachableStep(s2, s3, DoGetJwtUser(1));
    LockedDepartmentStillServed(s3, 1, 1, Dept(None, false, data));
    assert StaleAfterLocking(s3, 1, 1, Dept(None, false, data));
  }

  lemma SignedInToDepartment(account: Account, dept: Dept)
    requires account.dept == Some(1) && account.enabled && dept.enabled && dept.parent == None
    ensures var st := GetJwtUser(CreateUser(CreateDept(Empty(0, 60), 1, dept), 1, account, {}), 1).0;
      Live(st.cache, 1, st.now) && st.cache[1].value.account.dept == Some(1) && Present(st.db.depts, 1)
  {
    var st := CreateUser(CreateDept(Empty(0, 60), 1, dept), 1, account, {});
    assert st.db.userRole == {};
    assert RolesOf(st.db, 1) == map[];
  }

  // ---------------------------------------------------------------- deleting a menu

  predicate Shows(roles: map<int, RoleView>, m: int) {
    exists r :: r in roles && m in roles[r].menus
  }

  /** Some entry shows the menu. */
  predicate Shown(st: State, m: int) {
    exists u :: u in st.cache && Shows(st.cache[u].value.roles, m)
  }

  /** Deleting a menu clears no entry at all. */
  lemma DeleteMenuClearsNobody(st: State, m: int)
    ensures DeleteMenu(st, m).cache == st.cache
  {
    var db := st.db.(roleMenu := Unlink(st.db.roleMenu, m), menus := Retire(st.db.menus, {m}));
    assert RolesOfMenus(db, {m}) == {};
    assert UsersOfRoles(db, {}) == {};
  }

  lemma DeleteMenuTables(st: State, m: int)
    requires !HasChildMenus(st.db, m) && Present(st.db.menus, m)
    ensures DeleteMenu(st, m).db ==
      st.db.(roleMenu := Unlink(st.db.roleMenu, m), menus := Retire(st.db.menus, {m}))
  {
  }

  lemma WithoutMenu(db: Db, m: int, u: int)
    ensures var db' := db.(roleMenu := Unlink(db.roleMenu, m), menus := Retire(db.menus, {m}));
      && RolesOf(db', u).Keys == RolesOf(db, u).Keys
      && (forall r :: r in RolesOf(db, u) ==>
            RolesOf(db', u)[r] == RolesOf(db, u)[r].(menus := RolesOf(db, u)[r].menus - {m}))
  {
    var db' := db.(roleMenu := Unlink(db.roleMenu, m), menus := Retire(db.menus, {m}));
    forall s ensures RulesOf(db', s) == RulesOf(db, s) {}
    hide RulesOf;
    forall r ensures ScopesOf(db', r) == ScopesOf(db, r) && MenusOf(db', r) == MenusOf(db, r) - {m} {
      assert ScopesOf(db', r) == ScopesOf(db, r);
      assert MenusOf(db', r) == MenusOf(db, r) - {m};
    }
    hide ScopesOf, MenusOf;
  }

  /** Deleting a menu keeps the cache coherent exactly when it is refused, finds no menu to delete,
      or no entry shows the menu. */
  lemma DeleteMenuCoherentIff(st: State, m: int)
    requires Inv(st)
    ensures Coherent(DeleteMenu(st, m)) <==>
      HasChildMenus(st.db, m) || !Present(st.db.menus, m) || !Shown(st, m)
  {
    hide Integral, Coherent, Present;
    var st' := DeleteMenu(st, m);
    DeleteMenuClearsNobody(st, m);
    if HasChildMenus(st.db, m) {
    } else if !Present(st.db.menus, m) {
      AbsentMenuUnlinked(st, m);
      SurvivorsAgree(st, st');
    } else {
      DeleteMenuTables(st, m);
      hide DeleteMenu, Shows, Agrees;
      forall u | u in st.cache ensures Agrees(st'.db, u, st'.cache[u].value) <==> !Shows(st.cache[u].value.roles, m) {
        EntryAfterDeletion(st, m, u);
      }
      CoherentPointwise(st');
    }
  }

  lemma CoherentPointwise(st: State)
    ensures Coherent(st) <==> forall u :: u in st.cache ==> Agrees(st.db, u, st.cache[u].value)
  {
  }

  lemma EntryAfterDeletion(st: State, m: int, u: int)
    requires Coherent(st) && u in st.cache
    requires !HasChildMenus(st.db, m) && Present(st.db.menus, m)
    ensures Agrees(DeleteMenu(st, m).db, u, st.cache[u].value) <==> !Shows(st.cache[u].value.roles, m)
  {
    DeleteMenuTables(st, m);
    var view := st.cache[u].value;
    assert Agrees(st.db, u, view);
    WithoutMenu(st.db, m, u);
    var db' := DeleteMenu(st, m).db;
    hide DeleteMenu, RolesOf, AllRolesLocked, Coherent, HasChildMenus;
    AgreesByRoles(st.db, db', u, view);
    hide Agrees;
    StrippedDiffers(view.roles, RolesOf(db', u), m);
  }

  lemma StrippedDiffers(roles: map<int, RoleView>, stripped: map<int, RoleView>, m: int)
    requires stripped.Keys == roles.Keys
    requires forall r :: r in roles ==> stripped[r] == roles[r].(menus := roles[r].menus - {m})
    ensures stripped == roles <==> !Shows(roles, m)
  {
    if r :| r in roles && m in roles[r].menus {
      assert m !in stripped[r].menus;
    } else {
      forall r | r in roles ensures stripped[r] == roles[r] {
        assert roles[r].menus - {m} == roles[r].menus;
      }
    }
  }

  lemma AgreesByRoles(db: Db, db': Db, u: int, view: View)
    requires Agrees(db, u, view) && db'.users == db.users
    ensures view.roles == RolesOf(db, u)
    ensures Agrees(db', u, view) <==> RolesOf(db', u) == view.roles
  {
    hide RolesOf, AllRolesLocked;
  }

  /** The links of an absent menu count for nothing. */
  lemma AbsentMenuUnlinked(st: State, m: int)
    requires !Present(st.db.menus, m) && !HasChildMenus(st.db, m)
    ensures Survives(st, DeleteMenu(st, m)) && DeleteMenu(st, m).db.menus == st.db.menus
  {
    var st' := DeleteMenu(st, m);
    var db, db' := st.db, st'.db;
    forall u ensures SameJoin(db, db', u) {
      forall s ensures RulesOf(db', s) == RulesOf(db, s) {}
      forall r ensures ScopesOf(db', r) == ScopesOf(db, r) && MenusOf(db', r) == MenusOf(db, r) {
        assert ScopesOf(db', r) == ScopesOf(db, r);
        assert MenusOf(db', r) == MenusOf(db, r);
      }
      hide ScopesOf, MenusOf, RulesOf;
      assert RolesOf(db', u) == RolesOf(db, u);
    }
  }

  /** After the deletion of `m` the answer for `u` still shows it; a fresh lookup would not. */
  predicate StaleAfterDeletion(st: State, u: int, m: int) {
    var st' := DeleteMenu(st, m);
    var answer := GetJwtUser(st', u).1;
    var lookup := Available(st'.db, u);
    answer.Served? && Shows(answer.view.roles, m) && lookup.Served? && !Shows(lookup.view.roles, m)
  }

  /** Such a deletion can happen: one menu, one role, one user who has signed in. */
  lemma DeletedMenuStillServed(profile: int, data: int)
    ensures exists st: State, u: int, m: int :: Reachable(st) && StaleAfterDeletion(st, u, m)
  {
    hide StaleAfterDeletion, GetJwtUser, SetUp, Reachable;
    var account := Account(profile, None, true, false, true, false);
    var menu, role := Menu(None, data), Role(true, data);
    SetUpReachable(account, menu, role);
    var st := SetUp(account, menu, role);
    ReachableStep(st, GetJwtUser(st, 1).0, DoGetJwtUser(1));
    SignedInStale(account, menu, role);
  }

  /** The state after creating menu 1, role 1 with that menu and user 1 with that role. */
  function SetUp(account: Account, menu: Menu, role: Role): State {
    State(Db(map[1 := Row(account, false)], map[], map[1 := Row(role, false)], map[1 := Row(menu, false)], map[], map[],
             {(1, 1)}, {(1, 1)}, {}, {}),
          map[], 0, 60)
  }

  /** Once the user has signed in, the deletion of the menu leaves the entry stale. */
  lemma SignedInStale(account: Account, menu: Menu, role: Role)
    requires menu.parent == None && role.enabled && account.enabled && account.dept == None
    ensures StaleAfterDeletion(GetJwtUser(SetUp(account, menu, role), 1).0, 1, 1)
  {
    hide ScopesOf, RulesOf;
    var st := SetUp(account, menu, role);
    OnlyRole(st.db, role);
    assert 1 in RolesOf(st.db, 1)[1].menus;
    var st1 := GetJwtUser(st, 1).0;
    assert Available(st.db, 1) == Served(Join(st.db, 1));
    DeleteMenuTables(st1, 1);
    DeleteMenuClearsNobody(st1, 1);
    var st2 := DeleteMenu(st1, 1);
    OnlyRole(st2.db, role);
    assert 1 !in RolesOf(st2.db, 1)[1].menus;
  }

  lemma OnlyRole(db: Db, role: Role)
    requires db.roles == map[1 := Row(role, false)] && db.userRole == {(1, 1)} && role.enabled
    ensures forall r :: r in RolesOf(db, 1) <==> r == 1
    ensures RolesOf(db, 1)[1].role == role && RolesOf(db, 1)[1].menus == MenusOf(db, 1)
    ensures !AllRolesLocked(RolesOf(db, 1))
  {
    hide MenusOf, ScopesOf;
    assert 1 in RolesOf(db, 1);
  }

  lemma SetUpReachable(account: Account, menu: Menu, role: Role)
    requires menu.parent == None && account.dept == None
    ensures Reachable(SetUp(account, menu, role))
  {
    hide CreateMenu, CreateRole, UpdateRoleMenus, CreateUser, Empty, SetUp, Reachable;
    var s0 := Empty(0, 60);
    var s1 := CreateMenu(s0, 1, menu);
    var s2 := CreateRole(s1, 1, role);
    var s3 := UpdateRoleMenus(s2, 1, {1});
    var s4 := CreateUser(s3, 1, account, {1});
    FirstRows(account, menu, role);
    EmptyReachable(0, 60);
    ReachableStep(s0, s1, DoCreateMenu(1, menu));
    ReachableStep(s1, s2, DoCreateRole(1, role));
    ReachableStep(s2, s3, DoUpdateRoleMenus(1, {1}));
    ReachableStep(s3, s4, DoCreateUser(1, account, {1}));
  }

  lemma FirstRows(account: Account, menu: Menu, role: Role)
    requires menu.parent == None && account.dept == None
    ensures
      var s3 := UpdateRoleMenus(CreateRole(CreateMenu(Empty(0, 60), 1, menu), 1, role), 1, {1});
      CreateUser(s3, 1, account, {1}) == SetUp(account, menu, role)
  {
    var s2 := CreateRole(CreateMenu(Empty(0, 60), 1, menu), 1, role);
    assert Relink({}, 1, {1}) == {(1, 1)};
    var s3 := UpdateRoleMenus(s2, 1, {1});
    assert s3.db == s2.db.(roleMenu := {(1, 1)});
    assert s3.cache == map[];
  }

  lemma EmptyReachable(now: int, ttl: nat)
    ensures Reachable(Empty(now, ttl))
  {
    assert Exec(Empty(now, ttl), []) == Empty(now, ttl);
  }

  lemma ReachableStep(st: State, st': State, step: Step)
    requires Reachable(st) && st' == Apply(st, step)
    ensures Reachable(st')
  {
    hide Apply, Empty;
    var now: int, ttl: nat, steps: seq<Step> :| st == Exec(Empty(now, ttl), steps);
    assert (steps + [step])[..|steps|] == steps;
    assert Exec(Empty(now, ttl), steps + [step]) == Apply(st, step);
  }
}
