/** What each administration call changes in the join of every user, and what it leaves alone. */
module UserCacheEffects {
  import opened Wrappers
  import opened TimedMaps
  import opened UserCacheModel
  import opened UserCacheCoherence
  import opened UserCacheTheorems
  import opened UserCacheCalls

  // ---------------------------------------------------------------- users

  /** Only the row of `u` and its role links may differ; the join of every other user is the same. */
  ghost predicate OtherUsersSame(db: Db, db': Db, u: int) {
    && db' == db.(users := db'.users, userRole := db'.userRole)
    && forall v :: v != u ==> SameRow(db.users, db'.users, v) && RolesOf(db', v) == RolesOf(db, v)
  }

  /** The user has exactly these roles, as the tables held them before. */
  ghost predicate HasRoles(db: Db, db': Db, u: int, rs: set<int>) {
    && RolesOf(db', u).Keys == rs
    && forall r :: r in rs ==>
         && r in db.roles
         && RolesOf(db', u)[r] == RoleView(db.roles[r].value, MenusOf(db, r), ScopesOf(db, r))
  }

  lemma RelinkedUser(db: Db, users: Table<Account>, u: int, rs: set<int>)
    requires forall v :: v != u ==> SameRow(db.users, users, v)
    requires forall r :: r in rs ==> Present(db.roles, r)
    ensures var db' := db.(users := users, userRole := Relink(db.userRole, u, rs));
      OtherUsersSame(db, db', u) && HasRoles(db, db', u, rs)
  {
    var db' := db.(users := users, userRole := Relink(db.userRole, u, rs));
    RoleViewsSame(db, db');
    hide MenusOf, ScopesOf;
    forall r ensures r in RolesOf(db', u) <==> r in rs {
      assert r in rs ==> Present(db.roles, r);
    }
    forall v | v != u ensures RolesOf(db', v) == RolesOf(db, v) {
      assert forall r :: (v, r) in db'.userRole <==> (v, r) in db.userRole;
    }
  }

  /** A user can be given to the department: it is none, the present one, one that exists, or number zero. */
  predicate Movable(db: Db, account: Account, home: Option<int>) {
    home == None || home == Some(0) || home == account.dept || Present(db.depts, home.value)
  }

  /** With the user, the department and all roles there, the update writes profile, department and exactly the given
      roles, clears the user, and touches no one else; otherwise it does nothing. */
  ghost predicate UserUpdated(st: State, st': State, u: int, profile: int, home: Option<int>, rs: set<int>) {
    if Present(st.db.users, u) && Movable(st.db, st.db.users[u].value, home) &&
       (forall r :: r in rs ==> Present(st.db.roles, r))
    then
      var before := st.db.users[u].value;
      && Present(st'.db.users, u)
      && st'.db.users[u].value == Account(profile, home, before.enabled, before.superuser, before.staff, before.multi)
      && HasRoles(st.db, st'.db, u, rs) && OtherUsersSame(st.db, st'.db, u)
      && st'.cache == st.cache - {u}
    else st' == st
  }

  lemma UpdateUserEffect(st: State, u: int, profile: int, home: Option<int>, rs: set<int>)
    ensures UserUpdated(st, UpdateUser(st, u, profile, home, rs), u, profile, home, rs)
  {
    var st' := UpdateUser(st, u, profile, home, rs);
    if st' != st { RelinkedUser(st.db, st'.db.users, u, rs); }
    if Present(st.db.users, u) && Movable(st.db, st.db.users[u].value, home) && AllPresent(st.db.roles, rs) {
      RelinkedUser(st.db, st'.db.users, u, rs);
    }
    hide HasRoles, OtherUsersSame, RolesOf;
  }

  /** The next answer for an updated user shows the new profile, department and roles. */
  lemma UpdatedUserShows(st: State, u: int, profile: int, home: Option<int>, rs: set<int>)
    requires Present(st.db.users, u) && Movable(st.db, st.db.users[u].value, home)
    requires forall r :: r in rs ==> Present(st.db.roles, r)
    ensures var access := Answer(UpdateUser(st, u, profile, home, rs), u);
      access.Served? ==>
        && access.view.account.profile == profile && access.view.account.dept == home
        && access.view.roles.Keys == rs
  {
    UpdateUserEffect(st, u, profile, home, rs);
    hide UpdateUser, RolesOf, OtherUsersSame, AllRolesLocked, DeptOf;
  }

  /** A new user has the given row and exactly the given roles; an id that is taken, or a missing department or role,
      is refused. */
  ghost predicate UserCreated(st: State, st': State, u: int, account: Account, rs: set<int>) {
    if u !in st.db.users && (account.dept == None || Present(st.db.depts, account.dept.value)) &&
       (forall r :: r in rs ==> Present(st.db.roles, r))
    then
      && Present(st'.db.users, u) && st'.db.users[u].value == account
      && HasRoles(st.db, st'.db, u, rs) && OtherUsersSame(st.db, st'.db, u)
      && st'.cache == st.cache
    else st' == st
  }

  lemma CreateUserEffect(st: State, u: int, account: Account, rs: set<int>)
    ensures UserCreated(st, CreateUser(st, u, account, rs), u, account, rs)
  {
    var st' := CreateUser(st, u, account, rs);
    if u !in st.db.users && !Missing(st.db.depts, account.dept) && AllPresent(st.db.roles, rs) {
      RelinkedUser(st.db, st'.db.users, u, rs);
    }
    hide HasRoles, OtherUsersSame, RolesOf;
  }

  /** Exactly the row of `u` differs. */
  ghost predicate OnlyRow(db: Db, db': Db, u: int) {
    && db' == db.(users := db'.users)
    && (forall v :: v != u ==> SameRow(db.users, db'.users, v))
    && (forall v :: RolesOf(db', v) == RolesOf(db, v))
  }

  lemma AmendedRow(db: Db, u: int, account: Account)
    requires Present(db.users, u)
    ensures var db' := db.(users := Amend(db.users, u, account));
      OnlyRow(db, db', u) && Present(db'.users, u) && db'.users[u].value == account
  {
    var db' := db.(users := Amend(db.users, u, account));
    RoleViewsSame(db, db');
    hide MenusOf, ScopesOf;
    forall v ensures RolesOf(db', v) == RolesOf(db, v) {}
  }

  /** One's own flags other than multi login stay; otherwise exactly the flag asked for is reversed, one's own multi
      login as one's own request shows it, and the user is cleared. */
  ghost predicate FlagReversed(st: State, st': State, requester: int, u: int, flag: Flag, seen: bool) {
    if Present(st.db.users, u) && (u != requester || flag == MultiLogin) then
      && Present(st'.db.users, u)
      && var (before, after) := (st.db.users[u].value, st'.db.users[u].value);
      && after.profile == before.profile && after.dept == before.dept
      && (after.superuser <==> (before.superuser <==> flag != Superuser))
      && (after.staff <==> (before.staff <==> flag != Staff))
      && (after.enabled <==> (before.enabled <==> flag != Status))
      && (after.multi <==>
          if flag != MultiLogin then before.multi else !(if u == requester then seen else before.multi))
      && OnlyRow(st.db, st'.db, u) && st'.cache == st.cache - {u}
    else st' == st
  }

  lemma UpdatePermissionEffect(st: State, requester: int, u: int, flag: Flag, seen: bool)
    ensures FlagReversed(st, UpdatePermission(st, requester, u, flag, seen), requester, u, flag, seen)
  {
    hide OnlyRow;
    if Present(st.db.users, u) {
      AmendedRow(st.db, u, Toggled(st.db.users[u].value, flag, u == requester, seen));
    }
  }

  /** A profile change writes the profile alone and clears the user. */
  lemma UpdateProfileEffect(st: State, u: int, profile: int)
    ensures var st' := UpdateProfile(st, u, profile);
      && st'.cache == st.cache - {u}
      && (if Present(st.db.users, u) then
            && OnlyRow(st.db, st'.db, u) && Present(st'.db.users, u)
            && st'.db.users[u].value == st.db.users[u].value.(profile := profile)
          else st'.db == st.db)
  {
    hide OnlyRow;
    if Present(st.db.users, u) { AmendedRow(st.db, u, st.db.users[u].value.(profile := profile)); }
  }

  /** A deleted user is gone, its links with it; everyone else stays. */
  lemma DeleteUserEffect(st: State, u: int)
    ensures var st' := DeleteUser(st, u);
      if Present(st.db.users, u) then
        && !Present(st'.db.users, u) && (forall r :: (u, r) !in st'.db.userRole)
        && OtherUsersSame(st.db, st'.db, u) && st'.cache == st.cache - {u}
      else st' == st
  {
    var st' := DeleteUser(st, u);
    if Present(st.db.users, u) { RelinkedUser(st.db, st'.db.users, u, {}); }
    hide HasRoles, OtherUsersSame;
  }

  // ---------------------------------------------------------------- roles

  /** Whoever holds a role of the set is cleared, and no one else; rows of users and departments are untouched. */
  ghost predicate ClearedThrough(st: State, st': State, roles: iset<int>) {
    && st'.db.users == st.db.users && st'.db.depts == st.db.depts && st'.now == st.now && st'.ttl == st.ttl
    && forall u :: u in st'.cache <==> u in st.cache && forall r :: r in roles ==> (u, r) !in st.db.userRole
  }

  lemma HoldersAre(db: Db, rs: set<int>, roles: iset<int>)
    requires forall r :: r in rs <==> r in roles
    ensures forall u :: u in UsersOfRoles(db, rs) <==> !(forall r :: r in roles ==> (u, r) !in db.userRole)
  {
    forall u ensures u in UsersOfRoles(db, rs) <==> !(forall r :: r in roles ==> (u, r) !in db.userRole) {
      if u in UsersOfRoles(db, rs) {
        var p :| p in db.userRole && p.1 in rs && p.0 == u;
        var r: int := p.1;
        assert p == (u, r) && r in rs;
      }
      if !(forall r :: r in roles ==> (u, r) !in db.userRole) {
        var r :| r in roles && (u, r) in db.userRole;
        assert (u, r).1 in rs && (u, r).0 == u;
      }
    }
  }

  lemma ClearedHolders(st: State, db': Db, rs: set<int>)
    requires db'.users == st.db.users && db'.depts == st.db.depts && db'.userRole == st.db.userRole
    ensures ClearedThrough(st, ClearByRoles(st.(db := db'), rs), iset r | r in rs)
  {
    HoldersAre(db', rs, iset r | r in rs);
    hide UsersOfRoles;
  }

  /** Every user's join is as before, but for one role, wherever it is held, and that one is as given. */
  ghost predicate RoleReplaced(db: Db, db': Db, r: int, view: RoleView) {
    forall u :: RolesOf(db', u) == if r in RolesOf(db, u) then RolesOf(db, u)[r := view] else RolesOf(db, u)
  }

  lemma ReplacedRole(db: Db, db': Db, r: int, view: RoleView)
    requires RolesDiffer(db, db', {r}) && Present(db.roles, r) && Present(db'.roles, r)
    requires view == RoleView(db'.roles[r].value, MenusOf(db', r), ScopesOf(db', r))
    ensures RoleReplaced(db, db', r, view)
  {
    forall x | x != r
      ensures SameRow(db.roles, db'.roles, x) && MenusOf(db', x) == MenusOf(db, x)
        && ScopesOf(db', x) == ScopesOf(db, x)
    {
      RoleFrame(db, db', {r}, x);
    }
    hide MenusOf, ScopesOf, RolesDiffer;
    assert db'.userRole == db.userRole;
    forall u ensures RolesOf(db', u) == if r in RolesOf(db, u) then RolesOf(db, u)[r := view] else RolesOf(db, u) {}
  }

  lemma LinksAlone(db: Db, db': Db, r: int)
    requires db' == db.(roles := db'.roles, roleMenu := db'.roleMenu, roleScope := db'.roleScope)
    ensures db'.roleMenu == db.roleMenu ==> MenusOf(db', r) == MenusOf(db, r)
    ensures db'.roleScope == db.roleScope ==> ScopesOf(db', r) == ScopesOf(db, r)
  {
    forall s ensures RulesOf(db', s) == RulesOf(db, s) {}
    hide RulesOf;
    if db'.roleMenu == db.roleMenu { assert MenusOf(db', r) == MenusOf(db, r); }
    if db'.roleScope == db.roleScope { assert ScopesOf(db', r) == ScopesOf(db, r); }
  }

  /** An updated role has its new row in every join, with the menus and scopes it had. */
  lemma UpdateRoleEffect(st: State, r: int, role: Role)
    ensures var st' := UpdateRole(st, r, role);
      if Present(st.db.roles, r) then
        && ClearedThrough(st, st', iset{r})
        && RoleReplaced(st.db, st'.db, r, RoleView(role, MenusOf(st.db, r), ScopesOf(st.db, r)))
      else st' == st
  {
    if Present(st.db.roles, r) {
      var db' := st.db.(roles := Amend(st.db.roles, r, role));
      LinksAlone(st.db, db', r);
      ReplacedRole(st.db, db', r, RoleView(role, MenusOf(db', r), ScopesOf(db', r)));
      ClearedHolders(st, db', {r});
    }
    hide RoleReplaced, ClearedThrough;
  }

  /** A role given new menus has exactly those, as stored, in every join, with the row and scopes it had. */
  lemma UpdateRoleMenusEffect(st: State, r: int, ms: set<int>)
    ensures var st' := UpdateRoleMenus(st, r, ms);
      if Present(st.db.roles, r) && (forall m :: m in ms ==> Present(st.db.menus, m)) then
        && ClearedThrough(st, st', iset{r})
        && RoleReplaced(st.db, st'.db, r,
             RoleView(st.db.roles[r].value, map m | m in ms :: st.db.menus[m].value, ScopesOf(st.db, r)))
      else st' == st
  {
    if Present(st.db.roles, r) && AllPresent(st.db.menus, ms) {
      var db' := st.db.(roleMenu := Relink(st.db.roleMenu, r, ms));
      RelinkedMenus(st.db, r, ms);
      assert MenusOf(db', r) == map m | m in ms :: st.db.menus[m].value;
      LinksAlone(st.db, db', r);
      hide MenusOf, ScopesOf;
      ReplacedRole(st.db, db', r, RoleView(st.db.roles[r].value, MenusOf(db', r), ScopesOf(db', r)));
      ClearedHolders(st, db', {r});
    }
    hide RoleReplaced, ClearedThrough;
  }

  /** A role given new scopes has exactly those, as stored, in every join, with the row and menus it had. */
  lemma UpdateRoleScopesEffect(st: State, r: int, ss: set<int>)
    ensures var st' := UpdateRoleScopes(st, r, ss);
      if Present(st.db.roles, r) && (forall s :: s in ss ==> Present(st.db.scopes, s)) then
        && ClearedThrough(st, st', iset{r})
        && RoleReplaced(st.db, st'.db, r,
             RoleView(st.db.roles[r].value, MenusOf(st.db, r),
                      map s | s in ss :: ScopeView(st.db.scopes[s].value, RulesOf(st.db, s))))
      else st' == st
  {
    if Present(st.db.roles, r) && AllPresent(st.db.scopes, ss) {
      var db' := st.db.(roleScope := Relink(st.db.roleScope, r, ss));
      RelinkedScopes(st.db, r, ss);
      forall s ensures RulesOf(db', s) == RulesOf(st.db, s) {}
      hide RulesOf;
      assert ScopesOf(db', r) == map s | s in ss :: ScopeView(st.db.scopes[s].value, RulesOf(st.db, s));
      LinksAlone(st.db, db', r);
      hide MenusOf, ScopesOf;
      ReplacedRole(st.db, db', r, RoleView(st.db.roles[r].value, MenusOf(db', r), ScopesOf(db', r)));
      ClearedHolders(st, db', {r});
    }
    hide RoleReplaced, ClearedThrough;
  }

  /** Deleted roles vanish from every join, and nothing else does. */
  lemma DeleteRolesEffect(st: State, rs: set<int>)
    ensures var st' := DeleteRoles(st, rs);
      && ClearedThrough(st, st', iset x | x in rs)
      && forall u :: RolesOf(st'.db, u) == RolesOf(st.db, u) - rs
  {
    var db' := st.db.(roles := Retire(st.db.roles, rs));
    ClearedHolders(st, db', rs);
    forall r ensures MenusOf(db', r) == MenusOf(st.db, r) && ScopesOf(db', r) == ScopesOf(st.db, r) {
      LinksAlone(st.db, db', r);
    }
    hide MenusOf, ScopesOf, ClearedThrough;
    forall u ensures RolesOf(db', u) == RolesOf(st.db, u) - rs {}
  }

  // ---------------------------------------------------------------- menus

  lemma ClearedByMenu(st: State, db': Db, m: int)
    requires db' == st.db.(menus := db'.menus)
    ensures ClearedThrough(st, ClearByMenus(st.(db := db'), {m}), iset r | (r, m) in st.db.roleMenu)
  {
    forall r ensures r in RolesOfMenus(db', {m}) <==> (r, m) in st.db.roleMenu {
      if (r, m) in st.db.roleMenu { assert (r, m).1 in {m} && (r, m).0 == r; }
    }
    HoldersAre(db', RolesOfMenus(db', {m}), iset r | (r, m) in st.db.roleMenu);
    hide UsersOfRoles, RolesOfMenus;
  }

  /** Every join is as before, but for the row of one menu wherever it is shown. */
  ghost predicate MenuReplaced(db: Db, db': Db, m: int, menu: Menu) {
    forall u :: RolesOf(db', u).Keys == RolesOf(db, u).Keys && forall r :: r in RolesOf(db, u) ==>
      var before := RolesOf(db, u)[r];
      RolesOf(db', u)[r] == before.(menus := if m in before.menus then before.menus[m := menu] else before.menus)
  }

  lemma ReplacedMenu(db: Db, m: int, menu: Menu)
    requires Present(db.menus, m)
    ensures MenuReplaced(db, db.(menus := Amend(db.menus, m, menu)), m, menu)
  {
    var db' := db.(menus := Amend(db.menus, m, menu));
    forall s ensures RulesOf(db', s) == RulesOf(db, s) {}
    hide RulesOf;
    forall r ensures ScopesOf(db', r) == ScopesOf(db, r) {}
    hide ScopesOf;
    forall r
      ensures MenusOf(db', r) == if m in MenusOf(db, r) then MenusOf(db, r)[m := menu] else MenusOf(db, r) {}
    hide MenusOf;
  }

  /** An updated menu has its new row wherever it is shown; a missing menu or parent, or a menu that would be its own
      parent, is refused. */
  lemma UpdateMenuEffect(st: State, m: int, menu: Menu)
    ensures var st' := UpdateMenu(st, m, menu);
      if Present(st.db.menus, m) && menu.parent != Some(m)
         && (menu.parent == None || Present(st.db.menus, menu.parent.value)) then
        && ClearedThrough(st, st', iset r | (r, m) in st.db.roleMenu)
        && MenuReplaced(st.db, st'.db, m, menu)
      else st' == st
  {
    if Present(st.db.menus, m) {
      ReplacedMenu(st.db, m, menu);
      ClearedByMenu(st, st.db.(menus := Amend(st.db.menus, m, menu)), m);
    }
    hide MenuReplaced, ClearedThrough, Amend;
  }

  /** A deleted menu vanishes from every join, and nothing else does; a menu with children is refused.  No one is
      cleared. */
  lemma DeleteMenuEffect(st: State, m: int)
    ensures var st' := DeleteMenu(st, m);
      && st'.cache == st.cache && st'.db.users == st.db.users && st'.db.depts == st.db.depts
      && (if exists c :: Present(st.db.menus, c) && st.db.menus[c].value.parent == Some(m) then st' == st
          else
            && (forall r :: (r, m) !in st'.db.roleMenu) && !Present(st'.db.menus, m)
            && forall u :: RolesOf(st'.db, u).Keys == RolesOf(st.db, u).Keys && forall r :: r in RolesOf(st.db, u) ==>
                 RolesOf(st'.db, u)[r] == RolesOf(st.db, u)[r].(menus := RolesOf(st.db, u)[r].menus - {m}))
  {
    DeleteMenuClearsNobody(st, m);
    var st' := DeleteMenu(st, m);
    if HasChildMenus(st.db, m) {
      var c :| c in st.db.menus && !st.db.menus[c].deleted && st.db.menus[c].value.parent == Some(m);
      assert Present(st.db.menus, c);
    } else if Present(st.db.menus, m) {
      DeleteMenuTables(st, m);
      forall u ensures RolesOf(st'.db, u).Keys == RolesOf(st.db, u).Keys && forall r :: r in RolesOf(st.db, u) ==>
        RolesOf(st'.db, u)[r] == RolesOf(st.db, u)[r].(menus := RolesOf(st.db, u)[r].menus - {m})
      {
        WithoutMenu(st.db, m, u);
      }
      hide RolesOf, DeleteMenu;
    } else {
      AbsentMenuJoins(st, m);
      hide RolesOf;
    }
  }

  lemma AbsentMenuJoins(st: State, m: int)
    requires !Present(st.db.menus, m) && !HasChildMenus(st.db, m)
    ensures var db' := DeleteMenu(st, m).db;
      forall u :: RolesOf(db', u).Keys == RolesOf(st.db, u).Keys && forall r :: r in RolesOf(st.db, u) ==>
        RolesOf(db', u)[r] == RolesOf(st.db, u)[r].(menus := RolesOf(st.db, u)[r].menus - {m})
  {
    var db, db' := st.db, DeleteMenu(st, m).db;
    forall s ensures RulesOf(db', s) == RulesOf(db, s) {}
    hide RulesOf;
    forall r ensures ScopesOf(db', r) == ScopesOf(db, r) && MenusOf(db', r) == MenusOf(db, r) - {m} {
      assert ScopesOf(db', r) == ScopesOf(db, r);
      assert MenusOf(db', r) == MenusOf(db, r) - {m};
    }
    hide ScopesOf, MenusOf;
  }

  // ---------------------------------------------------------------- scopes and rules

  /** The role shows one of the scopes. */
  ghost predicate UsesScope(db: Db, r: int, ss: set<int>) {
    exists s :: s in ss && (r, s) in db.roleScope
  }

  /** The role shows a scope with one of the rules. */
  ghost predicate UsesRule(db: Db, r: int, qs: set<int>) {
    exists s :: (r, s) in db.roleScope && UsesAny(db, s, qs)
  }

  ghost predicate UsesAny(db: Db, s: int, qs: set<int>) {
    exists q :: q in qs && (s, q) in db.scopeRule
  }

  lemma ClearedByScopes(st: State, db': Db, ss: set<int>)
    requires db' == st.db.(scopes := db'.scopes, scopeRule := db'.scopeRule)
    ensures ClearedThrough(st, ClearByScopes(st.(db := db'), ss), iset r | UsesScope(st.db, r, ss))
  {
    var roles := iset r | UsesScope(st.db, r, ss);
    forall r ensures r in RolesOfScopes(db', ss) <==> r in roles {
      if UsesScope(st.db, r, ss) {
        var s :| s in ss && (r, s) in st.db.roleScope;
        assert (r, s).1 in ss && (r, s).0 == r;
      }
      if r in RolesOfScopes(db', ss) {
        var p :| p in db'.roleScope && p.1 in ss && p.0 == r;
        var s: int := p.1;
        assert p == (r, s) && s in ss;
      }
    }
    HoldersAre(db', RolesOfScopes(db', ss), roles);
    hide UsersOfRoles, RolesOfScopes;
  }

  /** Every join is as before, but for one scope wherever it is shown, and that one is as given. */
  ghost predicate ScopeReplaced(db: Db, db': Db, s: int, view: ScopeView) {
    forall u :: RolesOf(db', u).Keys == RolesOf(db, u).Keys && forall r :: r in RolesOf(db, u) ==>
      var before := RolesOf(db, u)[r];
      RolesOf(db', u)[r] == before.(scopes := if s in before.scopes then before.scopes[s := view] else before.scopes)
  }

  lemma ReplacedScope(db: Db, db': Db, s: int, view: ScopeView)
    requires ScopesDiffer(db, db', {s}) && Present(db.scopes, s) && Present(db'.scopes, s)
    requires view == ScopeView(db'.scopes[s].value, RulesOf(db', s))
    ensures ScopeReplaced(db, db', s, view)
  {
    forall x | x != s ensures SameRow(db.scopes, db'.scopes, x) && RulesOf(db', x) == RulesOf(db, x) {
      assert x !in {s};
      assert SameRow(db.scopes, db'.scopes, x);
      SameRules(db, db', x);
    }
    forall r ensures MenusOf(db', r) == MenusOf(db, r) {}
    hide MenusOf, RulesOf, ScopesDiffer;
    assert db'.roleScope == db.roleScope && db'.userRole == db.userRole && db'.roles == db.roles;
    forall r
      ensures ScopesOf(db', r) == if s in ScopesOf(db, r) then ScopesOf(db, r)[s := view] else ScopesOf(db, r) {}
    hide ScopesOf;
  }

  /** An updated scope has its new row wherever it is shown, with the rules it had. */
  lemma UpdateScopeEffect(st: State, s: int, data: int)
    ensures var st' := UpdateScope(st, s, data);
      if Present(st.db.scopes, s) then
        && ClearedThrough(st, st', iset r | UsesScope(st.db, r, {s}))
        && ScopeReplaced(st.db, st'.db, s, ScopeView(data, RulesOf(st.db, s)))
      else st' == st
  {
    if Present(st.db.scopes, s) {
      var db' := st.db.(scopes := Amend(st.db.scopes, s, data));
      assert RulesOf(db', s) == RulesOf(st.db, s);
      ReplacedScope(st.db, db', s, ScopeView(data, RulesOf(db', s)));
      ClearedByScopes(st, db', {s});
    }
    hide ScopeReplaced, ClearedThrough;
  }

  /** A scope given new rules has exactly those, as stored, wherever it is shown. */
  lemma UpdateScopeRulesEffect(st: State, s: int, qs: set<int>)
    ensures var st' := UpdateScopeRules(st, s, qs);
      if Present(st.db.scopes, s) && (forall q :: q in qs ==> Present(st.db.rules, q)) then
        && ClearedThrough(st, st', iset r | UsesScope(st.db, r, {s}))
        && ScopeReplaced(st.db, st'.db, s, ScopeView(st.db.scopes[s].value, map q | q in qs :: st.db.rules[q].value))
      else st' == st
  {
    if Present(st.db.scopes, s) && AllPresent(st.db.rules, qs) {
      var db' := st.db.(scopeRule := Relink(st.db.scopeRule, s, qs));
      RelinkedRules(st, s, qs);
      assert RulesOf(db', s) == map q | q in qs :: st.db.rules[q].value;
      ReplacedScope(st.db, db', s, ScopeView(st.db.scopes[s].value, RulesOf(db', s)));
      ClearedByScopes(st, db', {s});
    }
    hide ScopeReplaced, ClearedThrough;
  }

  /** Deleted scopes vanish from every join, and nothing else does. */
  lemma DeleteScopesEffect(st: State, ss: set<int>)
    ensures var st' := DeleteScopes(st, ss);
      && ClearedThrough(st, st', iset r | UsesScope(st.db, r, ss))
      && forall u :: RolesOf(st'.db, u).Keys == RolesOf(st.db, u).Keys && forall r :: r in RolesOf(st.db, u) ==>
           RolesOf(st'.db, u)[r] == RolesOf(st.db, u)[r].(scopes := RolesOf(st.db, u)[r].scopes - ss)
  {
    var db' := st.db.(scopes := Retire(st.db.scopes, ss));
    ClearedByScopes(st, db', ss);
    forall s ensures RulesOf(db', s) == RulesOf(st.db, s) {}
    forall r ensures MenusOf(db', r) == MenusOf(st.db, r) {}
    hide MenusOf, RulesOf;
    forall r ensures ScopesOf(db', r) == ScopesOf(st.db, r) - ss {}
    hide ScopesOf, ClearedThrough;
  }

  lemma ClearedByRules(st: State, db': Db, qs: set<int>)
    requires db' == st.db.(rules := db'.rules)
    ensures ClearedThrough(st, ClearByRules(st.(db := db'), qs),
      iset r | UsesRule(st.db, r, qs))
  {
    var roles := iset r | UsesRule(st.db, r, qs);
    var ss := ScopesOfRules(db', qs);
    forall s ensures s in ss <==> UsesAny(st.db, s, qs) {
      if UsesAny(st.db, s, qs) {
        var q :| q in qs && (s, q) in st.db.scopeRule;
        assert (s, q).1 in qs && (s, q).0 == s;
      }
      if s in ss {
        var x :| x in db'.scopeRule && x.1 in qs && x.0 == s;
        var q: int := x.1;
        assert x == (s, q) && q in qs;
      }
    }
    hide ScopesOfRules, UsesAny;
    forall r ensures r in RolesOfScopes(db', ss) <==> r in roles {
      if UsesRule(st.db, r, qs) {
        var s :| (r, s) in st.db.roleScope && UsesAny(st.db, s, qs);
        assert (r, s).1 in ss && (r, s).0 == r;
      }
      if r in RolesOfScopes(db', ss) {
        var p :| p in db'.roleScope && p.1 in ss && p.0 == r;
        var s: int := p.1;
        assert p == (r, s) && s in ss;
      }
    }
    HoldersAre(db', RolesOfScopes(db', ss), roles);
    hide UsersOfRoles, RolesOfScopes, ScopesOfRules;
  }

  /** Every join is as before, but for the rules of the scopes shown, which are as `change` makes them. */
  ghost predicate RulesChanged(db: Db, db': Db, change: map<int, int> -> map<int, int>) {
    forall u :: RolesOf(db', u).Keys == RolesOf(db, u).Keys && forall r :: r in RolesOf(db, u) ==>
      var (before, after) := (RolesOf(db, u)[r], RolesOf(db', u)[r]);
      && after.role == before.role && after.menus == before.menus && after.scopes.Keys == before.scopes.Keys
      && forall s :: s in before.scopes ==>
           after.scopes[s] == ScopeView(before.scopes[s].data, change(before.scopes[s].rules))
  }

  lemma ChangedRules(db: Db, db': Db, change: map<int, int> -> map<int, int>)
    requires db' == db.(rules := db'.rules) && forall s :: RulesOf(db', s) == change(RulesOf(db, s))
    ensures RulesChanged(db, db', change)
  {
    forall r ensures MenusOf(db', r) == MenusOf(db, r) {}
    hide MenusOf, RulesOf;
    forall r
      ensures ScopesOf(db', r).Keys == ScopesOf(db, r).Keys
      ensures forall s :: s in ScopesOf(db, r) ==>
        ScopesOf(db', r)[s] == ScopeView(ScopesOf(db, r)[s].data, change(ScopesOf(db, r)[s].rules)) {}
    hide ScopesOf;
  }

  /** An updated rule has its new row wherever it is shown. */
  lemma UpdateRuleEffect(st: State, q: int, data: int)
    ensures var st' := UpdateRule(st, q, data);
      if Present(st.db.rules, q) then
        && ClearedThrough(st, st', iset r | UsesRule(st.db, r, {q}))
        && RulesChanged(st.db, st'.db, (rules: map<int, int>) => if q in rules then rules[q := data] else rules)
      else st' == st
  {
    if Present(st.db.rules, q) {
      var db' := st.db.(rules := Amend(st.db.rules, q, data));
      var change := (rules: map<int, int>) => if q in rules then rules[q := data] else rules;
      forall s ensures RulesOf(db', s) == change(RulesOf(st.db, s)) {}
      ChangedRules(st.db, db', change);
      ClearedByRules(st, db', {q});
    }
    hide RulesChanged, ClearedThrough;
  }

  /** Deleted rules vanish from every join, and nothing else does. */
  lemma DeleteRulesEffect(st: State, qs: set<int>)
    ensures var st' := DeleteRules(st, qs);
      && ClearedThrough(st, st', iset r | UsesRule(st.db, r, qs))
      && RulesChanged(st.db, st'.db, (rules: map<int, int>) => rules - qs)
  {
    var db' := st.db.(rules := Retire(st.db.rules, qs));
    var change := (rules: map<int, int>) => rules - qs;
    forall s ensures RulesOf(db', s) == change(RulesOf(st.db, s)) {}
    ChangedRules(st.db, db', change);
    ClearedByRules(st, db', qs);
    hide RulesChanged, ClearedThrough;
  }

  // ---------------------------------------------------------------- new rows and departments

  /** The table gained exactly this row. */
  ghost predicate RowAdded<T>(t: Table<T>, t': Table<T>, id: int, value: T) {
    id in t' && t'[id] == Row(value, false) && forall x :: x != id ==> SameRow(t, t', x)
  }

  lemma Inserted<T>(t: Table<T>, id: int, value: T)
    ensures if id in t then Insert(t, id, value) == t else RowAdded(t, Insert(t, id, value), id, value)
  {
  }

  lemma Amended<T>(t: Table<T>, id: int, value: T)
    ensures if Present(t, id) then RowAdded(t, Amend(t, id, value), id, value) else Amend(t, id, value) == t
  {
  }

  /** A new role, scope or rule is added under a free id, and nothing else changes. */
  lemma CreateRowEffects(st: State, id: int, role: Role, data: int)
    ensures var st' := CreateRole(st, id, role);
      && st' == st.(db := st.db.(roles := st'.db.roles))
      && if id in st.db.roles then st' == st else RowAdded(st.db.roles, st'.db.roles, id, role)
    ensures var st' := CreateScope(st, id, data);
      && st' == st.(db := st.db.(scopes := st'.db.scopes))
      && if id in st.db.scopes then st' == st else RowAdded(st.db.scopes, st'.db.scopes, id, data)
    ensures var st' := CreateRule(st, id, data);
      && st' == st.(db := st.db.(rules := st'.db.rules))
      && if id in st.db.rules then st' == st else RowAdded(st.db.rules, st'.db.rules, id, data)
  {
    hide Insert, RowAdded;
    Inserted(st.db.roles, id, role);
    Inserted(st.db.scopes, id, data);
    Inserted(st.db.rules, id, data);
  }

  /** A new menu or department needs its parent, too. */
  lemma CreateChildEffects(st: State, id: int, menu: Menu, dept: Dept)
    ensures var st' := CreateMenu(st, id, menu);
      && st' == st.(db := st.db.(menus := st'.db.menus))
      && if id in st.db.menus || (menu.parent.Some? && !Present(st.db.menus, menu.parent.value)) then st' == st
         else RowAdded(st.db.menus, st'.db.menus, id, menu)
    ensures var st' := CreateDept(st, id, dept);
      && st' == st.(db := st.db.(depts := st'.db.depts))
      && if id in st.db.depts || (dept.parent.Some? && !Present(st.db.depts, dept.parent.value)) then st' == st
         else RowAdded(st.db.depts, st'.db.depts, id, dept)
  {
    hide Insert, RowAdded;
    Inserted(st.db.menus, id, menu);
    Inserted(st.db.depts, id, dept);
  }

  /** A department that is there gets its new row, unless its new parent is missing or itself.  No entry is cleared. */
  lemma UpdateDeptEffect(st: State, d: int, dept: Dept)
    ensures var st' := UpdateDept(st, d, dept);
      && st' == st.(db := st.db.(depts := st'.db.depts))
      && if Present(st.db.depts, d) && dept.parent != Some(d)
            && (dept.parent == None || Present(st.db.depts, dept.parent.value))
         then RowAdded(st.db.depts, st'.db.depts, d, dept) else st' == st
  {
    hide Amend, RowAdded;
    Amended(st.db.depts, d, dept);
  }

  /** A department with users or subdepartments is not deleted.  No entry is cleared. */
  lemma DeleteDeptEffect(st: State, d: int)
    ensures var st' := DeleteDept(st, d);
      && st' == st.(db := st.db.(depts := st'.db.depts))
      && if (exists u :: Present(st.db.users, u) && st.db.users[u].value.dept == Some(d)) ||
            (exists c :: Present(st.db.depts, c) && st.db.depts[c].value.parent == Some(d))
         then st' == st
         else !Present(st'.db.depts, d) && forall x :: x != d ==> SameRow(st.db.depts, st'.db.depts, x)
  {
    if Staffed(st.db, d) {
      if u :| u in st.db.users && !st.db.users[u].deleted && st.db.users[u].value.dept == Some(d) {
        assert Present(st.db.users, u);
      } else {
        var c :| c in st.db.depts && !st.db.depts[c].deleted && st.db.depts[c].value.parent == Some(d);
        assert Present(st.db.depts, c);
      }
    }
  }

  // ---------------------------------------------------------------- requests

  /** Every role that the user holds is locked, and there is one. */
  ghost predicate HeldRolesLocked(db: Db, u: int) {
    && (exists r :: Holds(db, u, r))
    && forall r :: Holds(db, u, r) ==> !db.roles[r].value.enabled
  }

  predicate Holds(db: Db, u: int, r: int) {
    Present(db.roles, r) && (u, r) in db.userRole
  }

  /** A lookup answers with the join, or with the first reason to refuse. */
  lemma AvailableCases(db: Db, u: int)
    ensures var access := Available(db, u);
      if !Present(db.users, u) then access == InvalidToken else
      var account := db.users[u].value;
      if !account.enabled then access == UserLocked
      else if account.dept.Some? && !Present(db.depts, account.dept.value) then access == DeptMissing
      else if account.dept.Some? && !db.depts[account.dept.value].value.enabled then access == DeptLocked
      else if HeldRolesLocked(db, u) then access == RolesLocked
      else access == Served(Join(db, u))
  {
    hide MenusOf, ScopesOf;
    var roles := RolesOf(db, u);
    forall r ensures r in roles <==> Holds(db, u, r) {}
    forall r | r in roles ensures roles[r].role == db.roles[r].value {}
    hide RolesOf, Holds;
    assert roles != map[] <==> exists r :: r in roles;
  }

  /** A request changes no table.  It is answered from a live entry, which stays as it is, or by a lookup, whose join
      is then kept for the configured time, for this user alone; a refusal leaves no entry. */
  lemma GetJwtUserEffect(st: State, u: int)
    ensures var (st', access) := GetJwtUser(st, u);
      && st'.db == st.db && st'.now == st.now && st'.ttl == st.ttl
      && (forall v :: v != u ==> (v in st'.cache <==> v in st.cache) && (v in st.cache ==> st'.cache[v] == st.cache[v]))
      && (Live(st.cache, u, st.now) ==> st' == st && access == Served(st.cache[u].value))
      && (!Live(st.cache, u, st.now) ==> access == Available(st.db, u))
      && (!Live(st.cache, u, st.now) && !access.Served? ==> st' == st)
      && (!Live(st.cache, u, st.now) && access.Served? ==>
            forall t :: Get(st'.cache, u, t) == if t < st.now + st.ttl then Some(access.view) else None)
  {
    hide Available;
  }

  /** The clock alone moves. */
  lemma ClockMoves(st: State, seconds: nat)
    ensures var st' := Apply(st, DoTick(seconds)); st'.now - st.now == seconds && st' == st.(now := st'.now)
  {
  }
}
