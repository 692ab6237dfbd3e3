/** The per-user authorization cache: the administration tables, the five-table join that a
    cached entry snapshots, and the operations that change tables and invalidate entries. */
module UserCacheModel {
  import opened Wrappers
  import opened TimedMaps

  // ---------------------------------------------------------------- tables

  /** A row with its logical deletion mark. */
  datatype Row<+T> = Row(value: T, deleted: bool)

  type Table<T> = map<int, Row<T>>

  /** An association table: pairs of ids. */
  type Links = set<(int, int)>

  datatype Account = Account(profile: int, dept: Option<int>, enabled: bool, superuser: bool, staff: bool, multi: bool)

  datatype Dept = Dept(parent: Option<int>, enabled: bool, data: int)

  datatype Role = Role(enabled: bool, data: int)

  datatype Menu = Menu(parent: Option<int>, data: int)

  datatype Db = Db(
    users: Table<Account>, depts: Table<Dept>, roles: Table<Role>, menus: Table<Menu>,
    scopes: Table<int>, rules: Table<int>,
    userRole: Links, roleMenu: Links, roleScope: Links, scopeRule: Links)

  predicate Present<T>(t: Table<T>, id: int) {
    id in t && !t[id].deleted
  }

  predicate AllPresent<T>(t: Table<T>, ids: set<int>) {
    forall id :: id in ids ==> Present(t, id)
  }

  /** A row is named, and it is not there. */
  predicate Missing<T>(t: Table<T>, id: Option<int>) {
    id.Some? && !Present(t, id.value)
  }

  /** INSERT under an id the database has not used. */
  function Insert<T>(t: Table<T>, id: int, value: T): Table<T> {
    if id in t then t else t[id := Row(value, false)]
  }

  /** UPDATE ... WHERE id = id AND deleted = 0. */
  function Amend<T>(t: Table<T>, id: int, value: T): Table<T> {
    if Present(t, id) then t[id := Row(value, false)] else t
  }

  /** Logical deletion. */
  function Retire<T>(t: Table<T>, ids: set<int>): Table<T> {
    map id | id in t :: if id in ids then Row(t[id].value, true) else t[id]
  }

  /** DELETE of the links that leave `a`, then INSERT of links to `bs`. */
  function Relink(links: Links, a: int, bs: set<int>): Links {
    (set p | p in links && p.0 != a) + (set b | b in bs :: (a, b))
  }

  /** DELETE of the links that lead to `b`. */
  function Unlink(links: Links, b: int): Links {
    set p | p in links && p.1 != b
  }

  // ---------------------------------------------------------------- the join

  datatype ScopeView = ScopeView(data: int, rules: map<int, int>)

  datatype RoleView = RoleView(role: Role, menus: map<int, Menu>, scopes: map<int, ScopeView>)

  /** The user with its department, roles, and their menus, scopes and rules. */
  datatype View = View(account: Account, dept: Option<Dept>, roles: map<int, RoleView>)

  function RulesOf(db: Db, s: int): map<int, int> {
    map q | q in db.rules && !db.rules[q].deleted && (s, q) in db.scopeRule :: db.rules[q].value
  }

  function ScopesOf(db: Db, r: int): map<int, ScopeView> {
    map s | s in db.scopes && !db.scopes[s].deleted && (r, s) in db.roleScope ::
      ScopeView(db.scopes[s].value, RulesOf(db, s))
  }

  function MenusOf(db: Db, r: int): map<int, Menu> {
    map m | m in db.menus && !db.menus[m].deleted && (r, m) in db.roleMenu :: db.menus[m].value
  }

  function RolesOf(db: Db, u: int): map<int, RoleView> {
    map r | r in db.roles && !db.roles[r].deleted && (u, r) in db.userRole ::
      RoleView(db.roles[r].value, MenusOf(db, r), ScopesOf(db, r))
  }

  function DeptOf(db: Db, account: Account): Option<Dept> {
    if account.dept.Some? && Present(db.depts, account.dept.value)
    then Some(db.depts[account.dept.value].value) else None
  }

  function Join(db: Db, u: int): View
    requires Present(db.users, u)
  {
    var account := db.users[u].value;
    View(account, DeptOf(db, account), RolesOf(db, u))
  }

  datatype Access = Served(view: View) | InvalidToken | UserLocked | DeptMissing | DeptLocked | RolesLocked

  predicate AllRolesLocked(roles: map<int, RoleView>) {
    roles != map[] && forall r :: r in roles ==> !roles[r].role.enabled
  }

  /** The lookup behind a cache miss: the join, or the reason to refuse. */
  function Available(db: Db, u: int): Access {
    if !Present(db.users, u) then InvalidToken
    else
      var view := Join(db, u);
      if !view.account.enabled then UserLocked
      else if view.account.dept.Some? && view.dept.None? then DeptMissing
      else if view.dept.Some? && !view.dept.value.enabled then DeptLocked
      else if AllRolesLocked(view.roles) then RolesLocked
      else Served(view)
  }

  // ---------------------------------------------------------------- the cache

  datatype State = State(db: Db, cache: map<int, Timed<View>>, now: int, ttl: nat)

  function Clear(st: State, us: set<int>): State {
    st.(cache := st.cache - us)
  }

  function UsersOfRoles(db: Db, rs: set<int>): set<int> {
    set p | p in db.userRole && p.1 in rs :: p.0
  }

  function RolesOfMenus(db: Db, ms: set<int>): set<int> {
    set p | p in db.roleMenu && p.1 in ms :: p.0
  }

  function RolesOfScopes(db: Db, ss: set<int>): set<int> {
    set p | p in db.roleScope && p.1 in ss :: p.0
  }

  function ScopesOfRules(db: Db, qs: set<int>): set<int> {
    set p | p in db.scopeRule && p.1 in qs :: p.0
  }

  function ClearByRoles(st: State, rs: set<int>): State {
    Clear(st, UsersOfRoles(st.db, rs))
  }

  function ClearByMenus(st: State, ms: set<int>): State {
    Clear(st, UsersOfRoles(st.db, RolesOfMenus(st.db, ms)))
  }

  function ClearByScopes(st: State, ss: set<int>): State {
    Clear(st, UsersOfRoles(st.db, RolesOfScopes(st.db, ss)))
  }

  function ClearByRules(st: State, qs: set<int>): State {
    Clear(st, UsersOfRoles(st.db, RolesOfScopes(st.db, ScopesOfRules(st.db, qs))))
  }

  /** What authentication hands on: the cached entry, or a fresh lookup that is then cached. */
  function GetJwtUser(st: State, u: int): (State, Access) {
    if Live(st.cache, u, st.now) then (st, Served(st.cache[u].value))
    else
      var access := Available(st.db, u);
      (if access.Served? then st.(cache := st.cache[u := Timed(access.view, st.now + st.ttl)]) else st, access)
  }

  // ---------------------------------------------------------------- users

  /** Only a registration from outside names no department. */
  function CreateUser(st: State, u: int, account: Account, rs: set<int>): State {
    if u in st.db.users || Missing(st.db.depts, account.dept) || !AllPresent(st.db.roles, rs) then st
    else st.(db := st.db.(users := Insert(st.db.users, u, account), userRole := Relink(st.db.userRole, u, rs)))
  }

  /** A department the user is to move to; an id of zero is not looked up. */
  predicate Unmovable(db: Db, account: Account, home: Option<int>) {
    home != Some(0) && home != account.dept && Missing(db.depts, home)
  }

  function UpdateUser(st: State, u: int, profile: int, home: Option<int>, rs: set<int>): State {
    if !Present(st.db.users, u) || Unmovable(st.db, st.db.users[u].value, home) || !AllPresent(st.db.roles, rs) then st
    else
      var account := st.db.users[u].value.(profile := profile, dept := home);
      Clear(st.(db := st.db.(users := Amend(st.db.users, u, account), userRole := Relink(st.db.userRole, u, rs))), {u})
  }

  /** Nickname, avatar, e-mail and password changes. */
  function UpdateProfile(st: State, u: int, profile: int): State {
    if !Present(st.db.users, u) then Clear(st, {u})
    else Clear(st.(db := st.db.(users := Amend(st.db.users, u, st.db.users[u].value.(profile := profile)))), {u})
  }

  datatype Flag = Superuser | Staff | Status | MultiLogin

  /** `seen` is the multi-login flag that the requester's own request carries. */
  function Toggled(account: Account, flag: Flag, self: bool, seen: bool): Account {
    match flag
    case Superuser => account.(superuser := !account.superuser)
    case Staff => account.(staff := !account.staff)
    case Status => account.(enabled := !account.enabled)
    case MultiLogin => account.(multi := if self then !seen else !account.multi)
  }

  function UpdatePermission(st: State, requester: int, u: int, flag: Flag, seen: bool): State {
    if !Present(st.db.users, u) || (u == requester && !flag.MultiLogin?) then st
    else
      var account := Toggled(st.db.users[u].value, flag, u == requester, seen);
      Clear(st.(db := st.db.(users := Amend(st.db.users, u, account))), {u})
  }

  function DeleteUser(st: State, u: int): State {
    if !Present(st.db.users, u) then st
    else Clear(st.(db := st.db.(users := Retire(st.db.users, {u}), userRole := Relink(st.db.userRole, u, {}))), {u})
  }

  // ---------------------------------------------------------------- roles

  function CreateRole(st: State, r: int, role: Role): State {
    st.(db := st.db.(roles := Insert(st.db.roles, r, role)))
  }

  function UpdateRole(st: State, r: int, role: Role): State {
    if !Present(st.db.roles, r) then st
    else ClearByRoles(st.(db := st.db.(roles := Amend(st.db.roles, r, role))), {r})
  }

  function UpdateRoleMenus(st: State, r: int, ms: set<int>): State {
    if !Present(st.db.roles, r) || !AllPresent(st.db.menus, ms) then st
    else ClearByRoles(st.(db := st.db.(roleMenu := Relink(st.db.roleMenu, r, ms))), {r})
  }

  function UpdateRoleScopes(st: State, r: int, ss: set<int>): State {
    if !Present(st.db.roles, r) || !AllPresent(st.db.scopes, ss) then st
    else ClearByRoles(st.(db := st.db.(roleScope := Relink(st.db.roleScope, r, ss))), {r})
  }

  function DeleteRoles(st: State, rs: set<int>): State {
    ClearByRoles(st.(db := st.db.(roles := Retire(st.db.roles, rs))), rs)
  }

  // ---------------------------------------------------------------- menus

  function CreateMenu(st: State, m: int, menu: Menu): State {
    if Missing(st.db.menus, menu.parent) then st
    else st.(db := st.db.(menus := Insert(st.db.menus, m, menu)))
  }

  function UpdateMenu(st: State, m: int, menu: Menu): State {
    if !Present(st.db.menus, m) || Missing(st.db.menus, menu.parent) || menu.parent == Some(m) then st
    else ClearByMenus(st.(db := st.db.(menus := Amend(st.db.menus, m, menu))), {m})
  }

  predicate HasChildMenus(db: Db, m: int) {
    exists c :: c in db.menus && !db.menus[c].deleted && db.menus[c].value.parent == Some(m)
  }

  /** The links of the menu go first; the query for the users to clear runs after that. */
  function DeleteMenu(st: State, m: int): State {
    if HasChildMenus(st.db, m) then st
    else
      var unlinked := st.(db := st.db.(roleMenu := Unlink(st.db.roleMenu, m)));
      if !Present(st.db.menus, m) then unlinked
      else ClearByMenus(unlinked.(db := unlinked.db.(menus := Retire(st.db.menus, {m}))), {m})
  }

  // ---------------------------------------------------------------- scopes and rules

  function CreateScope(st: State, s: int, data: int): State {
    st.(db := st.db.(scopes := Insert(st.db.scopes, s, data)))
  }

  function UpdateScope(st: State, s: int, data: int): State {
    if !Present(st.db.scopes, s) then st
    else ClearByScopes(st.(db := st.db.(scopes := Amend(st.db.scopes, s, data))), {s})
  }

  function UpdateScopeRules(st: State, s: int, qs: set<int>): State {
    if !Present(st.db.scopes, s) || !AllPresent(st.db.rules, qs) then st
    else ClearByScopes(st.(db := st.db.(scopeRule := Relink(st.db.scopeRule, s, qs))), {s})
  }

  function DeleteScopes(st: State, ss: set<int>): State {
    ClearByScopes(st.(db := st.db.(scopes := Retire(st.db.scopes, ss))), ss)
  }

  function CreateRule(st: State, q: int, data: int): State {
    st.(db := st.db.(rules := Insert(st.db.rules, q, data)))
  }

  function UpdateRule(st: State, q: int, data: int): State {
    if !Present(st.db.rules, q) then st
    else ClearByRules(st.(db := st.db.(rules := Amend(st.db.rules, q, data))), {q})
  }

  function DeleteRules(st: State, qs: set<int>): State {
    ClearByRules(st.(db := st.db.(rules := Retire(st.db.rules, qs))), qs)
  }

  // ---------------------------------------------------------------- departments

  function CreateDept(st: State, d: int, dept: Dept): State {
    if Missing(st.db.depts, dept.parent) then st
    else st.(db := st.db.(depts := Insert(st.db.depts, d, dept)))
  }

  /** No entry is cleared. */
  function UpdateDept(st: State, d: int, dept: Dept): State {
    if Missing(st.db.depts, dept.parent) || dept.parent == Some(d) then st
    else st.(db := st.db.(depts := Amend(st.db.depts, d, dept)))
  }

  predicate Staffed(db: Db, d: int) {
    || (exists u :: u in db.users && !db.users[u].deleted && db.users[u].value.dept == Some(d))
    || (exists c :: c in db.depts && !db.depts[c].deleted && db.depts[c].value.parent == Some(d))
  }

  function DeleteDept(st: State, d: int): State {
    if Staffed(st.db, d) then st else st.(db := st.db.(depts := Retire(st.db.depts, {d})))
  }

  // ---------------------------------------------------------------- runs

  /** Every step but the deletion of a menu. */
  datatype Step =
    | DoGetJwtUser(u: int)
    | DoCreateUser(u: int, account: Account, rs: set<int>)
    | DoUpdateUser(u: int, profile: int, home: Option<int>, rs: set<int>)
    | DoUpdateProfile(u: int, profile: int)
    | DoUpdatePermission(requester: int, u: int, flag: Flag, seen: bool)
    | DoDeleteUser(u: int)
    | DoCreateRole(r: int, role: Role)
    | DoUpdateRole(r: int, role: Role)
    | DoUpdateRoleMenus(r: int, ms: set<int>)
    | DoUpdateRoleScopes(r: int, ss: set<int>)
    | DoDeleteRoles(rs: set<int>)
    | DoCreateMenu(m: int, menu: Menu)
    | DoUpdateMenu(m: int, menu: Menu)
    | DoCreateScope(s: int, data: int)
    | DoUpdateScope(s: int, data: int)
    | DoUpdateScopeRules(s: int, qs: set<int>)
    | DoDeleteScopes(ss: set<int>)
    | DoCreateRule(q: int, data: int)
    | DoUpdateRule(q: int, data: int)
    | DoDeleteRules(qs: set<int>)
    | DoCreateDept(d: int, dept: Dept)
    | DoUpdateDept(d: int, dept: Dept)
    | DoDeleteDept(d: int)
    | DoTick(seconds: nat)

  function Apply(st: State, step: Step): State {
    match step
    case DoGetJwtUser(u) => GetJwtUser(st, u).0
    case DoCreateUser(u, account, rs) => CreateUser(st, u, account, rs)
    case DoUpdateUser(u, profile, home, rs) => UpdateUser(st, u, profile, home, rs)
    case DoUpdateProfile(u, profile) => UpdateProfile(st, u, profile)
    case DoUpdatePermission(requester, u, flag, seen) => UpdatePermission(st, requester, u, flag, seen)
    case DoDeleteUser(u) => DeleteUser(st, u)
    case DoCreateRole(r, role) => CreateRole(st, r, role)
    case DoUpdateRole(r, role) => UpdateRole(st, r, role)
    case DoUpdateRoleMenus(r, ms) => UpdateRoleMenus(st, r, ms)
    case DoUpdateRoleScopes(r, ss) => UpdateRoleScopes(st, r, ss)
    case DoDeleteRoles(rs) => DeleteRoles(st, rs)
    case DoCreateMenu(m, menu) => CreateMenu(st, m, menu)
    case DoUpdateMenu(m, menu) => UpdateMenu(st, m, menu)
    case DoCreateScope(s, data) => CreateScope(st, s, data)
    case DoUpdateScope(s, data) => UpdateScope(st, s, data)
    case DoUpdateScopeRules(s, qs) => UpdateScopeRules(st, s, qs)
    case DoDeleteScopes(ss) => DeleteScopes(st, ss)
    case DoCreateRule(q, data) => CreateRule(st, q, data)
    case DoUpdateRule(q, data) => UpdateRule(st, q, data)
    case DoDeleteRules(qs) => DeleteRules(st, qs)
    case DoCreateDept(d, dept) => CreateDept(st, d, dept)
    case DoUpdateDept(d, dept) => UpdateDept(st, d, dept)
    case DoDeleteDept(d) => DeleteDept(st, d)
    case DoTick(seconds) => st.(now := st.now + seconds)
  }

  function Exec(st: State, steps: seq<Step>): State {
    if steps == [] then st else Apply(Exec(st, steps[..|steps| - 1]), steps[|steps| - 1])
  }

  function Empty(now: int, ttl: nat): State {
    State(Db(map[], map[], map[], map[], map[], map[], {}, {}, {}, {}), map[], now, ttl)
  }
}
