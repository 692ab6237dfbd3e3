/** Runs in which menus are deleted too: a cached entry is out of date by deleted menus and by nothing else. */
module UserCacheMenus {
  import opened Wrappers
  import opened TimedMaps
  import opened UserCacheModel
  import opened UserCacheCoherence
  import opened UserCacheTheorems

  // ---------------------------------------------------------------- the weaker agreement

  /** The menus that are there, among those shown. */
  function StillThere(db: Db, menus: map<int, Menu>): map<int, Menu> {
    map m | m in menus && Present(db.menus, m) :: menus[m]
  }

  /** The shown role is that of the tables once deleted menus are left out; no menu shown was ever unknown. */
  ghost predicate RoleButMenus(db: Db, shown: RoleView, now: RoleView) {
    && shown.role == now.role && shown.scopes == now.scopes
    && StillThere(db, shown.menus) == now.menus
    && forall m :: m in shown.menus ==> m in db.menus
  }

  ghost predicate RolesButMenus(db: Db, shown: map<int, RoleView>, now: map<int, RoleView>) {
    shown.Keys == now.Keys && forall r :: r in shown ==> RoleButMenus(db, shown[r], now[r])
  }

  ghost predicate AgreesButMenus(db: Db, u: int, view: View) {
    && Present(db.users, u)
    && view.account == db.users[u].value
    && RolesButMenus(db, view.roles, RolesOf(db, u))
    && view.account.enabled
    && !AllRolesLocked(view.roles)
  }

  ghost predicate InvButMenus(st: State) {
    Integral(st.db) && forall u :: u in st.cache ==> AgreesButMenus(st.db, u, st.cache[u].value)
  }

  /** No menu row disappears, and none is deleted or brought back. */
  ghost predicate MenusStay(db: Db, db': Db) {
    forall m :: m in db.menus ==> m in db'.menus && (Present(db'.menus, m) <==> Present(db.menus, m))
  }

  // ---------------------------------------------------------------- steps without menu deletion

  lemma MenusStayRoles(db: Db, db': Db, shown: map<int, RoleView>, now: map<int, RoleView>)
    requires MenusStay(db, db') && RolesButMenus(db, shown, now)
    ensures RolesButMenus(db', shown, now)
  {
    forall r | r in shown ensures RoleButMenus(db', shown[r], now[r]) {
      assert RoleButMenus(db, shown[r], now[r]);
      assert StillThere(db', shown[r].menus) == StillThere(db, shown[r].menus);
    }
  }

  lemma SurvivorsAgreeButMenus(st: State, st': State)
    requires InvButMenus(st) && Follows(st, st') && MenusStay(st.db, st'.db)
    ensures InvButMenus(st')
  {
    hide RolesOf, Integral, MenusStay, RolesButMenus, AllRolesLocked;
    forall u | u in st'.cache ensures AgreesButMenus(st'.db, u, st'.cache[u].value) {
      assert SameJoin(st.db, st'.db, u) && AgreesButMenus(st.db, u, st.cache[u].value);
      MenusStayRoles(st.db, st'.db, st.cache[u].value.roles, RolesOf(st.db, u));
    }
  }

  lemma StepMenusStay(st: State, step: Step)
    ensures MenusStay(st.db, Apply(st, step).db)
  {
    hide Apply;
    match step
    case DoCreateMenu(m, menu) => NewMenuStays(st, m, menu);
    case DoUpdateMenu(m, menu) => NewMenuStays(st, m, menu);
    case _ => OthersKeepMenus(st, step);
  }

  lemma NewMenuStays(st: State, m: int, menu: Menu)
    ensures MenusStay(st.db, Apply(st, DoCreateMenu(m, menu)).db)
    ensures MenusStay(st.db, Apply(st, DoUpdateMenu(m, menu)).db)
  {
  }

  lemma OthersKeepMenus(st: State, step: Step)
    requires !step.DoCreateMenu? && !step.DoUpdateMenu?
    ensures Apply(st, step).db.menus == st.db.menus
  {
    hide Relink, Toggled, HasChildMenus, Staffed, AllPresent, Present, RolesOf, Available, Insert, Amend, Retire,
      UsersOfRoles, RolesOfMenus, RolesOfScopes, ScopesOfRules, Missing, Unmovable, CreateMenu, UpdateMenu;
  }

  lemma InvButMenusIsFounded(st: State)
    requires InvButMenus(st)
    ensures Founded(st)
  {
    hide Integral, RolesButMenus, AllRolesLocked;
    forall u | u in st.cache ensures Present(st.db.users, u) { assert AgreesButMenus(st.db, u, st.cache[u].value); }
  }

  lemma FreshAgrees(db: Db, u: int)
    requires Available(db, u).Served?
    ensures AgreesButMenus(db, u, Available(db, u).view)
  {
    hide ScopesOf, AllRolesLocked, DeptOf;
    forall r | r in RolesOf(db, u) ensures RoleButMenus(db, RolesOf(db, u)[r], RolesOf(db, u)[r]) {
      assert StillThere(db, MenusOf(db, r)) == MenusOf(db, r);
    }
  }

  lemma GetJwtUserKeepsButMenus(st: State, u: int)
    requires InvButMenus(st)
    ensures InvButMenus(GetJwtUser(st, u).0)
  {
    if Available(st.db, u).Served? { FreshAgrees(st.db, u); }
    hide AgreesButMenus, Integral, Available;
  }

  // ---------------------------------------------------------------- menu deletion

  lemma DeletedMenuRoles(
    db: Db, db': Db, m: int, shown: map<int, RoleView>, now: map<int, RoleView>, now': map<int, RoleView>)
    requires RolesButMenus(db, shown, now) && db'.menus == Retire(db.menus, {m})
    requires now'.Keys == now.Keys && forall r :: r in now ==> now'[r] == now[r].(menus := now[r].menus - {m})
    ensures RolesButMenus(db', shown, now')
  {
    forall r | r in shown ensures RoleButMenus(db', shown[r], now'[r]) {
      assert RoleButMenus(db, shown[r], now[r]);
      assert StillThere(db', shown[r].menus) == StillThere(db, shown[r].menus) - {m};
    }
  }

  lemma DeleteMenuKeepsButMenus(st: State, m: int)
    requires InvButMenus(st)
    ensures InvButMenus(DeleteMenu(st, m))
  {
    var st' := DeleteMenu(st, m);
    DeleteMenuIntegral(st, m);
    DeleteMenuClearsNobody(st, m);
    if HasChildMenus(st.db, m) {
    } else if !Present(st.db.menus, m) {
      AbsentMenuUnlinked(st, m);
      hide Survives, DeleteMenu, Integral, AgreesButMenus;
      SurvivorsAgreeButMenus(st, st');
    } else {
      DeleteMenuTables(st, m);
      hide DeleteMenu, Integral, RolesOf, RolesButMenus, Retire, Unlink;
      forall u | u in st'.cache ensures AgreesButMenus(st'.db, u, st'.cache[u].value) {
        assert AgreesButMenus(st.db, u, st.cache[u].value);
        WithoutMenu(st.db, m, u);
        DeletedMenuRoles(st.db, st'.db, m, st.cache[u].value.roles, RolesOf(st.db, u), RolesOf(st'.db, u));
      }
    }
  }

  lemma DeleteMenuIntegral(st: State, m: int)
    requires Integral(st.db)
    ensures Integral(DeleteMenu(st, m).db)
  {
  }

  // ---------------------------------------------------------------- runs

  /** Every step, the deletion of a menu among them. */
  datatype AnyStep = Plain(step: Step) | DoDeleteMenu(m: int)

  function ApplyAny(st: State, step: AnyStep): State {
    match step
    case Plain(step) => Apply(st, step)
    case DoDeleteMenu(m) => DeleteMenu(st, m)
  }

  function ExecAny(st: State, steps: seq<AnyStep>): State {
    if steps == [] then st else ApplyAny(ExecAny(st, steps[..|steps| - 1]), steps[|steps| - 1])
  }

  lemma AnyStepKeepsInv(st: State, step: AnyStep)
    requires InvButMenus(st)
    ensures InvButMenus(ApplyAny(st, step))
  {
    hide InvButMenus, Apply, DeleteMenu, Founded, Follows, MenusStay;
    match step
    case DoDeleteMenu(m) => DeleteMenuKeepsButMenus(st, m);
    case Plain(s) =>
      if u :| s == DoGetJwtUser(u) {
        RequestIsStep(st, u);
        GetJwtUserKeepsButMenus(st, u);
      } else {
        InvButMenusIsFounded(st);
        StepFollows(st, s);
        StepMenusStay(st, s);
        SurvivorsAgreeButMenus(st, Apply(st, s));
      }
  }

  lemma {:induction false} AnyRunKeepsInv(now: int, ttl: nat, steps: seq<AnyStep>)
    ensures InvButMenus(ExecAny(Empty(now, ttl), steps))
    decreases |steps|
  {
    hide ApplyAny;
    if steps != [] {
      hide InvButMenus, Empty;
      AnyRunKeepsInv(now, ttl, steps[..|steps| - 1]);
      AnyStepKeepsInv(ExecAny(Empty(now, ttl), steps[..|steps| - 1]), steps[|steps| - 1]);
    }
  }

  /** Over every run of all the operations, a cached entry carries the account, roles and scopes of the join that the
      tables give now, and its menus that are still there are those of the join: it is out of date by deleted menus
      alone. */
  lemma {:induction false} StaleOnlyByDeletedMenus(now: int, ttl: nat, steps: seq<AnyStep>, u: int)
    requires u in ExecAny(Empty(now, ttl), steps).cache
    ensures var st := ExecAny(Empty(now, ttl), steps);
      && Present(st.db.users, u)
      && var (shown, join) := (st.cache[u].value, Join(st.db, u));
      && shown.account == join.account && shown.roles.Keys == join.roles.Keys
      && forall r :: r in join.roles ==>
           && shown.roles[r].role == join.roles[r].role && shown.roles[r].scopes == join.roles[r].scopes
           && StillThere(st.db, shown.roles[r].menus) == join.roles[r].menus
  {
    AnyRunKeepsInv(now, ttl, steps);
    hide ExecAny, RolesOf, AllRolesLocked, StillThere;
    var st := ExecAny(Empty(now, ttl), steps);
    assert AgreesButMenus(st.db, u, st.cache[u].value);
  }
}
