/** The promises of the session store: index completeness, total revocation,
    single use of refresh tokens, and presence. */
module SessionTheorems {
  import opened Wrappers
  import opened TimedMaps
  import opened SessionModel
  import opened SessionInvariant
  import opened SessionRuns

  ghost predicate Reachable(st: Store) {
    exists cfg: Config, now, multi, steps :: cfg.Valid() && st == Exec(Empty(cfg, now, multi), steps)
  }

  lemma ReachableInv(st: Store)
    requires Reachable(st)
    ensures Inv(st)
  {
    var cfg: Config, now, multi, steps :| cfg.Valid() && st == Exec(Empty(cfg, now, multi), steps);
    EmptyInv(cfg, now, multi);
    RunKeepsInv(Empty(cfg, now, multi), steps);
  }

  /** In every reachable state, a user without multi login has at most one accepted formal access token. */
  lemma AtMostOneFormalLogin(st: Store, t: Token, t': Token)
    requires Reachable(st)
    requires Accepts(st, t) && !Marked(st, t.user, t.session)
    requires Accepts(st, t') && !Marked(st, t'.user, t'.session)
    requires t.user == t'.user && t.user !in st.multi
    ensures t == t'
  {
    hide Exec, Agreed;
    ReachableInv(st);
    assert Formal(st, t.user, t.session) && Formal(st, t.user, t'.session);
  }

  /** In every reachable state the secondary indexes cover the live keys and outlive them. */
  lemma IndexesComplete(st: Store, u: User, s: Session)
    requires Reachable(st)
    ensures Live(st.refresh, Key(u, s), st.now) ==>
      s in Members(st.index, u, st.now) && st.refresh[Key(u, s)].expires <= st.index[u].expires
    ensures Live(st.access, Key(u, s), st.now) && !Marked(st, u, s) ==>
      s in Members(st.index, u, st.now) && st.access[Key(u, s)].expires <= st.index[u].expires && u in st.users
    ensures Live(st.access, Key(u, s), st.now) && Marked(st, u, s) ==>
      s in Members(st.swagger, u, st.now) && st.access[Key(u, s)].expires <= st.swagger[u].expires
  {
    hide Exec;
    ReachableInv(st);
    assert Live(st.refresh, Key(u, s), st.now) ==> Formal(st, u, s);
    assert Live(st.access, Key(u, s), st.now) && !Marked(st, u, s) ==> Formal(st, u, s);
  }

  // ---------------------------------------------------------------- revocation

  /** Revoking the sessions `ss` of `u` makes exactly their access tokens unacceptable. */
  lemma RevokeIsExact(st: Store, u: User, ss: set<Session>, t: Token)
    ensures Accepts(RevokeSessions(st, u, ss), t) <==> Accepts(st, t) && !(t.user == u && t.session in ss)
  {
    RevokeSessionsEffect(st, u, ss);
  }

  /** Which sessions a total revocation removes: every session with a live access token but
      the excluded one, and the swagger ones only when asked. */
  lemma DoomedExactly(st: Store, u: User, exclude: Option<Session>, includeSwagger: bool, s: Session)
    requires Agreed(st) && Live(st.access, Key(u, s), st.now)
    ensures s in Doomed(st, u, exclude, includeSwagger) <==>
      exclude != Some(s) && (includeSwagger || !Marked(st, u, s))
  {
    ClassifiedSessions(st, u);
    assert !Marked(st, u, s) ==> Formal(st, u, s);
    assert Marked(st, u, s) ==> Key(u, s) in st.extra;
  }

  /** After revoking all tokens of `u`, in any store whose indexes agree with its keys, the accepted tokens are
      those of other users, of the excluded session, and, unless included, of swagger sessions. */
  lemma RevocationIsTotal(st: Store, u: User, exclude: Option<Session>, includeSwagger: bool, t: Token)
    requires Agreed(st)
    ensures Accepts(RevokeUserTokens(st, u, exclude, includeSwagger), t) <==>
      && Accepts(st, t)
      && (t.user != u || exclude == Some(t.session) || (!includeSwagger && Marked(st, u, t.session)))
  {
    hide RevokeUserTokens, Agreed, Formal, Doomed;
    RevokeUserTokensAgreed(st, u, exclude, includeSwagger);
    if Accepts(st, t) && t.user == u { DoomedExactly(st, u, exclude, includeSwagger, t.session); }
  }

  /** A refresh token that a total revocation leaves behind belongs to another user or the excluded session. */
  lemma RevocationEndsRefresh(st: Store, u: User, exclude: Option<Session>, includeSwagger: bool, t: Token)
    requires Agreed(st)
    ensures var st' := RevokeUserTokens(st, u, exclude, includeSwagger);
      Get(st'.refresh, Key(t.user, t.session), st'.now) == Some(t) <==>
        && Get(st.refresh, Key(t.user, t.session), st.now) == Some(t)
        && (t.user != u || exclude == Some(t.session))
  {
    hide RevokeUserTokens, Agreed, Doomed;
    RevokeUserTokensAgreed(st, u, exclude, includeSwagger);
    var st' := RevokeUserTokens(st, u, exclude, includeSwagger);
    assert Live(st.refresh, Key(t.user, t.session), st.now) ==> Formal(st, t.user, t.session);
    assert Live(st'.refresh, Key(t.user, t.session), st.now) ==> Formal(st', t.user, t.session);
    if t.user == u && exclude == Some(t.session) {
      assert t.session !in Doomed(st, u, exclude, includeSwagger)
          by { ExcludedSurvives(st, u, exclude, includeSwagger, t.session); }
    }
  }

  lemma ExcludedSurvives(st: Store, u: User, exclude: Option<Session>, includeSwagger: bool, s: Session)
    requires exclude == Some(s)
    ensures s !in Doomed(st, u, exclude, includeSwagger)
  {
  }

  // ---------------------------------------------------------------- refresh rotation

  ghost predicate RefreshAccepted(st: Store, t: Token, enabled: bool) {
    RefreshLogin(st, t, enabled).1.Ok?
  }

  /** Refresh entries are only removed or replaced by tokens minted later. */
  ghost predicate RefreshEvolves(st: Store, st': Store) {
    && st.next <= st'.next
    && forall k :: k in st'.refresh ==>
         (k in st.refresh && st'.refresh[k] == st.refresh[k]) || st.next <= st'.refresh[k].value.jti < st'.next
  }

  /** The token was minted, and is not the one stored for its session. */
  ghost predicate Spent(st: Store, t: Token) {
    t.jti < st.next && (Key(t.user, t.session) in st.refresh ==> st.refresh[Key(t.user, t.session)].value != t)
  }

  lemma RevokeEvolves(st: Store, u: User, exclude: Option<Session>, includeSwagger: bool)
    ensures RefreshEvolves(st, RevokeUserTokens(st, u, exclude, includeSwagger))
  {
    hide GetUserSessions, RevokeSessions, Except;
    assert GetUserSessions(st, u).0.refresh == st.refresh && GetUserSessions(st, u).0.next == st.next
        by { PruneEvolves(st, u); }
    var st1 := GetUserSessions(st, u).0;
    RevokeSessionsEvolves(st1, u, Except(if includeSwagger then GetUserSessions(st, u).1 +
        Members(st1.swagger, u, st1.now)
                                         else GetUserSessions(st, u).1, exclude));
  }

  lemma PruneEvolves(st: Store, u: User)
    ensures GetUserSessions(st, u).0.refresh == st.refresh && GetUserSessions(st, u).0.next == st.next
  {
  }

  lemma RevokeSessionsEvolves(st: Store, u: User, ss: set<Session>)
    ensures RefreshEvolves(st, RevokeSessions(st, u, ss))
  {
  }

  lemma CreateAccessEvolves(st: Store, u: User, multi: bool, s: Session, swagger: bool)
    ensures var st' := CreateAccessToken(st, u, multi, s, swagger).0;
      RefreshEvolves(st, st') && st.next + 1 <= st'.next
  {
    hide RevokeUserTokens;
    RevokeEvolves(st.(next := st.next + 1), u, Some(s), false);
  }

  lemma CreateNewTokenEvolves(st: Store, t: Token, s: Session, u: User, multi: bool)
    ensures var (st', r) := CreateNewToken(st, t, s, u, multi);
      && RefreshEvolves(st, st')
      && (r.Ok? ==>
            && Get(st.refresh, Key(u, s), st.now) == Some(t)
            && Key(u, s) in st'.refresh && st.next <= st'.refresh[Key(u, s)].value.jti)
  {
    hide CreateAccessToken;
    CreateAccessEvolves(st, u, multi, s, false);
  }

  lemma RefreshLoginEvolves(st: Store, t: Token, enabled: bool)
    ensures RefreshEvolves(st, RefreshLogin(st, t, enabled).0)
    ensures RefreshAccepted(st, t, enabled) ==>
      && Get(st.refresh, Key(t.user, t.session), st.now) == Some(t)
      && Key(t.user, t.session) in RefreshLogin(st, t, enabled).0.refresh
      && st.next <= RefreshLogin(st, t, enabled).0.refresh[Key(t.user, t.session)].value.jti
  {
    hide GetUserSessions, CreateNewToken;
    PruneEvolves(st, t.user);
    GetUserSessionsNow(st, t.user);
    var multi := t.user in st.multi;
    var st1 := if multi then st else GetUserSessions(st, t.user).0;
    CreateNewTokenEvolves(st1, t, t.session, t.user, multi);
  }

  lemma GetUserSessionsNow(st: Store, u: User)
    ensures GetUserSessions(st, u).0.now == st.now
  {
  }

  lemma StepEvolves(st: Store, step: Step)
    ensures RefreshEvolves(st, Apply(st, step))
  {
    hide RevokeUserTokens, RevokeSessions, CreateAccessToken, RefreshLogin, Connect, Disconnect, PruneDirectory;
    match step
    case DoLogin(u) => CreateAccessEvolves(st.(next := st.next + 1), u, u in st.multi, st.next, false);
    case DoSwaggerLogin(u) => CreateAccessEvolves(st.(next := st.next + 1), u, u in st.multi, st.next, true);
    case DoRefresh(t, enabled) => RefreshLoginEvolves(st, t, enabled);
    case DoRevoke(u, s) => RevokeSessionsEvolves(st, u, {s});
    case DoRevokeAll(u) => RevokeEvolves(st, u, None, true);
    case DoSetMultiLogin(u, multi, exclude) => RevokeEvolves(st.(multi := st.multi - {u}), u, exclude, true);
    case _ => PresenceStepsKeepRefresh(st, step);
  }

  lemma PresenceStepsKeepRefresh(st: Store, step: Step)
    requires step.DoPrune? || step.DoConnect? || step.DoOpenConnect? || step.DoDisconnect? || step.DoTick?
    ensures Apply(st, step).refresh == st.refresh && Apply(st, step).next == st.next
  {
  }

  lemma {:induction false} SpentStays(st: Store, steps: seq<Step>, t: Token)
    requires Spent(st, t)
    ensures Spent(Exec(st, steps), t)
    decreases |steps|
  {
    hide Apply;
    if steps != [] {
      StepEvolves(st, steps[0]);
      SpentStays(Apply(st, steps[0]), steps[1..], t);
    }
  }

  /** Over any run, a refresh token is accepted at most once. */
  lemma RefreshAcceptedOnce(st: Store, t: Token, enabled: bool, steps: seq<Step>, again: bool)
    requires Reachable(st)
    requires RefreshAccepted(st, t, enabled)
    ensures !RefreshAccepted(Exec(RefreshLogin(st, t, enabled).0, steps), t, again)
  {
    hide RefreshLogin;
    ReachableInv(st);
    RefreshLoginEvolves(st, t, enabled);
    var st1 := RefreshLogin(st, t, enabled).0;
    SpentStays(st1, steps, t);
    RefreshLoginEvolves(Exec(st1, steps), t, again);
  }

  /** A successful refresh retires the session's previous access token: only the new one is accepted. */
  lemma RefreshReplacesAccess(st: Store, t: Token, enabled: bool, a: Token)
    requires Reachable(st) && RefreshAccepted(st, t, enabled)
    requires a.user == t.user && a.session == t.session
    ensures Accepts(RefreshLogin(st, t, enabled).0, a) <==> a == RefreshLogin(st, t, enabled).1.value.0
  {
    hide GetUserSessions, CreateAccessToken, Agreed, Exec, Reachable, Formal;
    ReachableInv(st);
    GetUserSessionsAgreed(st, t.user);
    var st1 := if t.user in st.multi then st else GetUserSessions(st, t.user).0;
    assert 0 < st1.cfg.access by { AgreedConfig(st1); }
    RefreshedIsPlain(st1, t.user, t.session);
    CreateAccessTokenKeeps(st1, t.user, t.session);
    AccessStored(st1, t.user, t.user in st.multi, t.session);
  }

  lemma AgreedConfig(st: Store)
    requires Agreed(st)
    ensures st.cfg.Valid()
  {
  }

  lemma AccessStored(st: Store, u: User, multi: bool, s: Session)
    requires Agreed(st)
    ensures var (st', t) := CreateAccessToken(st, u, multi, s, false);
      && Key(u, s) in st'.access && st'.access[Key(u, s)] == Timed(t, st.now + st.cfg.access)
      && t.user == u && t.session == s && t.exp == st.now + st.cfg.access
  {
    hide RevokeUserTokens, Agreed, Doomed, KeysOf;
    DrawAgreed(st);
    RevokeUserTokensAgreed(st.(next := st.next + 1), u, Some(s), false);
  }

  // ---------------------------------------------------------------- presence

  /** With the invariant the monitor shows a session online exactly when a live connection maps to it. */
  lemma OnlineIffConnected(st: Store, s: Session)
    requires Agreed(st)
    ensures ShownOnline(st, s) <==> exists sid :: Get(st.sids, sid, st.now) == Some(s)
  {
    hide Tokens;
    if sid :| Get(st.sids, sid, st.now) == Some(s) {
      assert sid in Members(st.online, s, st.now);
    }
  }

  /** No connection of a revoked session survives, and it is shown offline. */
  lemma RevokedIsOffline(st: Store, u: User, ss: set<Session>, s: Session)
    requires Inv(st) && s in ss
    ensures !ShownOnline(RevokeSessions(st, u, ss), s)
    ensures forall sid :: Get(RevokeSessions(st, u, ss).sids, sid, st.now) != Some(s)
  {
    hide Tokens;
    forall sid ensures Get(RevokeSessions(st, u, ss).sids, sid, st.now) != Some(s) {
      assert Get(st.sids, sid, st.now) == Some(s) ==> sid in SidsOf(st, ss);
    }
  }
}
