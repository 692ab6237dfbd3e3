/** What the session store guarantees over whole runs. */
module SessionRuns {
  import opened Wrappers
  import opened TimedMaps
  import opened SessionModel
  import opened SessionInvariant

  // ---------------------------------------------------------------- parts of an operation

  lemma DrawAgreed(st: Store)
    requires Agreed(st)
    ensures var st' := st.(next := st.next + 1);
      && Agreed(st')
      && (forall u, s :: Formal(st', u, s) <==> Formal(st, u, s))
  {
    var st' := st.(next := st.next + 1);
    forall u, s ensures Formal(st', u, s) == Formal(st, u, s) && Marked(st', u, s) == Marked(st, u, s) {}
  }

  lemma StoreAccessAgreed(st: Store, u: User, s: Session, t: Token)
    requires Agreed(st) && Plain(st, u, s) && Minted(st, t, u, s, st.cfg.access)
    ensures var st' := StoreAccess(st, u, s, false, t);
      && Agreed(st') && SameFrame(st, st') && Plain(st', u, s)
      && (forall v, x :: Formal(st', v, x) <==> Formal(st, v, x) || (v == u && x == s))
  {
    StoreAccessKeepsTokens(st, u, s, t);
    StoreAccessFormal(st, u, s, t);
  }

  lemma StoreSwaggerAgreed(st: Store, u: User, s: Session, t: Token)
    requires Agreed(st) && Unused(st, u, s) && Minted(st, t, u, s, st.cfg.access)
    ensures var st' := StoreAccess(st, u, s, true, t);
      && Agreed(st') && SameFrame(st, st')
      && (forall v, x :: Formal(st', v, x) <==> Formal(st, v, x))
  {
    StoreSwaggerKeepsTokens(st, u, s, t);
    StoreSwaggerFormal(st, u, s, t);
  }

  lemma StoreRefreshAgreed(st: Store, u: User, s: Session, t: Token)
    requires Agreed(st) && Plain(st, u, s) && Minted(st, t, u, s, st.cfg.refresh)
    ensures var st' := StoreRefresh(st, u, s, t);
      && Agreed(st') && SameFrame(st, st')
      && (forall v, x :: Formal(st', v, x) <==> Formal(st, v, x) || (v == u && x == s))
  {
    StoreRefreshKeepsTokens(st, u, s, t);
    StoreRefreshFormal(st, u, s, t);
  }

  lemma GetUserSessionsAgreed(st: Store, u: User)
    requires Agreed(st)
    ensures var (st', live) := GetUserSessions(st, u);
      && Agreed(st') && SameFrame(st, st')
      && st' == st.(index := st'.index, users := st'.users)
      && (forall v, s :: Formal(st', v, s) <==> Formal(st, v, s))
      && (forall s :: s in live <==> Formal(st, u, s))
  {
    hide GetUserSessions, FormalIndexed, SwaggerIndexed, InDirectory, Formal;
    var (st1, live) := GetUserSessions(st, u);
    GetUserSessionsEffect(st, u);
    PrunedKeepsTokens(st, st1, u, live);
    PrunedIndexes(st, st1, u, live);
  }

  lemma RevokeSessionsAgreed(st: Store, u: User, ss: set<Session>)
    requires Agreed(st)
    ensures var st' := RevokeSessions(st, u, ss);
      && Agreed(st') && SameFrame(st, st')
      && Revoked(st, st', u, ss)
      && (forall v, s :: Formal(st', v, s) <==> Formal(st, v, s) && !(v == u && s in ss))
  {
    hide RevokeSessions, Tokens, PresenceIndexed, Formal;
    var st' := RevokeSessions(st, u, ss);
    RevokeSessionsEffect(st, u, ss);
    RevokedKeepsTokens(st, st', u, ss);
    RevokedFormal(st, st', u, ss);
    RevokeKeepsPresence(st, u, ss);
  }

  /** The sessions of `u` that a revocation of all its tokens removes. */
  function Doomed(st: Store, u: User, exclude: Option<Session>, includeSwagger: bool): set<Session> {
    var live := GetUserSessions(st, u).1;
    Except(if includeSwagger then live + Members(st.swagger, u, st.now) else live, exclude)
  }

  /** After revoking all tokens of `u`, its only live formal session is the excluded one. */
  lemma RevokeUserTokensAgreed(st: Store, u: User, exclude: Option<Session>, includeSwagger: bool)
    requires Agreed(st)
    ensures var st' := RevokeUserTokens(st, u, exclude, includeSwagger);
      && Agreed(st') && SameFrame(st, st')
      && st'.access == st.access - KeysOf(u, Doomed(st, u, exclude, includeSwagger))
      && st'.refresh == st.refresh - KeysOf(u, Doomed(st, u, exclude, includeSwagger))
      && st'.extra == st.extra - KeysOf(u, Doomed(st, u, exclude, includeSwagger))
      && (forall v, s :: Formal(st', v, s) <==> Formal(st, v, s) && (v != u || exclude == Some(s)))
  {
    hide GetUserSessions, RevokeSessions, Agreed, Formal, KeysOf;
    GetUserSessionsAgreed(st, u);
    var (st1, live) := GetUserSessions(st, u);
    RevokeSessionsAgreed(st1, u, Doomed(st, u, exclude, includeSwagger));
    assert forall s :: s in live ==> (s in Doomed(st, u, exclude, includeSwagger) <==> exclude != Some(s));
  }

  // ---------------------------------------------------------------- operations keep the invariant

  lemma CreateAccessTokenKeeps(st: Store, u: User, s: Session)
    requires Agreed(st) && SingleLogin(st) && Plain(st, u, s) && s < st.next
    ensures var st' := CreateAccessToken(st, u, u in st.multi, s, false).0;
      && Agreed(st') && SingleLogin(st') && Plain(st', u, s)
      && SameFrame(st.(next := st.next + 1), st')
      && (u !in st.multi ==> forall x :: Formal(st', u, x) ==> x == s)
  {
    hide RevokeUserTokens, StoreAccess, Agreed, Formal, Doomed, KeysOf;
    var st1 := st.(next := st.next + 1);
    DrawAgreed(st);
    var t := Token(u, s, st.next, st.now + st.cfg.access);
    var st2 := if u in st.multi then st1 else RevokeUserTokens(st1, u, Some(s), false);
    if u !in st.multi {
      RevokeUserTokensAgreed(st1, u, Some(s), false);
    }
    StoreAccessAgreed(st2, u, s, t);
  }

  lemma CreateRefreshTokenKeeps(st: Store, u: User, s: Session)
    requires Agreed(st) && SingleLogin(st) && Plain(st, u, s) && s < st.next
    requires u !in st.multi ==> forall x :: Formal(st, u, x) ==> x == s
    ensures var st' := CreateRefreshToken(st, u, s).0;
      Agreed(st') && SingleLogin(st') && SameFrame(st.(next := st.next + 1), st')
  {
    hide StoreRefresh, Agreed, Formal;
    DrawAgreed(st);
    var t := Token(u, s, st.next, st.now + st.cfg.refresh);
    StoreRefreshAgreed(st.(next := st.next + 1), u, s, t);
  }

  lemma FreshIsUnused(st: Store, u: User)
    requires Agreed(st)
    ensures Unused(st, u, st.next) && Plain(st, u, st.next)
  {
  }

  lemma LoginKeepsInv(st: Store, u: User)
    requires Inv(st)
    ensures Inv(Login(st, u).0)
  {
    hide CreateAccessToken, CreateRefreshToken, Agreed, Formal;
    var st1 := st.(next := st.next + 1);
    FreshIsUnused(st, u);
    DrawAgreed(st);
    assert SingleLogin(st1);
    CreateAccessTokenKeeps(st1, u, st.next);
    CreateRefreshTokenKeeps(CreateAccessToken(st1, u, u in st.multi, st.next, false).0, u, st.next);
  }

  lemma SwaggerLoginKeepsInv(st: Store, u: User)
    requires Inv(st)
    ensures Inv(SwaggerLogin(st, u).0)
  {
    hide StoreAccess, Agreed, Formal;
    FreshIsUnused(st, u);
    DrawAgreed(st);
    DrawAgreed(st.(next := st.next + 1));
    var t := Token(u, st.next, st.next + 1, st.now + st.cfg.access);
    StoreSwaggerAgreed(st.(next := st.next + 2), u, st.next, t);
  }

  lemma RefreshedIsPlain(st: Store, u: User, s: Session)
    requires Agreed(st) && Live(st.refresh, Key(u, s), st.now)
    ensures Plain(st, u, s) && s < st.next
  {
  }

  lemma CreateNewTokenKeepsInv(st: Store, t: Token, s: Session, u: User)
    requires Inv(st)
    ensures Inv(CreateNewToken(st, t, s, u, u in st.multi).0)
  {
    hide CreateAccessToken, CreateRefreshToken, Agreed, Formal;
    if Get(st.refresh, Key(u, s), st.now) != Some(t) { return; }
    RefreshedIsPlain(st, u, s);
    CreateAccessTokenKeeps(st, u, s);
    CreateRefreshTokenKeeps(CreateAccessToken(st, u, u in st.multi, s, false).0, u, s);
  }

  lemma RefreshLoginKeepsInv(st: Store, t: Token, enabled: bool)
    requires Inv(st)
    ensures Inv(RefreshLogin(st, t, enabled).0)
  {
    hide GetUserSessions, CreateNewToken, Agreed, Formal;
    GetUserSessionsAgreed(st, t.user);
    var st1 := if t.user in st.multi then st else GetUserSessions(st, t.user).0;
    CreateNewTokenKeepsInv(st1, t, t.session, t.user);
  }

  lemma SetMultiLoginKeepsInv(st: Store, u: User, multi: bool, exclude: Option<Session>)
    requires Inv(st)
    ensures Inv(SetMultiLogin(st, u, multi, exclude))
  {
    hide RevokeUserTokens, Agreed, Formal, Doomed, KeysOf;
    var st1 := st.(multi := if multi then st.multi + {u} else st.multi - {u});
    if multi {
      SwitchedOn(st, u);
    } else {
      SwitchAgreed(st, st1.multi);
      SwitchedOff(st, st1, u, exclude);
    }
  }

  lemma SwitchedOn(st: Store, u: User)
    requires Inv(st)
    ensures Inv(st.(multi := st.multi + {u}))
  {
    hide Agreed, Formal;
    SwitchAgreed(st, st.multi + {u});
  }

  /** Only the excluded session of the user is left. */
  lemma SwitchedOff(st: Store, st1: Store, u: User, exclude: Option<Session>)
    requires SingleLogin(st) && Agreed(st1) && st1.multi == st.multi - {u}
    requires forall v, s :: Formal(st1, v, s) <==> Formal(st, v, s)
    ensures Inv(RevokeUserTokens(st1, u, exclude, true))
  {
    hide RevokeUserTokens, Agreed, Formal, Doomed, KeysOf;
    RevokeUserTokensAgreed(st1, u, exclude, true);
  }

  lemma SwitchAgreed(st: Store, multi: set<User>)
    requires Agreed(st)
    ensures Agreed(st.(multi := multi))
    ensures forall v, s :: Formal(st.(multi := multi), v, s) <==> Formal(st, v, s)
  {
    var st1 := st.(multi := multi);
    forall v, s ensures Formal(st1, v, s) == Formal(st, v, s) && Marked(st1, v, s) == Marked(st, v, s) {}
  }

  lemma PruneDirectoryKeepsInv(st: Store)
    requires Inv(st)
    ensures Inv(PruneDirectory(st))
  {
    var st' := PruneDirectory(st);
    forall u, s ensures Formal(st', u, s) == Formal(st, u, s) && Marked(st', u, s) == Marked(st, u, s) {}
    forall u, s | Live(st.access, Key(u, s), st.now) && !Marked(st, u, s) ensures u in st'.users {
      assert Formal(st, u, s);
      assert s in Members(st.index, u, st.now);
    }
  }

  /** Only the presence maps differ. */
  lemma PresenceOnly(st: Store, st': Store)
    requires st' == st.(online := st'.online, sids := st'.sids)
    ensures Tokens(st) ==> Tokens(st')
    ensures SingleLogin(st) ==> SingleLogin(st')
  {
    forall u, s ensures Formal(st', u, s) == Formal(st, u, s) && Marked(st', u, s) == Marked(st, u, s) {}
  }

  lemma ConnectKeepsInv(st: Store, sid: Sid, s: Session, expire: int)
    requires Inv(st)
    ensures Inv(Connect(st, sid, s, expire))
  {
    hide Tokens, SingleLogin;
    PresenceOnly(st, Connect(st, sid, s, expire));
  }

  lemma DisconnectKeepsPresence(st: Store, sid: Sid, saved: Option<Session>)
    requires PresenceIndexed(st)
    ensures PresenceIndexed(Disconnect(st, sid, saved))
  {
    var known := Get(st.sids, sid, st.now);
    var session := if known.Some? then known else saved;
    if session.None? { return; }
    var s := session.value;
    var sids := st.sids - {sid};
    var online := RemoveMembers(st.online, s, st.now, {sid});
    var stale := set x | x in Members(online, s, st.now) && Get(sids, x, st.now) != Some(s);
    forall x | Live(sids, x, st.now)
      ensures var online' := if stale == {} then online else RemoveMembers(online, s, st.now, stale);
        x in Members(online', sids[x].value, st.now) && sids[x].expires <= online'[sids[x].value].expires
    {
      assert Live(st.sids, x, st.now);
      RemovedMembers(st.online, s, st.now, {sid}, sids[x].value);
      RemovedMembers(online, s, st.now, stale, sids[x].value);
    }
  }

  lemma DisconnectKeepsInv(st: Store, sid: Sid, saved: Option<Session>)
    requires Inv(st)
    ensures Inv(Disconnect(st, sid, saved))
  {
    hide Tokens, SingleLogin, PresenceIndexed;
    PresenceOnly(st, Disconnect(st, sid, saved));
    DisconnectKeepsPresence(st, sid, saved);
  }

  lemma TickFormal(st: Store, seconds: nat)
    requires SwaggerApart(st)
    ensures var st' := st.(now := st.now + seconds);
      && (forall u, s :: Formal(st', u, s) ==> Formal(st, u, s))
      && (forall u, s :: Marked(st', u, s) ==> Marked(st, u, s))
      && (forall u, s :: Marked(st, u, s) && Live(st'.access, Key(u, s), st'.now) ==> Marked(st', u, s))
  {
  }

  lemma TickKeepsIndexes(st: Store, seconds: nat)
    requires Tokens(st)
    ensures var st' := st.(now := st.now + seconds);
      FormalIndexed(st') && SwaggerIndexed(st')
  {
    TickFormal(st, seconds);
    var st' := st.(now := st.now + seconds);
    forall u, s | Formal(st', u, s)
      ensures s in Members(st'.index, u, st'.now)
      ensures Live(st'.access, Key(u, s), st'.now) ==> st'.access[Key(u, s)].expires <= st'.index[u].expires
      ensures Live(st'.refresh, Key(u, s), st'.now) ==> st'.refresh[Key(u, s)].expires <= st'.index[u].expires
    {
      assert Formal(st, u, s);
    }
    forall u, s | Marked(st', u, s) && Live(st'.access, Key(u, s), st'.now)
      ensures s in Members(st'.swagger, u, st'.now) && st'.access[Key(u, s)].expires <= st'.swagger[u].expires
    {
      assert Marked(st, u, s);
    }
  }

  lemma TickKeepsInv(st: Store, seconds: nat)
    requires Inv(st)
    ensures Inv(st.(now := st.now + seconds))
  {
    hide Formal, FormalIndexed, SwaggerIndexed;
    TickFormal(st, seconds);
    TickKeepsIndexes(st, seconds);
  }

  // ---------------------------------------------------------------- runs

  lemma StepKeepsInv(st: Store, step: Step)
    requires Inv(st)
    ensures Inv(Apply(st, step))
  {
    hide Inv, Login, SwaggerLogin, RefreshLogin, RevokeSessions, RevokeUserTokens, SetMultiLogin, PruneDirectory,
        Connect, Disconnect;
    match step
    case DoLogin(u) => LoginKeepsInv(st, u);
    case DoSwaggerLogin(u) => SwaggerLoginKeepsInv(st, u);
    case DoRefresh(t, enabled) => RefreshLoginKeepsInv(st, t, enabled);
    case DoRevoke(u, s) => RevokeKeepsInv(st, u, {s});
    case DoRevokeAll(u) => RevokeAllKeepsInv(st, u);
    case DoSetMultiLogin(u, multi, exclude) => SetMultiLoginKeepsInv(st, u, multi, exclude);
    case DoPrune => PruneDirectoryKeepsInv(st);
    case DoConnect(sid, t) => ConnectKeepsInv(st, sid, t.session, t.exp - st.now);
    case DoOpenConnect(sid, s) => ConnectKeepsInv(st, sid, s, st.cfg.access);
    case DoDisconnect(sid, saved) => DisconnectKeepsInv(st, sid, saved);
    case DoTick(d) => TickKeepsInv(st, d);
  }

  lemma RevokeKeepsInv(st: Store, u: User, ss: set<Session>)
    requires Inv(st)
    ensures Inv(RevokeSessions(st, u, ss))
  {
    hide RevokeSessions, Agreed, Formal;
    RevokeSessionsAgreed(st, u, ss);
  }

  lemma RevokeAllKeepsInv(st: Store, u: User)
    requires Inv(st)
    ensures Inv(RevokeUserTokens(st, u, None, true))
  {
    hide RevokeUserTokens, Agreed, Formal, Doomed;
    RevokeUserTokensAgreed(st, u, None, true);
  }

  lemma {:induction false} RunKeepsInv(st: Store, steps: seq<Step>)
    requires Inv(st)
    ensures Inv(Exec(st, steps))
    decreases |steps|
  {
    hide Inv, Apply;
    if steps != [] {
      StepKeepsInv(st, steps[0]);
      RunKeepsInv(Apply(st, steps[0]), steps[1..]);
    }
  }

  lemma EmptyInv(cfg: Config, now: int, multi: set<User>)
    requires cfg.Valid()
    ensures Inv(Empty(cfg, now, multi))
  {
  }
}
