/** What each call means to its caller, in every store that keeps the invariant. */
module SessionCalls {
  import opened Wrappers
  import opened TimedMaps
  import opened SessionModel
  import opened SessionInvariant
  import opened SessionRuns
  import opened SessionTheorems

  /** The refresh endpoint would find this token under its session. */
  predicate Stored(st: Store, t: Token) {
    Get(st.refresh, Key(t.user, t.session), st.now) == Some(t)
  }

  /** A login of `u` leaves the token alone: it is another user's, a swagger one, or several logins are allowed. */
  predicate Spared(st: Store, u: User, a: Token) {
    a.user != u || u in st.multi || Marked(st, u, a.session)
  }

  /** In a store that keeps the invariant the call keeps it, and means what is said. */
  ghost predicate Kept(st: Store, st': Store, meaning: bool) {
    Inv(st) ==> Inv(st') && meaning
  }

  /** The settings, the clock and the users' flags are as before. */
  predicate SameSettings(st: Store, st': Store) {
    st'.cfg == st.cfg && st'.now == st.now && st'.multi == st.multi
  }

  // ---------------------------------------------------------------- presence

  /** The connection belongs to none of the sessions. */
  ghost predicate Outside(st: Store, sid: Sid, ended: iset<Session>) {
    forall s :: s in ended ==> sid !in Members(st.online, s, st.now)
  }

  /** The connections of the ended sessions are gone, all others are as before, and a session is shown online
      exactly by the connections that are left. */
  ghost predicate PresenceWithout(st: Store, st': Store, ended: iset<Session>) {
    && (forall sid :: Get(st'.sids, sid, st'.now) == if Outside(st, sid, ended) then Get(st.sids, sid, st.now)
         else None)
    && (forall s :: Members(st'.online, s, st'.now) == if s in ended then {} else Members(st.online, s, st.now))
    && (forall x :: ShownOnline(st', x) <==>
          exists sid :: Get(st.sids, sid, st.now) == Some(x) && Outside(st, sid, ended))
  }

  lemma PresenceFromSids(st: Store, st': Store, ended: iset<Session>)
    requires Agreed(st')
    requires forall sid :: Get(st'.sids, sid, st'.now) == if Outside(st, sid, ended) then Get(st.sids, sid, st.now)
      else None
    requires forall s :: Members(st'.online, s, st'.now) == if s in ended then {} else Members(st.online, s, st.now)
    ensures PresenceWithout(st, st', ended)
  {
    hide Agreed, ShownOnline, Get, Outside;
    forall x ensures ShownOnline(st', x) <==>
      exists sid :: Get(st.sids, sid, st.now) == Some(x) && Outside(st, sid, ended)
    {
      OnlineIffConnected(st', x);
      if sid :| Get(st.sids, sid, st.now) == Some(x) && Outside(st, sid, ended) {
        assert Get(st'.sids, sid, st'.now) == Some(x);
      }
      if sid :| Get(st'.sids, sid, st'.now) == Some(x) {
        assert Outside(st, sid, ended);
      }
    }
  }

  lemma RevokeSessionsReads(st: Store, u: User, ss: set<Session>, ended: iset<Session>)
    requires forall s :: s in ss <==> s in ended
    ensures var st' := RevokeSessions(st, u, ss);
      && st'.now == st.now
      && (forall sid :: Get(st'.sids, sid, st.now) == if Outside(st, sid, ended) then Get(st.sids, sid, st.now)
           else None)
      && (forall s :: Members(st'.online, s, st.now) == if s in ended then {} else Members(st.online, s, st.now))
  {
    hide KeysOf, RemoveMembers;
    forall sid ensures sid in SidsOf(st, ss) <==> !Outside(st, sid, ended) {
      if !Outside(st, sid, ended) {
        var s :| s in ended && sid in Members(st.online, s, st.now);
        assert s in ss;
      }
    }
    hide SidsOf, Outside;
  }

  /** Presence depends on the connections and the clock alone. */
  lemma PresenceTransfers(st: Store, st1: Store, st2: Store, ended: iset<Session>)
    requires PresenceWithout(st, st1, ended) && st2.online == st1.online && st2.sids == st1.sids && st2.now == st1.now
    ensures PresenceWithout(st, st2, ended)
  {
    hide Outside;
    forall x ensures ShownOnline(st2, x) <==> ShownOnline(st1, x) {}
    hide ShownOnline;
  }

  /** What was there before counts in the same way in a store with the same connections. */
  lemma PresenceFrom(st: Store, st0: Store, st2: Store, ended: iset<Session>)
    requires PresenceWithout(st, st2, ended) && st0.online == st.online && st0.sids == st.sids && st0.now == st.now
    ensures PresenceWithout(st0, st2, ended)
  {
    forall sid ensures Outside(st0, sid, ended) == Outside(st, sid, ended) {}
    hide Outside, ShownOnline;
  }

  // ---------------------------------------------------------------- revocation

  /** A total revocation ends the session: it is a live formal one, or, when included, a listed swagger one. */
  ghost predicate Ends(st: Store, u: User, exclude: Option<Session>, includeSwagger: bool, s: Session) {
    exclude != Some(s) && (Formal(st, u, s) || (includeSwagger && s in Members(st.swagger, u, st.now)))
  }

  ghost function Ended(st: Store, u: User, exclude: Option<Session>, includeSwagger: bool): iset<Session> {
    iset s | Ends(st, u, exclude, includeSwagger, s)
  }

  /** The tokens of `u` are revoked, except those of the excluded session and, unless included, swagger ones. */
  ghost predicate AllRevoked(st: Store, st': Store, u: User, exclude: Option<Session>, includeSwagger: bool) {
    && (forall a :: Accepts(st', a) <==>
          && Accepts(st, a)
          && (a.user != u || exclude == Some(a.session) || (!includeSwagger && Marked(st, u, a.session))))
    && (forall t :: Stored(st', t) <==> Stored(st, t) && (t.user != u || exclude == Some(t.session)))
    && PresenceWithout(st, st', Ended(st, u, exclude, includeSwagger))
  }

  lemma RevocationEndsPresence(st: Store, u: User, exclude: Option<Session>, includeSwagger: bool)
    requires Agreed(st)
    ensures PresenceWithout(st, RevokeUserTokens(st, u, exclude, includeSwagger), Ended(st, u, exclude, includeSwagger))
  {
    hide GetUserSessions, RevokeSessions, Agreed, Formal, ShownOnline, Get, Outside;
    var (st1, live) := GetUserSessions(st, u);
    var (doomed, ended) := (Doomed(st, u, exclude, includeSwagger), Ended(st, u, exclude, includeSwagger));
    GetUserSessionsAgreed(st, u);
    RevokeSessionsReads(st1, u, doomed, ended);
    RevokeSessionsAgreed(st1, u, doomed);
    PresenceFromSids(st1, RevokeSessions(st1, u, doomed), ended);
    PresenceFrom(st1, st, RevokeSessions(st1, u, doomed), ended);
  }

  lemma RevokeUserTokensCall(st: Store, u: User, exclude: Option<Session>, includeSwagger: bool)
    requires Agreed(st)
    ensures Inv(st) ==> Inv(RevokeUserTokens(st, u, exclude, includeSwagger))
    ensures AllRevoked(st, RevokeUserTokens(st, u, exclude, includeSwagger), u, exclude, includeSwagger)
    ensures SameFrame(st, RevokeUserTokens(st, u, exclude, includeSwagger))
  {
    hide RevokeUserTokens, Agreed, Formal, Doomed, Accepts, Get, KeysOf, PresenceWithout, Ended;
    var st' := RevokeUserTokens(st, u, exclude, includeSwagger);
    RevocationEndsPresence(st, u, exclude, includeSwagger);
    RevokeUserTokensAgreed(st, u, exclude, includeSwagger);
    forall t ensures
      && (Accepts(st', t) <==>
            && Accepts(st, t)
            && (t.user != u || exclude == Some(t.session) || (!includeSwagger && Marked(st, u, t.session))))
      && (Stored(st', t) <==> Stored(st, t) && (t.user != u || exclude == Some(t.session)))
    {
      RevocationIsTotal(st, u, exclude, includeSwagger, t);
      RevocationEndsRefresh(st, u, exclude, includeSwagger, t);
    }
  }

  lemma RevokeAllCall(st: Store, u: User, exclude: Option<Session>, includeSwagger: bool)
    ensures var st' := RevokeUserTokens(st, u, exclude, includeSwagger);
      Kept(st, st', AllRevoked(st, st', u, exclude, includeSwagger))
  {
    hide RevokeUserTokens, Agreed, SingleLogin, AllRevoked;
    if !Inv(st) { return; }
    assert Agreed(st);
    hide Inv;
    RevokeUserTokensCall(st, u, exclude, includeSwagger);
  }

  /** The sessions `ss` of `u` are gone, their tokens and their connections, and no others. */
  ghost predicate SessionsRevoked(st: Store, st': Store, u: User, ss: set<Session>) {
    && SameSettings(st, st')
    && (forall a :: Accepts(st', a) <==> Accepts(st, a) && !(a.user == u && a.session in ss))
    && (forall t :: Stored(st', t) <==> Stored(st, t) && !(t.user == u && t.session in ss))
    && PresenceWithout(st, st', iset s | s in ss)
  }

  lemma RevokeSessionsCall(st: Store, u: User, ss: set<Session>)
    ensures var st' := RevokeSessions(st, u, ss); Kept(st, st', SessionsRevoked(st, st', u, ss))
  {
    hide RevokeSessions, Agreed, Accepts, ShownOnline, Get, Outside, Formal, SingleLogin, PresenceWithout;
    if !Inv(st) { return; }
    var st' := RevokeSessions(st, u, ss);
    RevokeKeepsInv(st, u, ss);
    RevokeSessionsAgreed(st, u, ss);
    RevokeSessionsReads(st, u, ss, iset s | s in ss);
    PresenceFromSids(st, st', iset s | s in ss);
    hide Revoked;
    forall a ensures Accepts(st', a) <==> Accepts(st, a) && !(a.user == u && a.session in ss) {
      RevokeIsExact(st, u, ss, a);
    }
    forall t ensures Stored(st', t) <==> Stored(st, t) && !(t.user == u && t.session in ss) {
      StoredAfterSessions(st, u, ss, t);
    }
  }

  lemma StoredAfterSessions(st: Store, u: User, ss: set<Session>, t: Token)
    ensures Stored(RevokeSessions(st, u, ss), t) <==> Stored(st, t) && !(t.user == u && t.session in ss)
  {
    RevokeSessionsEffect(st, u, ss);
  }

  // ---------------------------------------------------------------- new tokens

  /** The sessions for which a caller may mint tokens: unused, or formal ones under the login rule. */
  ghost predicate Mintable(st: Store, u: User, s: Session, swagger: bool) {
    s < st.next && if swagger then Unused(st, u, s) else Plain(st, u, s)
  }

  /** The sessions that a login of `u` under `s` evicts. */
  ghost function Evictees(st: Store, u: User, s: Session, swagger: bool): iset<Session> {
    iset x | !swagger && u !in st.multi && Ends(st, u, Some(s), false, x)
  }

  /** `t` is the session's access token now, good for the configured time, and a formal one of a single-login user
      evicted the others, with their refresh tokens and connections. */
  ghost predicate AccessMinted(st: Store, st': Store, u: User, s: Session, swagger: bool, t: Token) {
    && SameSettings(st, st')
    && t.user == u && t.session == s && t.jti >= st.next && t.exp == st.now + st.cfg.access
    && (forall a :: Accepts(st', a) <==>
          a == t || (Accepts(st, a) && !(a.user == u && a.session == s) && (swagger || Spared(st, u, a))))
    && (forall x :: Stored(st', x) <==>
          Stored(st, x) && (swagger || u in st.multi || x.user != u || x.session == s))
    && PresenceWithout(st, st', Evictees(st, u, s, swagger))
  }

  lemma CreateAccessTokenCall(st: Store, u: User, s: Session, swagger: bool)
    requires Inv(st) && Mintable(st, u, s, swagger)
    ensures var (st', t) := CreateAccessToken(st, u, u in st.multi, s, swagger);
      Inv(st') && AccessMinted(st, st', u, s, swagger, t)
  {
    hide CreateAccessToken, Formal, Accepts, Spared, Agreed, Unused, Plain, Get, PresenceWithout, Evictees;
    if swagger { SwaggerAccessKeeps(st, u, s); } else { CreateAccessTokenKeeps(st, u, s); }
    var (st', t) := CreateAccessToken(st, u, u in st.multi, s, swagger);
    forall a ensures
      && (Accepts(st', a) <==>
            a == t || (Accepts(st, a) && !(a.user == u && a.session == s) && (swagger || Spared(st, u, a))))
      && (Stored(st', a) <==> Stored(st, a) && (swagger || u in st.multi || a.user != u || a.session == s))
    {
      AcceptedAfterMint(st, u, s, swagger, a);
    }
    AcceptedAfterMint(st, u, s, swagger, t);
    MintedToken(st, u, s, swagger);
    PresenceAfterMint(st, u, s, swagger);
  }

  lemma SwaggerAccessKeeps(st: Store, u: User, s: Session)
    requires Inv(st) && Unused(st, u, s) && s < st.next
    ensures Inv(CreateAccessToken(st, u, u in st.multi, s, true).0)
  {
    hide StoreAccess, Agreed, Formal;
    DrawAgreed(st);
    StoreSwaggerAgreed(st.(next := st.next + 1), u, s, Token(u, s, st.next, st.now + st.cfg.access));
  }

  lemma MintedToken(st: Store, u: User, s: Session, swagger: bool)
    ensures CreateAccessToken(st, u, u in st.multi, s, swagger).1 == Token(u, s, st.next, st.now + st.cfg.access)
  {
  }

  lemma AcceptedAfterStore(st: Store, u: User, s: Session, swagger: bool, t: Token, a: Token)
    requires t.user == u && t.session == s && t.exp == st.now + st.cfg.access && st.cfg.Valid()
    ensures var st' := StoreAccess(st, u, s, swagger, t);
      && (Accepts(st', a) <==> a == t || (Accepts(st, a) && !(a.user == u && a.session == s)))
      && (Stored(st', a) <==> Stored(st, a))
      && st'.online == st.online && st'.sids == st.sids && SameSettings(st, st')
  {
    hide AddMembers;
  }

  lemma AcceptedAfterMint(st: Store, u: User, s: Session, swagger: bool, a: Token)
    requires Agreed(st)
    ensures var (st', t) := CreateAccessToken(st, u, u in st.multi, s, swagger);
      && SameSettings(st, st')
      && (Accepts(st', a) <==>
            a == t || (Accepts(st, a) && !(a.user == u && a.session == s) && (swagger || Spared(st, u, a))))
      && (Stored(st', a) <==> Stored(st, a) && (swagger || u in st.multi || a.user != u || a.session == s))
  {
    hide RevokeUserTokens, Agreed, StoreAccess, Accepts, Marked, CreateAccessToken, Stored, PresenceWithout, Ended;
    AgreedConfig(st);
    var st1, st2 := st.(next := st.next + 1), Evicted(st, u, s, swagger);
    DrawAgreed(st);
    DrawnReads(st, u);
    EvictedThenStored(st, u, s, swagger);
    RevokeUserTokensCall(st1, u, Some(s), false);
    AcceptedAfterStore(st2, u, s, swagger, Token(u, s, st.next, st.now + st.cfg.access), a);
  }

  lemma PresenceAfterMint(st: Store, u: User, s: Session, swagger: bool)
    requires Agreed(st)
    ensures PresenceWithout(st, CreateAccessToken(st, u, u in st.multi, s, swagger).0, Evictees(st, u, s, swagger))
  {
    hide RevokeUserTokens, Agreed, StoreAccess, CreateAccessToken, AllRevoked, Formal, PresenceWithout;
    AgreedConfig(st);
    var st1, st2 := st.(next := st.next + 1), Evicted(st, u, s, swagger);
    var t := Token(u, s, st.next, st.now + st.cfg.access);
    DrawAgreed(st);
    EvictedThenStored(st, u, s, swagger);
    RevokeUserTokensCall(st1, u, Some(s), false);
    AcceptedAfterStore(st2, u, s, swagger, t, t);
    var st' := StoreAccess(st2, u, s, swagger, t);
    if !swagger && u !in st.multi {
      RevocationEndsPresence(st1, u, Some(s), false);
      assert Ended(st1, u, Some(s), false) == Evictees(st, u, s, swagger);
      PresenceFrom(st1, st, st2, Evictees(st, u, s, swagger));
    } else {
      NothingEnded(st);
      assert Evictees(st, u, s, swagger) == iset{};
      PresenceTransfers(st, st, st2, iset{});
    }
    PresenceTransfers(st, st2, st', Evictees(st, u, s, swagger));
  }

  lemma NothingEnded(st: Store)
    requires Agreed(st)
    ensures PresenceWithout(st, st, iset{})
  {
    hide Agreed, Get;
    PresenceFromSids(st, st, iset{});
  }

  lemma DrawnReads(st: Store, u: User)
    ensures forall a :: (Accepts(st.(next := st.next + 1), a) <==> Accepts(st, a))
    ensures forall x :: (Stored(st.(next := st.next + 1), x) <==> Stored(st, x))
    ensures forall s :: (Marked(st.(next := st.next + 1), u, s) <==> Marked(st, u, s))
  {
  }

  /** The store between eviction and writing. */
  function Evicted(st: Store, u: User, s: Session, swagger: bool): Store {
    var st1 := st.(next := st.next + 1);
    if !swagger && u !in st.multi then RevokeUserTokens(st1, u, Some(s), false) else st1
  }

  lemma EvictedThenStored(st: Store, u: User, s: Session, swagger: bool)
    ensures var t := Token(u, s, st.next, st.now + st.cfg.access);
      CreateAccessToken(st, u, u in st.multi, s, swagger) ==
          (StoreAccess(Evicted(st, u, s, swagger), u, s, swagger, t), t)
  {
    hide RevokeUserTokens, StoreAccess;
  }

  /** `t` is the session's refresh token now, good for the configured time; no other session's changed, and no access
      token or connection did. */
  ghost predicate RefreshMinted(st: Store, st': Store, u: User, s: Session, t: Token) {
    && SameSettings(st, st') && st'.online == st.online && st'.sids == st.sids
    && t.user == u && t.session == s && t.jti >= st.next && t.exp == st.now + st.cfg.refresh
    && (forall x :: Stored(st', x) <==> x == t || (Stored(st, x) && !(x.user == u && x.session == s)))
    && (forall a :: Accepts(st', a) <==> Accepts(st, a))
  }

  lemma RefreshMintedBy(st: Store, u: User, s: Session)
    requires st.cfg.Valid()
    ensures var (st', t) := CreateRefreshToken(st, u, s); RefreshMinted(st, st', u, s, t)
  {
  }

  /** A single-login user has no live formal session but this one. */
  ghost predicate OnlySession(st: Store, u: User, s: Session) {
    u !in st.multi ==> forall x :: Formal(st, u, x) ==> x == s
  }

  lemma CreateRefreshTokenCall(st: Store, u: User, s: Session)
    requires Inv(st) && Mintable(st, u, s, false) && OnlySession(st, u, s)
    ensures var (st', t) := CreateRefreshToken(st, u, s); Inv(st') && RefreshMinted(st, st', u, s, t)
  {
    RefreshMintedBy(st, u, s);
    hide CreateRefreshToken, Formal, Agreed, RefreshMinted;
    CreateRefreshTokenKeeps(st, u, s);
  }

  /** A new pair for one session of `u`, under the login rule. */
  ghost predicate PairMinted(st: Store, st': Store, u: User, s: Session, pair: (Token, Token)) {
    && SameSettings(st, st')
    && pair.0.user == pair.1.user == u && pair.0.session == pair.1.session == s
    && pair.0.jti >= st.next && pair.1.jti >= st.next
    && pair.0.exp == st.now + st.cfg.access && pair.1.exp == st.now + st.cfg.refresh
    && (forall x :: Stored(st', x) <==>
          x == pair.1 || (Stored(st, x) && !(x.user == u && x.session == s) && (u in st.multi || x.user != u)))
    && PresenceWithout(st, st', Evictees(st, u, s, false))
    && (forall a :: Accepts(st', a) <==>
          a == pair.0 || (Accepts(st, a) && !(a.user == u && a.session == s) && Spared(st, u, a)))
  }

  lemma PairAfterBoth(st: Store, st1: Store, st2: Store, u: User, s: Session, a: Token, t: Token)
    requires AccessMinted(st, st1, u, s, false, a) && RefreshMinted(st1, st2, u, s, t) && st1.next >= st.next
    ensures PairMinted(st, st2, u, s, (a, t))
  {
    hide Accepts, Stored, Spared, PresenceWithout, Evictees;
    PresenceTransfers(st, st1, st2, Evictees(st, u, s, false));
  }

  lemma PairCall(st: Store, u: User, s: Session)
    requires Inv(st) && Plain(st, u, s) && s < st.next
    ensures var (st1, a) := CreateAccessToken(st, u, u in st.multi, s, false);
      var (st2, t) := CreateRefreshToken(st1, u, s);
      Inv(st2) && PairMinted(st, st2, u, s, (a, t))
  {
    CreateAccessTokenCall(st, u, s, false);
    CreateAccessTokenKeeps(st, u, s);
    hide CreateAccessToken, CreateRefreshToken, AccessMinted, RefreshMinted, PairMinted, Formal, Agreed, Plain;
    var (st1, a) := CreateAccessToken(st, u, u in st.multi, s, false);
    CreateRefreshTokenCall(st1, u, s);
    PairAfterBoth(st, st1, CreateRefreshToken(st1, u, s).0, u, s, a, CreateRefreshToken(st1, u, s).1);
  }

  /** The stored token is exchanged for a new pair; any other is refused and nothing changes. */
  ghost predicate Exchanged(st: Store, st': Store, t: Token, s: Session, u: User, r: Outcome<(Token, Token)>) {
    && (r.Ok? <==> Get(st.refresh, Key(u, s), st.now) == Some(t))
    && (r.Ok? ==> PairMinted(st, st', u, s, r.value))
    && (r.Rejected? ==> st' == st)
  }

  lemma CreateNewTokenCall(st: Store, t: Token, s: Session, u: User)
    ensures var (st', r) := CreateNewToken(st, t, s, u, u in st.multi); Kept(st, st', Exchanged(st, st', t, s, u, r))
  {
    hide CreateAccessToken, CreateRefreshToken, Formal, PairMinted, Plain, Agreed;
    if !Inv(st) { return; }
    if Get(st.refresh, Key(u, s), st.now) == Some(t) {
      RefreshedIsPlain(st, u, s);
      PairCall(st, u, s);
    }
  }

  /** A new session with its pair of tokens. */
  ghost predicate LoggedIn(st: Store, st': Store, u: User, pair: (Token, Token)) {
    PairMinted(st, st', u, st.next, pair) && Accepts(st', pair.0)
  }

  lemma NewPairAccepted(st: Store, st': Store, u: User, pair: (Token, Token))
    requires PairMinted(st, st', u, st.next, pair)
    ensures Accepts(st', pair.0) && Stored(st', pair.1)
  {
    hide Accepts, Stored, PresenceWithout, Evictees, Spared;
  }

  lemma LoginCall(st: Store, u: User)
    ensures var (st', pair) := Login(st, u); Kept(st, st', LoggedIn(st, st', u, pair))
  {
    hide CreateAccessToken, CreateRefreshToken, Formal, Agreed, PairMinted, Accepts, Unused;
    if !Inv(st) { return; }
    var st1 := st.(next := st.next + 1);
    FreshIsUnused(st, u);
    DrawAgreed(st);
    assert Plain(st1, u, st.next);
    hide Plain;
    assert SingleLogin(st1);
    PairCall(st1, u, st.next);
    PairTransfers(st, st1, Login(st, u).0, u, st.next, Login(st, u).1);
    NewPairAccepted(st, Login(st, u).0, u, Login(st, u).1);
  }

  /** Who would be evicted depends on neither the uuid supply nor the pruning of indexes. */
  lemma SameEvictees(st: Store, st1: Store, u: User, s: Session, swagger: bool)
    requires st1 == st.(next := st1.next, index := st1.index, users := st1.users)
    ensures Evictees(st1, u, s, swagger) == Evictees(st, u, s, swagger)
    ensures forall a :: (Accepts(st1, a) <==> Accepts(st, a)) && (Stored(st1, a) <==> Stored(st, a))
    ensures forall a :: (Spared(st1, u, a) <==> Spared(st, u, a))
  {
    forall x ensures Formal(st1, u, x) == Formal(st, u, x) && Marked(st1, u, x) == Marked(st, u, x) {}
    hide Formal, Marked;
    assert Evictees(st1, u, s, swagger) == Evictees(st, u, s, swagger);
  }

  lemma PairTransfers(st: Store, st1: Store, st2: Store, u: User, s: Session, pair: (Token, Token))
    requires st1 == st.(next := st1.next, index := st1.index, users := st1.users) && st.next <= st1.next
    requires PairMinted(st1, st2, u, s, pair)
    ensures PairMinted(st, st2, u, s, pair)
  {
    hide Accepts, Stored, Spared, PresenceWithout, Evictees;
    SameEvictees(st, st1, u, s, false);
    PresenceFrom(st1, st, st2, Evictees(st, u, s, false));
  }

  // ---------------------------------------------------------------- the refresh endpoint

  /** An enabled user's stored refresh token is exchanged, and no other is: with the invariant the remote-login
      check never stands in the way of the stored token.  A refusal revokes nothing. */
  ghost predicate Refreshed(st: Store, st': Store, t: Token, enabled: bool, r: Outcome<(Token, Token)>) {
    && (r.Ok? <==> enabled && Stored(st, t))
    && (r.Ok? ==> PairMinted(st, st', t.user, t.session, r.value))
    && (r.Rejected? ==>
          && SameSettings(st, st') && st'.online == st.online && st'.sids == st.sids
          && forall a :: (Accepts(st', a) <==> Accepts(st, a)) && (Stored(st', a) <==> Stored(st, a)))
  }

  lemma StoredIsAlone(st: Store, t: Token)
    requires Inv(st) && Stored(st, t)
    ensures st.now < t.exp
    ensures t.user !in st.multi ==> forall s :: Formal(st, t.user, s) ==> s == t.session
  {
    assert Formal(st, t.user, t.session);
  }

  lemma RefreshLoginCall(st: Store, t: Token, enabled: bool)
    ensures var (st', r) := RefreshLogin(st, t, enabled); Kept(st, st', Refreshed(st, st', t, enabled, r))
  {
    hide GetUserSessions, CreateNewToken, PairMinted, Agreed, Formal, Accepts, Marked, Get;
    if !Inv(st) { return; }
    RefreshLoginKeepsInv(st, t, enabled);
    GetUserSessionsAgreed(st, t.user);
    var st1 := if t.user in st.multi then st else GetUserSessions(st, t.user).0;
    SameTokens(st, st1);
    assert Inv(st1);
    CreateNewTokenCall(st1, t, t.session, t.user);
    var (st2, r) := CreateNewToken(st1, t, t.session, t.user, t.user in st.multi);
    if Stored(st, t) {
      StoredIsAlone(st, t);
      forall s | s in GetUserSessions(st, t.user).1 ensures t.user !in st.multi ==> s == t.session {}
    }
    if r.Ok? { PairTransfers(st, st1, st2, t.user, t.session, r.value); }
  }

  lemma SameTokens(st: Store, st1: Store)
    requires st1 == st.(index := st1.index, users := st1.users)
    ensures forall a :: (Accepts(st1, a) <==> Accepts(st, a)) && (Stored(st1, a) <==> Stored(st, a))
  {
  }

  // ---------------------------------------------------------------- the switch, presence, reading

  /** Turning multi login off leaves the excluded session alone; turning it on revokes nothing. */
  ghost predicate Switched(st: Store, st': Store, u: User, multi: bool, exclude: Option<Session>) {
    && (forall v :: v in st'.multi <==> if v == u then multi else v in st.multi)
    && (multi ==> st' == st.(multi := st'.multi))
    && (!multi ==> AllRevoked(st, st', u, exclude, true))
  }

  lemma SetMultiLoginCall(st: Store, u: User, multi: bool, exclude: Option<Session>)
    ensures var st' := SetMultiLogin(st, u, multi, exclude); Kept(st, st', Switched(st, st', u, multi, exclude))
  {
    hide Formal, Agreed, RevokeUserTokens, Accepts, AllRevoked, SingleLogin;
    if !Inv(st) { return; }
    SetMultiLoginKeepsInv(st, u, multi, exclude);
    var st1 := st.(multi := if multi then st.multi + {u} else st.multi - {u});
    SwitchedReads(st, st1, u, exclude);
    if !multi {
      SwitchAgreed(st, st1.multi);
      RevokeUserTokensCall(st1, u, exclude, true);
    }
  }

  lemma SwitchedReads(st: Store, st1: Store, u: User, exclude: Option<Session>)
    requires st1 == st.(multi := st1.multi)
    ensures forall a :: Accepts(st1, a) <==> Accepts(st, a)
    ensures forall st2 :: AllRevoked(st1, st2, u, exclude, true) ==> AllRevoked(st, st2, u, exclude, true)
  {
    forall a ensures Accepts(st1, a) == Accepts(st, a) && Stored(st1, a) == Stored(st, a) {}
    SwitchedEnds(st, st1, u, exclude);
    hide Accepts, Stored, Ended;
    forall st2 | AllRevoked(st1, st2, u, exclude, true) ensures AllRevoked(st, st2, u, exclude, true) {
      PresenceFrom(st1, st, st2, Ended(st, u, exclude, true));
      hide PresenceWithout;
    }
  }

  lemma SwitchedEnds(st: Store, st1: Store, u: User, exclude: Option<Session>)
    requires st1 == st.(multi := st1.multi)
    ensures Ended(st1, u, exclude, true) == Ended(st, u, exclude, true)
  {
    forall s ensures Formal(st1, u, s) == Formal(st, u, s) {}
    hide Formal;
  }

  /** The connection counts for its session for the given time, and for no other; only connections change. */
  ghost predicate Connected(st: Store, st': Store, sid: Sid, s: Session, expire: int) {
    && st' == st.(online := st'.online, sids := st'.sids)
    && (forall t :: Get(st'.sids, sid, t) == if t < st.now + expire then Some(s) else None)
    && forall x :: ShownOnline(st', x) <==>
      (x == s && 0 < expire) || exists other :: other != sid && Get(st.sids, other, st.now) == Some(x)
  }

  lemma ConnectCall(st: Store, sid: Sid, s: Session, expire: int)
    ensures var st' := Connect(st, sid, s, expire); Kept(st, st', Connected(st, st', sid, s, expire))
  {
    if !Inv(st) { return; }
    ConnectKeepsInv(st, sid, s, expire);
    var st' := Connect(st, sid, s, expire);
    forall other ensures Get(st'.sids, other, st.now) ==
                         if other == sid then (if 0 < expire then Some(s) else None) else Get(st.sids, other, st.now) {}
    assert st'.now == st.now;
    hide Inv, Connect, ShownOnline, Get;
    forall x ensures ShownOnline(st', x) <==>
      (x == s && 0 < expire) || exists other :: other != sid && Get(st.sids, other, st.now) == Some(x)
    {
      OnlineIffConnected(st', x);
      assert Get(st'.sids, sid, st.now) == Some(s) <==> 0 < expire;
    }
  }

  lemma DisconnectCall(st: Store, sid: Sid, saved: Option<Session>)
    ensures var st' := Disconnect(st, sid, saved); Kept(st, st', Disconnected(st, st', sid))
  {
    if !Inv(st) { return; }
    DisconnectKeepsInv(st, sid, saved);
    var st' := Disconnect(st, sid, saved);
    hide Inv, ShownOnline;
    if Get(st.sids, sid, st.now).Some? {
      forall other ensures Get(st'.sids, other, st'.now) == if other == sid then None
          else Get(st.sids, other, st.now) {}
      forall x ensures ShownOnline(st', x) <==> exists other :: other != sid && Get(st.sids, other, st.now) == Some(x) {
        OnlineIffConnected(st', x);
      }
    }
  }

  /** A known connection counts for no session any more, and the others count as before; only connections change. */
  ghost predicate Disconnected(st: Store, st': Store, sid: Sid) {
    && st' == st.(online := st'.online, sids := st'.sids)
    && (Get(st.sids, sid, st.now).Some? ==>
          forall x :: ShownOnline(st', x) <==> exists other :: other != sid && Get(st.sids, other, st.now) == Some(x))
  }

  /** The sessions read are the live formal ones; nothing is revoked. */
  ghost predicate SessionsRead(st: Store, st': Store, u: User, live: set<Session>) {
    && (forall s :: s in live <==> Formal(st, u, s))
    && st' == st.(index := st'.index, users := st'.users)
    && Members(st'.index, u, st.now) == live
    && (u in st'.users <==> live != {})
    && (forall v :: v != u ==> Members(st'.index, v, st.now) == Members(st.index, v, st.now))
    && (forall v :: v != u ==> (v in st'.users <==> v in st.users))
  }

  lemma GetUserSessionsCall(st: Store, u: User)
    requires Inv(st)
    ensures var (st', live) := GetUserSessions(st, u); Inv(st') && SessionsRead(st, st', u, live)
  {
    hide GetUserSessions, Agreed, Formal, Members;
    var (st', live) := GetUserSessions(st, u);
    GetUserSessionsAgreed(st, u);
    GetUserSessionsPrunes(st, u);
    PrunedIndex(st, st', u, live);
  }

  lemma GetUserSessionsPrunes(st: Store, u: User)
    requires Agreed(st)
    ensures var (st', live) := GetUserSessions(st, u); Pruned(st, st', u, live) && 0 < st.cfg.Longest()
  {
    hide GetUserSessions, Formal, Pruned;
    GetUserSessionsEffect(st, u);
  }

  lemma PrunedIndex(st: Store, st': Store, u: User, live: set<Session>)
    requires Pruned(st, st', u, live) && 0 < st.cfg.Longest()
    ensures Members(st'.index, u, st.now) == live && (u in st'.users <==> live != {})
    ensures forall v :: v != u ==>
      Members(st'.index, v, st.now) == Members(st.index, v, st.now) && (v in st'.users <==> v in st.users)
  {
    hide Formal;
    forall v | v != u
      ensures Members(st'.index, v, st.now) == Members(st.index, v, st.now) && (v in st'.users <==> v in st.users)
    {
      PrunedOthers(st, st', u, live, v);
    }
  }

  // ---------------------------------------------------------------- calls in any store

  lemma GetUserSessionsKept(st: Store, u: User, st': Store, live: set<Session>)
    requires (st', live) == GetUserSessions(st, u)
    ensures Kept(st, st', SessionsRead(st, st', u, live))
  {
    hide Inv, GetUserSessions, SessionsRead;
    if Inv(st) { GetUserSessionsCall(st, u); }
  }

  /** With the session passed in, or with one drawn; `multi` is the user's flag. */
  ghost predicate AccessCreated(st: Store, st': Store, u: User, multi: bool, session: Option<Session>,
      swagger: bool, t: Token) {
    var s := if session.Some? then session.value else st.next;
    var st1 := if session.Some? then st else st.(next := s + 1);
    Inv(st) && multi == (u in st.multi) && Mintable(st1, u, s, swagger) ==>
        Inv(st') && AccessMinted(st, st', u, s, swagger, t)
  }

  lemma CreateAccessTokenKept(st: Store, u: User, multi: bool, session: Option<Session>, swagger: bool, st': Store,
      t: Token)
    requires var s := if session.Some? then session.value else st.next;
      var st1 := if session.Some? then st else st.(next := s + 1);
      (st', t) == CreateAccessToken(st1, u, multi, s, swagger)
    ensures AccessCreated(st, st', u, multi, session, swagger, t)
  {
    hide CreateAccessToken, Inv, AccessMinted, Mintable;
    var s := if session.Some? then session.value else st.next;
    var st1 := if session.Some? then st else st.(next := s + 1);
    if Inv(st) && multi == (u in st.multi) && Mintable(st1, u, s, swagger) {
      if session.None? { DrawKeepsInv(st); }
      CreateAccessTokenCall(st1, u, s, swagger);
      if session.None? { DrawnMint(st, st', u, s, swagger, t); }
    }
  }

  lemma AccessCreatedBy(st: Store, u: User, multi: bool, session: Option<Session>, swagger: bool)
    ensures var s := if session.Some? then session.value else st.next;
      var st1 := if session.Some? then st else st.(next := s + 1);
      var (st', t) := CreateAccessToken(st1, u, multi, s, swagger);
      AccessCreated(st, st', u, multi, session, swagger, t)
  {
    hide CreateAccessToken, AccessCreated;
    var s := if session.Some? then session.value else st.next;
    var st1 := if session.Some? then st else st.(next := s + 1);
    var (st', t) := CreateAccessToken(st1, u, multi, s, swagger);
    CreateAccessTokenKept(st, u, multi, session, swagger, st', t);
  }

  lemma DrawKeepsInv(st: Store)
    requires Inv(st)
    ensures Inv(st.(next := st.next + 1))
  {
    hide Agreed, Formal;
    DrawAgreed(st);
  }

  lemma DrawnMint(st: Store, st2: Store, u: User, s: Session, swagger: bool, t: Token)
    requires AccessMinted(st.(next := st.next + 1), st2, u, s, swagger, t)
    ensures AccessMinted(st, st2, u, s, swagger, t)
  {
    var st1 := st.(next := st.next + 1);
    hide Accepts, Stored, Spared, PresenceWithout, Evictees;
    SameEvictees(st, st1, u, s, swagger);
    PresenceFrom(st1, st, st2, Evictees(st, u, s, swagger));
  }

  ghost predicate RefreshCreated(st: Store, st': Store, u: User, s: Session, t: Token) {
    && (st.cfg.Valid() ==> RefreshMinted(st, st', u, s, t))
    && (Inv(st) && Mintable(st, u, s, false) && OnlySession(st, u, s) ==> Inv(st'))
  }

  lemma CreateRefreshTokenKept(st: Store, u: User, s: Session)
    ensures var (st', t) := CreateRefreshToken(st, u, s); RefreshCreated(st, st', u, s, t)
  {
    hide Inv, CreateRefreshToken, Mintable, OnlySession, RefreshMinted;
    if st.cfg.Valid() { RefreshMintedBy(st, u, s); }
    if Inv(st) && Mintable(st, u, s, false) && OnlySession(st, u, s) { CreateRefreshTokenCall(st, u, s); }
  }

  /** The directory lists exactly the users with a live formal access token; nothing else changes. */
  ghost predicate DirectoryPruned(st: Store, st': Store) {
    && st' == st.(users := st'.users)
    && forall u :: u in st'.users <==> exists s :: Live(st.access, Key(u, s), st.now) && !Marked(st, u, s)
  }

  lemma PruneDirectoryCall(st: Store)
    requires Inv(st)
    ensures Inv(PruneDirectory(st)) && DirectoryPruned(st, PruneDirectory(st))
  {
    hide Inv, Readable;
    PruneDirectoryKeepsInv(st);
    forall u ensures u in PruneDirectory(st).users <==>
      exists s :: Live(st.access, Key(u, s), st.now) && !Marked(st, u, s)
    {
      ReadableIff(st, u);
    }
  }

  lemma ReadableIff(st: Store, u: User)
    requires Inv(st)
    ensures u in st.users && Readable(st, u) <==> exists s :: Live(st.access, Key(u, s), st.now) && !Marked(st, u, s)
  {
    hide PresenceIndexed, SingleLogin, SwaggerIndexed, Drawn;
    if s :| Live(st.access, Key(u, s), st.now) && !Marked(st, u, s) {
      assert Formal(st, u, s);
      assert s in Members(st.index, u, st.now) && CanRead(st, u, s);
    }
    if Readable(st, u) {
      var s :| s in Members(st.index, u, st.now) && CanRead(st, u, s);
      assert Marked(st, u, s) ==> Key(u, s) in st.extra;
    }
  }

  lemma PruneDirectoryKept(st: Store)
    ensures Kept(st, PruneDirectory(st), DirectoryPruned(st, PruneDirectory(st)))
  {
    hide Inv, PruneDirectory, DirectoryPruned;
    if Inv(st) { PruneDirectoryCall(st); }
  }
}
