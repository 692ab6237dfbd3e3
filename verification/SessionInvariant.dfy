/** The indexes of the session store agree with its primary keys, in every reachable state. */
module SessionInvariant {
  import opened TimedMaps
  import opened SessionModel

  /** A live formal session: one that holds a token and is not a swagger session. */
  ghost predicate Formal(st: Store, u: User, s: Session) {
    Live(st.refresh, Key(u, s), st.now) || (Live(st.access, Key(u, s), st.now) && !Marked(st, u, s))
  }

  /** Tokens sit under their own key, expire with it, and were minted from the uuid supply. */
  ghost predicate Genuine(st: Store, m: map<SessionKey, Timed<Token>>, ttl: int) {
    forall k :: k in m ==>
      && m[k].value.user == k.user && m[k].value.session == k.session
      && m[k].value.exp == m[k].expires
      && m[k].value.jti < st.next && k.session < st.next
      && m[k].expires <= st.now + ttl
  }

  /** No session uuid is in use before it is drawn. */
  ghost predicate Drawn(st: Store) {
    && (forall k :: k in st.extra ==> k.session < st.next)
    && (forall u, s :: u in st.index && s in st.index[u].value ==> s < st.next)
    && (forall u, s :: u in st.swagger && s in st.swagger[u].value ==> s < st.next)
  }

  /** A live formal key is indexed, by an index that outlives it. */
  ghost predicate FormalIndexed(st: Store) {
    forall u, s :: Formal(st, u, s) ==>
      && s in Members(st.index, u, st.now)
      && (Live(st.access, Key(u, s), st.now) ==> st.access[Key(u, s)].expires <= st.index[u].expires)
      && (Live(st.refresh, Key(u, s), st.now) ==> st.refresh[Key(u, s)].expires <= st.index[u].expires)
  }

  /** A live swagger key is in the swagger set, which outlives it. */
  ghost predicate SwaggerIndexed(st: Store) {
    forall u, s :: Marked(st, u, s) && Live(st.access, Key(u, s), st.now) ==>
      s in Members(st.swagger, u, st.now) && st.access[Key(u, s)].expires <= st.swagger[u].expires
  }

  /** Swagger sessions hold no refresh token, are never in the formal index, and keep their mark. */
  ghost predicate SwaggerApart(st: Store) {
    forall k :: k in st.extra && st.extra[k].value ==>
      && k !in st.refresh
      && (k.user in st.index ==> k.session !in st.index[k.user].value)
      && (k in st.access ==> st.access[k].expires <= st.extra[k].expires)
  }

  /** Every user with a live formal access token is in the directory. */
  ghost predicate InDirectory(st: Store) {
    forall u, s :: Live(st.access, Key(u, s), st.now) && !Marked(st, u, s) ==> u in st.users
  }

  /** Single login: without multi login, at most one live formal session. */
  ghost predicate SingleLogin(st: Store) {
    forall u, s, s' :: u !in st.multi && Formal(st, u, s) && Formal(st, u, s') ==> s == s'
  }

  /** A live connection is in its session's set, which outlives it. */
  ghost predicate PresenceIndexed(st: Store) {
    forall sid :: Live(st.sids, sid, st.now) ==>
      var s := st.sids[sid].value;
      sid in Members(st.online, s, st.now) && st.sids[sid].expires <= st.online[s].expires
  }

  /** Where keys, tokens and uuids come from. */
  ghost predicate Provenance(st: Store) {
    && st.cfg.Valid()
    && Genuine(st, st.access, st.cfg.access)
    && Genuine(st, st.refresh, st.cfg.refresh)
    && Drawn(st)
    && SwaggerApart(st)
  }

  ghost predicate Tokens(st: Store) {
    Provenance(st) && FormalIndexed(st) && SwaggerIndexed(st) && InDirectory(st)
  }

  /** Both stores have the same settings, clock, uuid supply and user flags. */
  ghost predicate SameFrame(st: Store, st': Store) {
    st'.cfg == st.cfg && st'.now == st.now && st'.next == st.next && st'.multi == st.multi
  }

  ghost predicate Agreed(st: Store) {
    Tokens(st) && PresenceIndexed(st)
  }

  ghost predicate Inv(st: Store) {
    Agreed(st) && SingleLogin(st)
  }

  // ---------------------------------------------------------------- reading a user's sessions

  /** What `GetUserSessions` does to the store, said without its branches. */
  ghost predicate Pruned(st: Store, st': Store, u: User, live: set<Session>) {
    && st' == st.(index := st'.index, users := st'.users)
    && (forall s :: s in live <==> Formal(st, u, s))
    && st'.index - {u} == st.index - {u}
    && st'.users == (if live == {} then st.users - {u} else st.users + {u})
    && (if live == {} then u !in st'.index
        else u in st'.index && st'.index[u] == Timed(live, st.now + st.cfg.Longest()))
  }

  /** The classification loop finds exactly the live formal sessions, and no swagger mark. */
  lemma ClassifiedSessions(st: Store, u: User)
    requires FormalIndexed(st) && SwaggerApart(st)
    ensures (set s | s in Members(st.index, u, st.now) && Marked(st, u, s)) == {}
    ensures var live := GetUserSessions(st, u).1;
      && live <= Members(st.index, u, st.now)
      && forall s :: s in live <==> Formal(st, u, s)
  {
    assert forall s :: s in Members(st.index, u, st.now) && Marked(st, u, s) ==> Key(u, s) in st.extra;
    forall s ensures s in GetUserSessions(st, u).1 <==> Formal(st, u, s) {
      if Formal(st, u, s) {
        assert s in Members(st.index, u, st.now);
        assert Marked(st, u, s) ==> Key(u, s) in st.extra;
      }
    }
  }

  /** Reading a user's sessions drops the dead index entries and keeps everything else. */
  lemma GetUserSessionsEffect(st: Store, u: User)
    requires FormalIndexed(st) && SwaggerApart(st)
    ensures Pruned(st, GetUserSessions(st, u).0, u, GetUserSessions(st, u).1)
  {
    hide Formal, Marked, Alive, RemoveMembers, Expire, FormalIndexed, SwaggerApart, Members;
    ClassifiedSessions(st, u);
    var (st', live) := GetUserSessions(st, u);
    if live == {} {
      assert st'.index == st.index - {u};
      assert (st.index - {u}) - {u} == st.index - {u};
    } else {
      KeptIndex(st.index, u, st.now, live, st.now + st.cfg.Longest());
    }
  }

  /** Dropping all but the live members leaves the live ones, with a new deadline. */
  lemma KeptIndex(index: map<User, Timed<set<Session>>>, u: User, now: int, live: set<Session>, expires: int)
    requires live != {} && live <= Members(index, u, now)
    ensures var indexed := Members(index, u, now);
      var kept := if indexed - live == {} then index else RemoveMembers(index, u, now, indexed - live);
      var index' := Expire(kept, u, now, expires);
      u in index' && index'[u] == Timed(live, expires) && index' - {u} == index - {u}
  {
    var indexed := Members(index, u, now);
    assert indexed - (indexed - live) == live;
    assert indexed - live == {} ==> indexed == live;
    assert !(indexed <= indexed - live);
  }

  lemma PrunedOthers(st: Store, st': Store, u: User, live: set<Session>, v: User)
    requires Pruned(st, st', u, live) && v != u
    ensures v in st'.index <==> v in st.index
    ensures v in st'.index ==> st'.index[v] == st.index[v]
    ensures v in st'.users <==> v in st.users
  {
    assert v in st'.index <==> v in st'.index - {u};
    assert v in st.index <==> v in st.index - {u};
  }

  lemma PrunedIndexes(st: Store, st': Store, u: User, live: set<Session>)
    requires Tokens(st) && Pruned(st, st', u, live)
    ensures FormalIndexed(st') && InDirectory(st')
    ensures forall v, s :: Formal(st', v, s) == Formal(st, v, s)
  {
    forall v, s
      ensures Formal(st', v, s) == Formal(st, v, s)
      ensures Formal(st', v, s) ==>
        && s in Members(st'.index, v, st.now)
        && (Live(st'.access, Key(v, s), st.now) ==> st'.access[Key(v, s)].expires <= st'.index[v].expires)
        && (Live(st'.refresh, Key(v, s), st.now) ==> st'.refresh[Key(v, s)].expires <= st'.index[v].expires)
      ensures Live(st'.access, Key(v, s), st.now) && !Marked(st', v, s) ==> v in st'.users
    {
      if v != u { PrunedOthers(st, st', u, live, v); }
    }
  }

  lemma PrunedKeepsTokens(st: Store, st': Store, u: User, live: set<Session>)
    requires Tokens(st) && Pruned(st, st', u, live)
    ensures Tokens(st')
  {
    PrunedIndexes(st, st', u, live);
    assert SwaggerIndexed(st') by {
      forall v, s ensures Marked(st', v, s) == Marked(st, v, s) {}
    }
    forall v, s | v in st'.index && s in st'.index[v].value
      ensures s < st.next && (Key(v, s) in st.extra ==> !st.extra[Key(v, s)].value)
    {
      if v != u { PrunedOthers(st, st', u, live, v); } else { assert Formal(st, u, s); }
    }
  }

  // ---------------------------------------------------------------- revoking

  /** What `RevokeSessions` does to the store, said key by key. */
  ghost predicate Revoked(st: Store, st': Store, u: User, ss: set<Session>) {
    && st' == st.(access := st'.access, refresh := st'.refresh, extra := st'.extra, index := st'.index,
                  swagger := st'.swagger, users := st'.users, online := st'.online, sids := st'.sids)
    && st'.access == st.access - KeysOf(u, ss)
    && st'.refresh == st.refresh - KeysOf(u, ss)
    && st'.extra == st.extra - KeysOf(u, ss)
    && (forall v :: Members(st'.index, v, st.now) == Members(st.index, v, st.now) - if v == u then ss else {})
    && (forall v :: v in st'.index ==> v in st.index && st'.index[v].value <= st.index[v].value
                                       && st'.index[v].expires == st.index[v].expires)
    && (forall v :: Members(st'.swagger, v, st.now) == Members(st.swagger, v, st.now) - if v == u then ss else {})
    && (forall v :: v in st'.swagger ==> v in st.swagger && st'.swagger[v].value <= st.swagger[v].value
                                         && st'.swagger[v].expires == st.swagger[v].expires)
    && (st'.users == st.users || (st'.users == st.users - {u} && Members(st'.index, u, st.now) == {}))
  }

  lemma RevokeSessionsEffect(st: Store, u: User, ss: set<Session>)
    ensures Revoked(st, RevokeSessions(st, u, ss), u, ss)
  {
    if ss == {} {
      assert KeysOf(u, ss) == {};
    }
  }

  /** Revoking sessions of `u` removes exactly their formal status. */
  lemma RevokedFormal(st: Store, st': Store, u: User, ss: set<Session>)
    requires Revoked(st, st', u, ss)
    ensures forall v, s :: Formal(st', v, s) <==> Formal(st, v, s) && !(v == u && s in ss)
    ensures forall v, s :: Marked(st', v, s) <==> Marked(st, v, s) && !(v == u && s in ss)
  {
    assert forall k :: k in st'.access <==> k in st.access && !(k.user == u && k.session in ss);
    assert forall k :: k in st'.refresh <==> k in st.refresh && !(k.user == u && k.session in ss);
    assert forall k :: k in st'.extra <==> k in st.extra && !(k.user == u && k.session in ss);
  }

  lemma RevokedIndexes(st: Store, st': Store, u: User, ss: set<Session>)
    requires FormalIndexed(st) && SwaggerIndexed(st) && Revoked(st, st', u, ss)
    ensures FormalIndexed(st') && SwaggerIndexed(st')
  {
    RevokedFormal(st, st', u, ss);
    forall v, s | Formal(st', v, s)
      ensures s in Members(st'.index, v, st.now)
      ensures Live(st'.access, Key(v, s), st.now) ==> st'.access[Key(v, s)].expires <= st'.index[v].expires
      ensures Live(st'.refresh, Key(v, s), st.now) ==> st'.refresh[Key(v, s)].expires <= st'.index[v].expires
    {
      assert Formal(st, v, s);
    }
    forall v, s | Marked(st', v, s) && Live(st'.access, Key(v, s), st.now)
      ensures s in Members(st'.swagger, v, st.now) && st'.access[Key(v, s)].expires <= st'.swagger[v].expires
    {
      assert Marked(st, v, s);
    }
  }

  lemma RevokedProvenance(st: Store, st': Store, u: User, ss: set<Session>)
    requires Provenance(st) && Revoked(st, st', u, ss)
    ensures Provenance(st')
  {
  }

  lemma RevokedListed(st: Store, st': Store, u: User, ss: set<Session>)
    requires FormalIndexed(st) && InDirectory(st) && Revoked(st, st', u, ss)
    ensures InDirectory(st')
  {
    RevokedFormal(st, st', u, ss);
    forall v, s | Live(st'.access, Key(v, s), st.now) && !Marked(st', v, s) ensures v in st'.users {
      assert Formal(st', v, s);
      assert s in Members(st'.index, v, st.now);
    }
  }

  lemma RevokedKeepsTokens(st: Store, st': Store, u: User, ss: set<Session>)
    requires Tokens(st) && Revoked(st, st', u, ss)
    ensures Tokens(st')
  {
    RevokedIndexes(st, st', u, ss);
    RevokedProvenance(st, st', u, ss);
    RevokedListed(st, st', u, ss);
  }

  lemma RevokeKeepsPresence(st: Store, u: User, ss: set<Session>)
    requires PresenceIndexed(st)
    ensures PresenceIndexed(RevokeSessions(st, u, ss))
  {
    if ss == {} { return; }
    var st' := RevokeSessions(st, u, ss);
    forall sid | Live(st'.sids, sid, st'.now)
      ensures var s := st'.sids[sid].value;
        sid in Members(st'.online, s, st'.now) && st'.sids[sid].expires <= st'.online[s].expires
    {
      var s := st.sids[sid].value;
      assert s in ss ==> sid in SidsOf(st, ss);
    }
  }

  // ---------------------------------------------------------------- storing

  /** The session of `u` carries no swagger mark, not even an expired one. */
  ghost predicate Plain(st: Store, u: User, s: Session) {
    Key(u, s) in st.extra ==> !st.extra[Key(u, s)].value
  }

  ghost predicate Minted(st: Store, t: Token, u: User, s: Session, ttl: int) {
    t.user == u && t.session == s && t.jti < st.next && s < st.next && t.exp == st.now + ttl
  }

  lemma StoreAccessFormal(st: Store, u: User, s: Session, t: Token)
    requires Plain(st, u, s) && st.cfg.Valid()
    ensures var st' := StoreAccess(st, u, s, false, t);
      && (forall v, x :: Formal(st', v, x) <==> Formal(st, v, x) || (v == u && x == s))
      && (forall v, x :: Marked(st', v, x) <==> Marked(st, v, x))
  {
  }

  lemma StoreAccessIndexed(st: Store, u: User, s: Session, t: Token)
    requires Tokens(st) && Plain(st, u, s) && Minted(st, t, u, s, st.cfg.access)
    ensures var st' := StoreAccess(st, u, s, false, t);
      FormalIndexed(st') && InDirectory(st')
  {
    StoreAccessFormal(st, u, s, t);
    var st' := StoreAccess(st, u, s, false, t);
    forall v, x | Formal(st', v, x)
      ensures x in Members(st'.index, v, st.now)
      ensures Live(st'.access, Key(v, x), st.now) ==> st'.access[Key(v, x)].expires <= st'.index[v].expires
      ensures Live(st'.refresh, Key(v, x), st.now) ==> st'.refresh[Key(v, x)].expires <= st'.index[v].expires
    {
      assert Formal(st, v, x) || (v == u && x == s);
    }
  }

  lemma StoreAccessGenuine(st: Store, u: User, s: Session, t: Token)
    requires Provenance(st) && Plain(st, u, s) && Minted(st, t, u, s, st.cfg.access)
    ensures var st' := StoreAccess(st, u, s, false, t);
      st'.cfg == st.cfg && Genuine(st', st'.access, st.cfg.access) && Genuine(st', st'.refresh, st.cfg.refresh)
  {
    hide Drawn, SwaggerApart;
  }

  lemma StoreAccessApart(st: Store, u: User, s: Session, t: Token)
    requires Provenance(st) && Plain(st, u, s) && Minted(st, t, u, s, st.cfg.access)
    ensures Drawn(StoreAccess(st, u, s, false, t)) && SwaggerApart(StoreAccess(st, u, s, false, t))
  {
    hide Genuine;
  }

  lemma StoreAccessProvenance(st: Store, u: User, s: Session, t: Token)
    requires Provenance(st) && Plain(st, u, s) && Minted(st, t, u, s, st.cfg.access)
    ensures Provenance(StoreAccess(st, u, s, false, t))
  {
    StoreAccessGenuine(st, u, s, t);
    StoreAccessApart(st, u, s, t);
    hide Genuine, Drawn, SwaggerApart;
  }

  lemma StoreAccessKeepsTokens(st: Store, u: User, s: Session, t: Token)
    requires Tokens(st) && Plain(st, u, s) && Minted(st, t, u, s, st.cfg.access)
    ensures Tokens(StoreAccess(st, u, s, false, t))
  {
    StoreAccessIndexed(st, u, s, t);
    StoreAccessProvenance(st, u, s, t);
    StoreAccessFormal(st, u, s, t);
    var st' := StoreAccess(st, u, s, false, t);
    assert SwaggerIndexed(st') by {
      forall v, x | Marked(st', v, x) && Live(st'.access, Key(v, x), st.now)
        ensures x in Members(st'.swagger, v, st.now) && st'.access[Key(v, x)].expires <= st'.swagger[v].expires
      {
        assert Marked(st, v, x);
      }
    }
  }

  /** A session uuid that has just been drawn occurs nowhere. */
  ghost predicate Unused(st: Store, u: User, s: Session) {
    && Key(u, s) !in st.access && Key(u, s) !in st.refresh && Key(u, s) !in st.extra
    && (u in st.index ==> s !in st.index[u].value)
  }

  lemma StoreSwaggerFormal(st: Store, u: User, s: Session, t: Token)
    requires Unused(st, u, s) && st.cfg.Valid()
    ensures var st' := StoreAccess(st, u, s, true, t);
      && (forall v, x :: Formal(st', v, x) <==> Formal(st, v, x))
      && (forall v, x :: Marked(st', v, x) <==> Marked(st, v, x) || (v == u && x == s))
  {
  }

  lemma StoreSwaggerIndexed(st: Store, u: User, s: Session, t: Token)
    requires Tokens(st) && Unused(st, u, s)
    ensures SwaggerIndexed(StoreAccess(st, u, s, true, t))
  {
    StoreSwaggerFormal(st, u, s, t);
    var st' := StoreAccess(st, u, s, true, t);
    forall v, x | Marked(st', v, x) && Live(st'.access, Key(v, x), st.now)
      ensures x in Members(st'.swagger, v, st.now) && st'.access[Key(v, x)].expires <= st'.swagger[v].expires
    {
      assert Marked(st, v, x) || (v == u && x == s);
    }
  }

  lemma StoreSwaggerGenuine(st: Store, u: User, s: Session, t: Token)
    requires Provenance(st) && Unused(st, u, s) && Minted(st, t, u, s, st.cfg.access)
    ensures var st' := StoreAccess(st, u, s, true, t);
      st'.cfg == st.cfg && Genuine(st', st'.access, st.cfg.access) && Genuine(st', st'.refresh, st.cfg.refresh)
  {
    hide Drawn, SwaggerApart;
  }

  lemma StoreSwaggerApart(st: Store, u: User, s: Session, t: Token)
    requires Provenance(st) && Unused(st, u, s) && Minted(st, t, u, s, st.cfg.access)
    ensures Drawn(StoreAccess(st, u, s, true, t)) && SwaggerApart(StoreAccess(st, u, s, true, t))
  {
    hide Genuine;
  }

  lemma StoreSwaggerProvenance(st: Store, u: User, s: Session, t: Token)
    requires Provenance(st) && Unused(st, u, s) && Minted(st, t, u, s, st.cfg.access)
    ensures Provenance(StoreAccess(st, u, s, true, t))
  {
    StoreSwaggerGenuine(st, u, s, t);
    StoreSwaggerApart(st, u, s, t);
    hide Genuine, Drawn, SwaggerApart;
  }

  lemma StoreSwaggerKeepsTokens(st: Store, u: User, s: Session, t: Token)
    requires Tokens(st) && Unused(st, u, s) && Minted(st, t, u, s, st.cfg.access)
    ensures Tokens(StoreAccess(st, u, s, true, t))
  {
    StoreSwaggerFormal(st, u, s, t);
    StoreSwaggerIndexed(st, u, s, t);
    StoreSwaggerProvenance(st, u, s, t);
    var st' := StoreAccess(st, u, s, true, t);
    assert FormalIndexed(st') by {
      forall v, x | Formal(st', v, x)
        ensures x in Members(st'.index, v, st.now)
        ensures Live(st'.access, Key(v, x), st.now) ==> st'.access[Key(v, x)].expires <= st'.index[v].expires
        ensures Live(st'.refresh, Key(v, x), st.now) ==> st'.refresh[Key(v, x)].expires <= st'.index[v].expires
      {
        assert Formal(st, v, x);
      }
    }
  }

  lemma StoreRefreshFormal(st: Store, u: User, s: Session, t: Token)
    requires st.cfg.Valid()
    ensures var st' := StoreRefresh(st, u, s, t);
      forall v, x :: Formal(st', v, x) <==> Formal(st, v, x) || (v == u && x == s)
  {
  }

  lemma StoreRefreshGenuine(st: Store, u: User, s: Session, t: Token)
    requires Provenance(st) && Plain(st, u, s) && Minted(st, t, u, s, st.cfg.refresh)
    ensures var st' := StoreRefresh(st, u, s, t);
      st'.cfg == st.cfg && Genuine(st', st'.access, st.cfg.access) && Genuine(st', st'.refresh, st.cfg.refresh)
  {
    hide Drawn, SwaggerApart;
  }

  lemma StoreRefreshApart(st: Store, u: User, s: Session, t: Token)
    requires Provenance(st) && Plain(st, u, s) && Minted(st, t, u, s, st.cfg.refresh)
    ensures Drawn(StoreRefresh(st, u, s, t)) && SwaggerApart(StoreRefresh(st, u, s, t))
  {
    hide Genuine;
  }

  lemma StoreRefreshProvenance(st: Store, u: User, s: Session, t: Token)
    requires Provenance(st) && Plain(st, u, s) && Minted(st, t, u, s, st.cfg.refresh)
    ensures Provenance(StoreRefresh(st, u, s, t))
  {
    StoreRefreshGenuine(st, u, s, t);
    StoreRefreshApart(st, u, s, t);
    hide Genuine, Drawn, SwaggerApart;
  }

  lemma StoreRefreshKeepsTokens(st: Store, u: User, s: Session, t: Token)
    requires Tokens(st) && Plain(st, u, s) && Minted(st, t, u, s, st.cfg.refresh)
    ensures Tokens(StoreRefresh(st, u, s, t))
  {
    StoreRefreshFormal(st, u, s, t);
    StoreRefreshProvenance(st, u, s, t);
    var st' := StoreRefresh(st, u, s, t);
    assert FormalIndexed(st') by {
      forall v, x | Formal(st', v, x)
        ensures x in Members(st'.index, v, st.now)
        ensures Live(st'.access, Key(v, x), st.now) ==> st'.access[Key(v, x)].expires <= st'.index[v].expires
        ensures Live(st'.refresh, Key(v, x), st.now) ==> st'.refresh[Key(v, x)].expires <= st'.index[v].expires
      {
        assert Formal(st, v, x) || (v == u && x == s);
      }
    }
    assert SwaggerIndexed(st') by {
      forall v, x | Marked(st', v, x) ensures Marked(st, v, x) {}
    }
  }
}
