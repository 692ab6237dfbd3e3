/** What the session calls write, in any store at all: also in those the invariant excludes. */
module SessionEffects {
  import opened Wrappers
  import opened Collections
  import opened TimedMaps
  import opened SessionModel
  import opened SessionInvariant
  import opened SessionCalls

  // ---------------------------------------------------------------- reading and revoking

  /** The sessions read are the indexed ones without a mark that hold a token; the index keeps exactly these, for the
      longest token lifetime, and the user is listed if there are any. */
  lemma LiveSessionsStay(st: Store, u: User)
    requires st.cfg.Valid()
    ensures var (st', live) := GetUserSessions(st, u);
      && (forall s :: s in live <==> s in Members(st.index, u, st.now) && !Marked(st, u, s) && Alive(st, u, s))
      && (u in st'.users <==> live != {}) && st'.users - {u} == st.users - {u}
      && (if live == {} then u !in st'.index
          else u in st'.index && st'.index[u] == Timed(live, st.now + st.cfg.Longest()))
      && st'.index - {u} == st.index - {u}
  {
    hide Marked, Alive, Expire, RemoveMembers, AddMembers;
    var (st', live) := GetUserSessions(st, u);
    var indexed := Members(st.index, u, st.now);
    var marked := set s | s in indexed && Marked(st, u, s);
    var index := if marked == {} then st.index else RemoveMembers(st.index, u, st.now, marked);
    hide Members;
    if live != {} {
      IndexKept(st.index, index, u, st.now, marked, indexed, live, st.cfg.Longest());
    } else {
      IndexRemoved(st.index, index, u, st.now, marked);
    }
  }

  /** Marked sessions move from the index to the swagger set, which then lasts as long as an access token. */
  lemma MarkedSessionsMove(st: Store, u: User)
    ensures var st' := GetUserSessions(st, u).0;
      var marked := set s | s in Members(st.index, u, st.now) && Marked(st, u, s);
      && st' == st.(index := st'.index, swagger := st'.swagger, users := st'.users)
      && (marked == {} ==> st'.swagger == st.swagger)
      && (marked != {} ==>
            u in st'.swagger
            && st'.swagger[u] == Timed(Members(st.swagger, u, st.now) + marked, st.now + st.cfg.access)
            && st'.swagger - {u} == st.swagger - {u})
  {
    hide Marked, Alive, Expire, RemoveMembers, Members, AddMembers;
    var st' := GetUserSessions(st, u).0;
    var marked := set s | s in Members(st.index, u, st.now) && Marked(st, u, s);
    AddedMembers(st.swagger, u, st.now, marked, st.now + st.cfg.access);
  }

  lemma AddedMembers(m: map<User, Timed<set<Session>>>, u: User, now: int, ss: set<Session>, expires: int)
    ensures var m' := AddMembers(m, u, now, ss, expires);
      u in m' && m'[u] == Timed(Members(m, u, now) + ss, expires) && m' - {u} == m - {u}
  {
  }

  lemma IndexRemoved(m: map<User, Timed<set<Session>>>, index: map<User, Timed<set<Session>>>, u: User, now: int,
      marked: set<Session>)
    requires index == if marked == {} then m else RemoveMembers(m, u, now, marked)
    ensures index - {u} == m - {u}
  {
  }

  /** Removing the marked, then the dead, and renewing leaves the live ones. */
  lemma IndexKept(m: map<User, Timed<set<Session>>>, index: map<User, Timed<set<Session>>>, u: User, now: int,
      marked: set<Session>, indexed: set<Session>, live: set<Session>, ttl: int)
    requires 0 < ttl && indexed == Members(m, u, now) && live <= indexed - marked && live != {}
    requires index == if marked == {} then m else RemoveMembers(m, u, now, marked)
    ensures var kept := if indexed - live == {} then index else RemoveMembers(index, u, now, indexed - live);
      var after := Expire(kept, u, now, now + ttl);
      u in after && after[u] == Timed(live, now + ttl) && after - {u} == m - {u}
  {
    var x := Pick(live);
    assert x in indexed && x !in marked;
    assert index == m || index == m[u := Timed(indexed - marked, m[u].expires)];
    assert Members(index, u, now) == indexed - marked;
    var kept := if indexed - live == {} then index else RemoveMembers(index, u, now, indexed - live);
    assert (indexed - marked) - (indexed - live) == live;
    assert kept == index || kept == index[u := Timed(live, index[u].expires)];
    assert Members(kept, u, now) == live;
  }

  /** A revocation unlists the sessions, and unlists the user when no session is left in the index. */
  lemma RevokedListing(st: Store, u: User, ss: set<Session>, v: User)
    requires ss != {}
    ensures var st' := RevokeSessions(st, u, ss);
      var gone := if v == u then ss else {};
      && Members(st'.index, v, st.now) == Members(st.index, v, st.now) - gone
      && Members(st'.swagger, v, st.now) == Members(st.swagger, v, st.now) - gone
      && (v in st'.users <==> v in st.users && (v == u ==> Members(st.index, u, st.now) - ss != {}))
      && st'.next == st.next
  {
    hide Members, RemoveMembers;
    RemovedMembers(st.index, u, st.now, ss, v);
    RemovedMembers(st.index, u, st.now, ss, u);
    RemovedMembers(st.swagger, u, st.now, ss, v);
  }

  // ---------------------------------------------------------------- minting

  lemma RevokingKeepsSettings(st: Store, u: User, exclude: Option<Session>, includeSwagger: bool)
    ensures SameFrame(st, RevokeUserTokens(st, u, exclude, includeSwagger))
  {
    hide RemoveMembers, AddMembers, Expire, Marked, Alive, KeysOf, SidsOf;
  }

  /** Where an access token is written: under its key with its own expiry, with a mark that says whether it is a
      swagger one and lasts as long as the token, or for a formal one as long as the longer lifetime; listed in
      the set of its kind, which is renewed; a formal one lists the user. */
  lemma AccessWritten(st: Store, u: User, multi: bool, s: Session, swagger: bool)
    requires st.cfg.Valid()
    ensures var (st', t) := CreateAccessToken(st, u, multi, s, swagger);
      var k := Key(u, s);
      && t.exp == st.now + st.cfg.access
      && k in st'.access && st'.access[k] == Timed(t, t.exp)
      && k in st'.extra && st'.extra[k].value == swagger
      && (if swagger then
            && st'.extra[k].expires == t.exp
            && u in st'.swagger && s in st'.swagger[u].value && st'.swagger[u].expires == t.exp
          else
            && st'.extra[k].expires - st.now >= st.cfg.access && st'.extra[k].expires - st.now >= st.cfg.refresh
            && st'.extra[k].expires - st.now in {st.cfg.access, st.cfg.refresh}
            && u in st'.index && s in st'.index[u].value && st'.index[u].expires == st'.extra[k].expires
            && u in st'.users)
  {
    hide RevokeUserTokens;
    RevokingKeepsSettings(st.(next := st.next + 1), u, Some(s), false);
  }

  /** Where a refresh token is written, and what else a refresh token brings about. */
  lemma RefreshWritten(st: Store, u: User, s: Session)
    requires st.cfg.Valid()
    ensures var (st', t) := CreateRefreshToken(st, u, s);
      && t.exp == st.now + st.cfg.refresh
      && st'.refresh == st.refresh[Key(u, s) := Timed(t, t.exp)]
      && Members(st'.index, u, st.now) == Members(st.index, u, st.now) + {s} && t.exp <= st'.index[u].expires
      && st'.index - {u} == st.index - {u}
      && u in st'.users && st'.users - {u} == st.users - {u}
      && (st'.access, st'.extra, st'.swagger) == (st.access, st.extra, st.swagger)
  {
  }

  // ---------------------------------------------------------------- refusals

  /** Why a refresh is refused, in the order of the checks: an expired token, no enabled user, another live session of
      a single-login user, or a token other than the one stored for the session. */
  lemma RefusedWhy(st: Store, t: Token, enabled: bool)
    ensures var r := RefreshLogin(st, t, enabled).1;
      var elsewhere := t.user !in st.multi && exists s :: s in GetUserSessions(st, t.user).1 && s != t.session;
      && (r == Rejected(TokenExpired) <==> t.exp <= st.now)
      && (r == Rejected(NoUser) <==> st.now < t.exp && !enabled)
      && (r == Rejected(RemoteLogin) <==> st.now < t.exp && enabled && elsewhere)
      && (r == Rejected(RefreshExpired) <==> st.now < t.exp && enabled && !elsewhere && !Stored(st, t))
      && (r.Ok? <==> st.now < t.exp && enabled && !elsewhere && Stored(st, t))
  {
    hide GetUserSessions, CreateAccessToken, CreateRefreshToken;
    var (st1, others) := GetUserSessions(st, t.user);
    ReadingKeepsRefresh(st, t.user);
    OthersThan(others, t.session);
  }

  lemma OthersThan(ss: set<Session>, s: Session)
    ensures ss - {s} != {} <==> exists other :: other in ss && other != s
  {
    if other :| other in ss && other != s { assert other in ss - {s}; }
    if ss - {s} != {} {
      var other := Pick(ss - {s});
    }
  }

  lemma ReadingKeepsRefresh(st: Store, u: User)
    ensures GetUserSessions(st, u).0.refresh == st.refresh && GetUserSessions(st, u).0.now == st.now
  {
    hide RemoveMembers, AddMembers, Expire, Marked, Alive;
  }

  // ---------------------------------------------------------------- connections

  /** A connection with an access token is let in exactly when the token is accepted, and then lasts as long. */
  lemma ConnectWithTokenCall(st: Store, sid: Sid, t: Token)
    ensures var (st', joined) := ConnectWithToken(st, sid, t);
      && (joined <==> Accepts(st, t))
      && (!joined ==> st' == st)
      && (joined ==> Kept(st, st', Connected(st, st', sid, t.session, t.exp - st.now)))
      && (joined && Inv(st) ==> ShownOnline(st', t.session))
  {
    hide Connect, Inv, Connected, ShownOnline;
    if Accepts(st, t) {
      ConnectCall(st, sid, t.session, t.exp - st.now);
      if Inv(st) { ConnectedIsShown(st, Connect(st, sid, t.session, t.exp - st.now), sid, t.session, t.exp - st.now); }
    }
  }

  lemma ConnectedIsShown(st: Store, st': Store, sid: Sid, s: Session, expire: int)
    requires Connected(st, st', sid, s, expire) && 0 < expire
    ensures ShownOnline(st', s)
  {
    hide ShownOnline;
  }

  /** A connection joins its session's set, whose life is never cut short by it. */
  lemma ConnectWritten(st: Store, sid: Sid, s: Session, expire: int)
    ensures var st' := Connect(st, sid, s, expire);
      && st'.sids == st.sids[sid := Timed(s, st.now + expire)]
      && st'.online - {s} == st.online - {s}
      && s in st'.online && st'.online[s].value == Members(st.online, s, st.now) + {sid}
      && st'.online[s].expires ==
         if Live(st.online, s, st.now) && st.now + expire < st.online[s].expires then st.online[s].expires
         else st.now + expire
  {
  }

  /** A disconnection forgets the sid and sweeps its session's set: what is left there are the other sids that map
      to the session.  The session is the one the sid maps to, else the one remembered. */
  lemma DisconnectWritten(st: Store, sid: Sid, saved: Option<Session>)
    ensures var st' := Disconnect(st, sid, saved);
      var session := if Live(st.sids, sid, st.now) then Some(st.sids[sid].value) else saved;
      if session.None? then st' == st
      else
        && st' == st.(online := st'.online, sids := st.sids - {sid})
        && (forall x :: x in Members(st'.online, session.value, st.now) <==>
              && x in Members(st.online, session.value, st.now) && x != sid
              && Get(st.sids, x, st.now) == session)
        && st'.online - {session.value} == st.online - {session.value}
  {
    hide RemoveMembers, Members;
    var session := if Live(st.sids, sid, st.now) then Some(st.sids[sid].value) else saved;
    assert Get(st.sids, sid, st.now) == if Live(st.sids, sid, st.now) then session else None;
    hide Get;
    if session.Some? { Swept(st.online, st.sids, st.now, session.value, sid); }
  }

  lemma Swept(online: map<Session, Timed<set<Sid>>>, sids: map<Sid, Timed<Session>>, now: int, s: Session, sid: Sid)
    ensures var less := RemoveMembers(online, s, now, {sid});
      var stale := set x | x in Members(less, s, now) && Get(sids - {sid}, x, now) != Some(s);
      var after := if stale == {} then less else RemoveMembers(less, s, now, stale);
      && (forall x :: x in Members(after, s, now) <==>
            x in Members(online, s, now) && x != sid && Get(sids, x, now) == Some(s))
      && after - {s} == online - {s}
  {
    var less := RemoveMembers(online, s, now, {sid});
    var stale := set x | x in Members(less, s, now) && Get(sids - {sid}, x, now) != Some(s);
    RemovedMembers(online, s, now, {sid}, s);
    RemovedMembers(less, s, now, stale, s);
    forall x | x != sid ensures Get(sids - {sid}, x, now) == Get(sids, x, now) {}
    hide Members, Get;
  }

  /** The clock alone moves. */
  lemma ClockMoves(st: Store, seconds: nat)
    ensures var st' := Apply(st, DoTick(seconds)); st'.now - st.now == seconds && st' == st.(now := st'.now)
  {
  }
}
