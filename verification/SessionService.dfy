/** The token module and the presence hooks as they run: loops over keys that change the
    shared maps in place.  Each method is proved to do what the model's function says. */
module SessionService {
  import opened Wrappers
  import opened Collections
  import opened TimedMaps
  import opened RedisBatches
  import opened SessionModel
  import opened SessionCalls
  import opened SessionEffects

  const REDIS_BATCH_SIZE := 1000
  const SMEMBERS_BATCH_SIZE := 100

  /** A key that can be handed to DEL. */
  datatype RedisKey =
    | AccessKey(key: SessionKey)
    | ExtraKey(key: SessionKey)
    | RefreshKey(key: SessionKey)
    | OnlineKey(session: Session)
    | SidKey(sid: Sid)

  /** DEL of all the keys at once. */
  function Deleted(st: Store, keys: set<RedisKey>): Store {
    st.(access := map k | k in st.access && AccessKey(k) !in keys :: st.access[k],
        extra := map k | k in st.extra && ExtraKey(k) !in keys :: st.extra[k],
        refresh := map k | k in st.refresh && RefreshKey(k) !in keys :: st.refresh[k],
        online := map s | s in st.online && OnlineKey(s) !in keys :: st.online[s],
        sids := map sid | sid in st.sids && SidKey(sid) !in keys :: st.sids[sid])
  }

  lemma NothingDeleted(st: Store, keys: seq<RedisKey>)
    ensures Deleted(st, Elements(keys[..0])) == st
  {
  }

  function AllOf(sidSets: seq<set<Sid>>): (r: set<Sid>)
    ensures forall sid :: sid in r <==> exists i :: 0 <= i < |sidSets| && sid in sidSets[i]
  {
    set members, sid | members in sidSets && sid in members :: sid
  }

  lemma DeletedTwice(st: Store, keys: set<RedisKey>, more: set<RedisKey>)
    ensures Deleted(Deleted(st, keys), more) == Deleted(st, keys + more)
  {
  }

  /** The keys of the sessions `ss` of `u` and of the connections `sids`. */
  ghost predicate AreKeysOf(keys: set<RedisKey>, u: User, ss: set<Session>, sids: set<Sid>) {
    && (forall k :: AccessKey(k) in keys <==> k in KeysOf(u, ss))
    && (forall k :: ExtraKey(k) in keys <==> k in KeysOf(u, ss))
    && (forall k :: RefreshKey(k) in keys <==> k in KeysOf(u, ss))
    && (forall s :: OnlineKey(s) in keys <==> s in ss)
    && (forall sid :: SidKey(sid) in keys <==> sid in sids)
  }

  lemma DeletedKeys(st: Store, keys: set<RedisKey>, u: User, ss: set<Session>, sids: set<Sid>)
    requires AreKeysOf(keys, u, ss, sids)
    ensures Deleted(st, keys) == st.(
      access := st.access - KeysOf(u, ss), extra := st.extra - KeysOf(u, ss), refresh := st.refresh - KeysOf(u, ss),
      online := st.online - ss, sids := st.sids - sids)
  {
  }

  class SessionClient {
    const cfg: Config
    var now: int
    var next: int
    var access: map<SessionKey, Timed<Token>>
    var refresh: map<SessionKey, Timed<Token>>
    var extra: map<SessionKey, Timed<bool>>
    var index: map<User, Timed<set<Session>>>
    var swagger: map<User, Timed<set<Session>>>
    var users: set<User>
    var online: map<Session, Timed<set<Sid>>>
    var sids: map<Sid, Timed<Session>>
    var multi: set<User>

    constructor (cfg: Config, now: int, multi: set<User>)
      ensures State() == Empty(cfg, now, multi)
    {
      this.cfg, this.now, this.next, this.multi := cfg, now, 0, multi;
      access, refresh, extra, index, swagger, users, online, sids :=
          map[], map[], map[], map[], map[], {}, map[], map[];
    }

    /** The store these maps make up. */
    function State(): Store
      reads this
    {
      Store(cfg, now, next, access, refresh, extra, index, swagger, users, online, sids, multi)
    }

    /** The loop over the indexed sessions: swagger ones apart, dead ones dropped. */
    method ClassifySessions(u: User, indexed: set<Session>) returns (debug: set<Session>, live: set<Session>)
      ensures debug == set s | s in indexed && Marked(State(), u, s)
      ensures live == set s | s in indexed && !Marked(State(), u, s) && Alive(State(), u, s)
    {
      var ordered := Listed(indexed);
      var keys := seq(|ordered|, i requires 0 <= i < |ordered| => Key(u, ordered[i]));
      var accessTokens := MGetBatched(access, now, keys, REDIS_BATCH_SIZE);
      var refreshTokens := MGetBatched(refresh, now, keys, REDIS_BATCH_SIZE);
      var extras := MGetBatched(extra, now, keys, REDIS_BATCH_SIZE);
      debug, live := {}, {};
      var i := 0;
      while i < |ordered|
        invariant 0 <= i <= |ordered|
        invariant debug == set s | s in ordered[..i] && Marked(State(), u, s)
        invariant live == set s | s in ordered[..i] && !Marked(State(), u, s) && Alive(State(), u, s)
      {
        var s := ordered[i];
        assert ordered[..i + 1] == ordered[..i] + [s];
        if extras.value[i] == Some(true) {
          debug := debug + {s};
        } else if accessTokens.value[i].Some? || refreshTokens.value[i].Some? {
          live := live + {s};
        }
        i := i + 1;
      }
      assert ordered[..i] == ordered;
    }

    /** Moves the marked sessions out of the index, drops the dead ones and renews or removes the rest. */
    method PruneIndex(u: User, indexed: set<Session>, debug: set<Session>, live: set<Session>)
      requires indexed == Members(index, u, now)
      requires debug == set s | s in indexed && Marked(State(), u, s)
      requires live == set s | s in indexed && !Marked(State(), u, s) && Alive(State(), u, s)
      modifies this`index, this`swagger, this`users
      ensures (State(), live) == SessionModel.GetUserSessions(old(State()), u)
    {
      hide Members, RemoveMembers, AddMembers, Expire, Marked, Alive;
      if debug != {} {
        var marked := Listed(debug);
        index := RemoveMembersBatched(index, u, now, marked, REDIS_BATCH_SIZE);
        swagger := AddMembers(swagger, u, now, debug, now + cfg.access);
      }
      if live != {} {
        if indexed - live != {} { index := RemoveMembers(index, u, now, indexed - live); }
        index := Expire(index, u, now, now + cfg.Longest());
        users := users + {u};
      } else {
        index := index - {u};
        users := users - {u};
      }
    }

    /** Classifies the indexed sessions, then prunes the index and the directory. */
    method GetUserSessions(u: User) returns (live: set<Session>)
      modifies this`index, this`swagger, this`users
      ensures (State(), live) == SessionModel.GetUserSessions(old(State()), u)
      ensures Kept(old(State()), State(), SessionsRead(old(State()), State(), u, live))
    {
      ghost var st := State();
      hide Kept, SessionsRead, Members, Marked, Alive, SessionModel.GetUserSessions;
      var indexed := Members(index, u, now);
      var debug: set<Session>;
      debug, live := {}, {};
      if indexed != {} { debug, live := ClassifySessions(u, indexed); }
      PruneIndex(u, indexed, debug, live);
      GetUserSessionsKept(st, u, State(), live);
    }

    method Delete(keys: set<RedisKey>)
      modifies this`access, this`extra, this`refresh, this`online, this`sids
      ensures State() == Deleted(old(State()), keys)
    {
      access := map k | k in access && AccessKey(k) !in keys :: access[k];
      extra := map k | k in extra && ExtraKey(k) !in keys :: extra[k];
      refresh := map k | k in refresh && RefreshKey(k) !in keys :: refresh[k];
      online := map s | s in online && OnlineKey(s) !in keys :: online[s];
      sids := map sid | sid in sids && SidKey(sid) !in keys :: sids[sid];
    }

    /** DEL chunk by chunk. */
    method DeleteBatched(keys: seq<RedisKey>, batchSize: int)
      requires 0 < batchSize
      modifies this`access, this`extra, this`refresh, this`online, this`sids
      ensures State() == Deleted(old(State()), Elements(keys))
    {
      ghost var st := State();
      hide Deleted, Elements, Chunk;
      NothingDeleted(st, keys);
      var i := 0;
      while i < |keys|
        invariant 0 <= i
        invariant State() == Deleted(st, Elements(keys[..Min(i, |keys|)]))
      {
        var batch := Elements(Chunk(keys, i, batchSize));
        DeletedTwice(st, Elements(keys[..i]), batch);
        ChunkElements(keys, i, batchSize);
        Delete(batch);
        i := i + batchSize;
      }
      assert keys[..Min(i, |keys|)] == keys;
    }

    /** Collects the connections and the keys of the sessions, deletes them, and unlists the sessions. */
    method RevokeSessions(u: User, ss: set<Session>)
      modifies this
      ensures State() == SessionModel.RevokeSessions(old(State()), u, ss)
      ensures Kept(old(State()), State(), SessionsRevoked(old(State()), State(), u, ss))
    {
      hide Kept, SessionsRevoked;
      ghost var st := State();
      RevokeSessionsCall(st, u, ss);
      if ss == {} { return; }
      var ordered := Listed(ss);
      var sidSets := SMembersMany(online, now, ordered, SMEMBERS_BATCH_SIZE);
      var sidKeys := Flatten(sidSets.value);
      FlattenedSids(st, ss, ordered, sidSets.value);
      var deleteKeys := KeysToDelete(u, ordered, sidKeys);
      DeletedKeys(st, Elements(deleteKeys), u, ss, SidsOf(st, ss));
      hide Deleted, KeysOf, SidsOf;
      DeleteBatched(deleteKeys, REDIS_BATCH_SIZE);
      index := RemoveMembersBatched(index, u, now, ordered, REDIS_BATCH_SIZE);
      swagger := RemoveMembersBatched(swagger, u, now, ordered, REDIS_BATCH_SIZE);
      if Members(index, u, now) == {} { users := users - {u}; }
    }

    method RevokeUserTokens(u: User, exclude: Option<Session>, includeSwagger: bool)
      modifies this
      ensures State() == SessionModel.RevokeUserTokens(old(State()), u, exclude, includeSwagger)
      ensures Kept(old(State()), State(), AllRevoked(old(State()), State(), u, exclude, includeSwagger))
    {
      hide Kept, AllRevoked, SessionsRead, SessionsRevoked;
      RevokeAllCall(State(), u, exclude, includeSwagger);
      hide SessionModel.GetUserSessions, SessionModel.RevokeSessions, Members;
      var ss := GetUserSessions(u);
      if includeSwagger { ss := ss + Members(swagger, u, now); }
      if exclude.Some? { ss := ss - {exclude.value}; }
      RevokeSessions(u, ss);
    }

    /** `session` is None when a uuid has to be drawn. */
    method CreateAccessToken(u: User, multiLogin: bool, session: Option<Session>, isSwagger: bool) returns (t: Token)
      modifies this
      ensures var st := old(State());
        var s := if session.Some? then session.value else st.next;
        var st1 := if session.Some? then st else st.(next := s + 1);
        (State(), t) == SessionModel.CreateAccessToken(st1, u, multiLogin, s, isSwagger)
      ensures AccessCreated(old(State()), State(), u, multiLogin, session, isSwagger, t)
    {
      hide AccessCreated, Kept, AllRevoked;
      AccessCreatedBy(State(), u, multiLogin, session, isSwagger);
      hide SessionModel.RevokeUserTokens, AddMembers;
      var expire := now + cfg.access;
      var s := next;
      if session.Some? { s := session.value; } else { next := next + 1; }
      t := Token(u, s, next, expire);
      next := next + 1;
      if !isSwagger && !multiLogin { RevokeUserTokens(u, Some(s), false); }
      var extraTtl := if isSwagger then cfg.access else cfg.Longest();
      access := access[Key(u, s) := Timed(t, now + cfg.access)];
      extra := extra[Key(u, s) := Timed(isSwagger, now + extraTtl)];
      if isSwagger {
        swagger := AddMembers(swagger, u, now, {s}, now + cfg.access);
      } else {
        index := AddMembers(index, u, now, {s}, now + cfg.Longest());
        users := users + {u};
      }
    }

    method CreateRefreshToken(s: Session, u: User) returns (t: Token)
      modifies this
      ensures (State(), t) == SessionModel.CreateRefreshToken(old(State()), u, s)
      ensures RefreshCreated(old(State()), State(), u, s, t)
    {
      hide RefreshCreated, AddMembers;
      CreateRefreshTokenKept(State(), u, s);
      t := Token(u, s, next, now + cfg.refresh);
      next := next + 1;
      refresh := refresh[Key(u, s) := Timed(t, now + cfg.refresh)];
      index := AddMembers(index, u, now, {s}, now + cfg.Longest());
      users := users + {u};
    }

    method CreateNewToken(refreshToken: Token, s: Session, u: User, multiLogin: bool)
        returns (r: Outcome<(Token, Token)>)
      modifies this
      ensures (State(), r) == SessionModel.CreateNewToken(old(State()), refreshToken, s, u, multiLogin)
      ensures multiLogin == old(u in multi) ==>
        Kept(old(State()), State(), Exchanged(old(State()), State(), refreshToken, s, u, r))
    {
      hide Kept, Exchanged, AccessCreated, RefreshCreated;
      CreateNewTokenCall(State(), refreshToken, s, u);
      hide SessionModel.CreateAccessToken, SessionModel.CreateRefreshToken;
      var stored := Get(refresh, Key(u, s), now);
      if stored != Some(refreshToken) { return Rejected(RefreshExpired); }
      var a := CreateAccessToken(u, multiLogin, Some(s), false);
      var t := CreateRefreshToken(s, u);
      r := Ok((a, t));
    }

    method Login(u: User) returns (tokens: (Token, Token))
      modifies this
      ensures (State(), tokens) == SessionModel.Login(old(State()), u)
      ensures Kept(old(State()), State(), LoggedIn(old(State()), State(), u, tokens))
    {
      hide Kept, LoggedIn, AccessCreated, RefreshCreated;
      hide SessionModel.CreateAccessToken, SessionModel.CreateRefreshToken;
      LoginCall(State(), u);
      var s := next;
      var a := CreateAccessToken(u, u in multi, None, false);
      var t := CreateRefreshToken(s, u);
      tokens := (a, t);
    }

    method RefreshLogin(t: Token, enabled: bool) returns (r: Outcome<(Token, Token)>)
      modifies this
      ensures (State(), r) == SessionModel.RefreshLogin(old(State()), t, enabled)
      ensures Kept(old(State()), State(), Refreshed(old(State()), State(), t, enabled, r))
    {
      hide Kept, Refreshed, Exchanged, SessionsRead;
      RefreshLoginCall(State(), t, enabled);
      hide SessionModel.GetUserSessions, SessionModel.CreateNewToken;
      if t.exp <= now { return Rejected(TokenExpired); }
      if !enabled { return Rejected(NoUser); }
      var multiLogin := t.user in multi;
      if !multiLogin {
        var others := GetUserSessions(t.user);
        if others - {t.session} != {} { return Rejected(RemoteLogin); }
      }
      r := CreateNewToken(t, t.session, t.user, multiLogin);
    }

    method SetMultiLogin(u: User, multiLogin: bool, exclude: Option<Session>)
      modifies this
      ensures State() == SessionModel.SetMultiLogin(old(State()), u, multiLogin, exclude)
      ensures Kept(old(State()), State(), Switched(old(State()), State(), u, multiLogin, exclude))
    {
      hide Kept, Switched, AllRevoked;
      SetMultiLoginCall(State(), u, multiLogin, exclude);
      hide SessionModel.RevokeUserTokens;
      if multiLogin {
        multi := multi + {u};
      } else {
        multi := multi - {u};
        RevokeUserTokens(u, exclude, true);
      }
    }

    method Connect(sid: Sid, s: Session, expire: int)
      modifies this`online, this`sids
      ensures State() == SessionModel.Connect(old(State()), sid, s, expire)
      ensures Kept(old(State()), State(), Connected(old(State()), State(), sid, s, expire))
    {
      hide Kept, Connected;
      ConnectCall(State(), sid, s, expire);
      sids := sids[sid := Timed(s, now + expire)];
      var sessionTtl := Ttl(online, s, now);
      var newTtl := if sessionTtl < 0 then expire else if sessionTtl < expire then expire else sessionTtl;
      online := AddMembers(online, s, now, {sid}, now + newTtl);
    }

    /** The session and the lifetime come from the access token. */
    method ConnectWithToken(sid: Sid, t: Token) returns (joined: bool)
      modifies this`online, this`sids
      ensures (State(), joined) == SessionModel.ConnectWithToken(old(State()), sid, t)
      ensures joined == Accepts(old(State()), t)
      ensures if joined
        then Kept(old(State()), State(), Connected(old(State()), State(), sid, t.session, t.exp - now))
        else State() == old(State())
    {
      hide Kept, Connected, SessionModel.Connect;
      ConnectWithTokenCall(State(), sid, t);
      if !Accepts(State(), t) { return false; }
      var expire := t.exp - now;
      if expire <= 0 { return false; }
      Connect(sid, t.session, expire);
      joined := true;
    }

    /** Forgets the connection, then drops the set members that no longer map to the session. */
    method Disconnect(sid: Sid, saved: Option<Session>)
      modifies this`online, this`sids
      ensures State() == SessionModel.Disconnect(old(State()), sid, saved)
      ensures Kept(old(State()), State(), Disconnected(old(State()), State(), sid))
    {
      hide Kept, Disconnected;
      DisconnectCall(State(), sid, saved);
      hide Members, RemoveMembers;
      var session := Get(sids, sid, now);
      if session.None? { session := saved; }
      if session.None? { return; }
      var s := session.value;
      sids := sids - {sid};
      online := RemoveMembers(online, s, now, {sid});
      var stale := StaleSids(s, Members(online, s, now));
      if stale != {} { online := RemoveMembers(online, s, now, stale); }
    }

    method StaleSids(s: Session, remaining: set<Sid>) returns (stale: set<Sid>)
      ensures stale == set x | x in remaining && Get(sids, x, now) != Some(s)
    {
      var ordered := Listed(remaining);
      var mappings := MGetBatched(sids, now, ordered, REDIS_BATCH_SIZE);
      stale := {};
      var i := 0;
      while i < |ordered|
        invariant 0 <= i <= |ordered|
        invariant stale == set x | x in ordered[..i] && Get(sids, x, now) != Some(s)
      {
        assert ordered[..i + 1] == ordered[..i] + [ordered[i]];
        if mappings.value[i] != Some(s) { stale := stale + {ordered[i]}; }
        i := i + 1;
      }
      assert ordered[..i] == ordered;
    }

    /** The monitor's sweep: users of the directory without a readable access token are dropped. */
    method PruneDirectory()
      modifies this`users
      ensures State() == SessionModel.PruneDirectory(old(State()))
      ensures Kept(old(State()), State(), DirectoryPruned(old(State()), State()))
    {
      hide Kept, DirectoryPruned;
      PruneDirectoryKept(State());
      var userIds := Listed(users);
      var stale: set<User> := {};
      var i := 0;
      while i < |userIds|
        invariant 0 <= i <= |userIds|
        invariant State() == old(State())
        invariant stale == set u | u in userIds[..i] && !Readable(State(), u)
      {
        assert userIds[..i + 1] == userIds[..i] + [userIds[i]];
        var found := HasReadableToken(userIds[i]);
        if !found { stale := stale + {userIds[i]}; }
        i := i + 1;
      }
      assert userIds[..i] == userIds;
      assert forall u :: u in userIds <==> u in Elements(userIds);
      assert stale == StaleUsers(State());
      users := users - stale;
    }

    method HasReadableToken(u: User) returns (found: bool)
      ensures found == Readable(State(), u)
    {
      var sessions := Listed(Members(index, u, now));
      var keys := seq(|sessions|, i requires 0 <= i < |sessions| => Key(u, sessions[i]));
      var tokens := MGetBatched(access, now, keys, REDIS_BATCH_SIZE);
      found := false;
      for i := 0 to |sessions|
        invariant found == exists j :: 0 <= j < i && CanRead(State(), u, sessions[j])
      {
        if tokens.value[i].Some? && now < tokens.value[i].value.exp { found := true; }
      }
      assert forall s :: s in Members(index, u, now) <==> s in Elements(sessions);
    }

    /** The loop that lists the keys of the revoked sessions. */
    static method SessionKeys(u: User, ordered: seq<Session>) returns (deleteKeys: seq<RedisKey>)
      ensures AreKeysOf(Elements(deleteKeys), u, Elements(ordered), {})
    {
      deleteKeys := [];
      for i := 0 to |ordered|
        invariant AreKeysOf(Elements(deleteKeys), u, Elements(ordered[..i]), {})
      {
        var s := ordered[i];
        ghost var before := Elements(deleteKeys);
        deleteKeys := deleteKeys + [AccessKey(Key(u, s)), ExtraKey(Key(u, s)), RefreshKey(Key(u, s)), OnlineKey(s)];
        assert Elements(deleteKeys) == before +
            {AccessKey(Key(u, s)), ExtraKey(Key(u, s)), RefreshKey(Key(u, s)), OnlineKey(s)};
        assert Elements(ordered[..i + 1]) == Elements(ordered[..i]) + {s};
      }
      assert ordered[..|ordered|] == ordered;
    }

    static method Flatten(sidSets: seq<set<Sid>>) returns (sids: set<Sid>)
      ensures sids == AllOf(sidSets)
    {
      sids := {};
      for i := 0 to |sidSets|
        invariant sids == AllOf(sidSets[..i])
      {
        sids := sids + sidSets[i];
        assert sidSets[..i + 1] == sidSets[..i] + [sidSets[i]];
      }
      assert sidSets[..|sidSets|] == sidSets;
    }

    /** The keys of the sessions, followed by those of their connections. */
    static method KeysToDelete(u: User, ordered: seq<Session>, sids: set<Sid>) returns (deleteKeys: seq<RedisKey>)
      ensures AreKeysOf(Elements(deleteKeys), u, Elements(ordered), sids)
    {
      deleteKeys := SessionKeys(u, ordered);
      var listed := Listed(sids);
      var sidKeys := seq(|listed|, i requires 0 <= i < |listed| => SidKey(listed[i]));
      SidKeysListed(listed, sidKeys);
      WithSids(Elements(deleteKeys), Elements(sidKeys), u, Elements(ordered), sids);
      assert Elements(deleteKeys + sidKeys) == Elements(deleteKeys) + Elements(sidKeys);
      hide AreKeysOf;
      deleteKeys := deleteKeys + sidKeys;
    }
  }

  lemma FlattenedSids(st: Store, ss: set<Session>, ordered: seq<Session>, sidSets: seq<set<Sid>>)
    requires Elements(ordered) == ss && sidSets == MembersAll(st.online, st.now, ordered)
    ensures AllOf(sidSets) == SidsOf(st, ss)
  {
    forall sid ensures sid in AllOf(sidSets) <==> sid in SidsOf(st, ss) {
      if i :| 0 <= i < |ordered| && sid in sidSets[i] {
        assert ordered[i] in ss && sid in Members(st.online, ordered[i], st.now);
      }
      if s :| s in ss && sid in Members(st.online, s, st.now) {
        var i :| 0 <= i < |ordered| && ordered[i] == s;
        assert sid in sidSets[i];
      }
    }
  }

  lemma WithSids(keys: set<RedisKey>, sidKeys: set<RedisKey>, u: User, ss: set<Session>, sids: set<Sid>)
    requires AreKeysOf(keys, u, ss, {})
    requires forall k :: k in sidKeys <==> k.SidKey? && k.sid in sids
    ensures AreKeysOf(keys + sidKeys, u, ss, sids)
  {
    hide KeysOf;
    forall k: SessionKey ensures AccessKey(k) !in sidKeys && ExtraKey(k) !in sidKeys && RefreshKey(k) !in sidKeys {}
    forall s: Session ensures OnlineKey(s) !in sidKeys {}
  }

  lemma SidKeysListed(listed: seq<Sid>, sidKeys: seq<RedisKey>)
    requires |sidKeys| == |listed| && forall i :: 0 <= i < |listed| ==> sidKeys[i] == SidKey(listed[i])
    ensures forall k :: k in Elements(sidKeys) <==> k.SidKey? && k.sid in Elements(listed)
  {
    forall k: RedisKey | k.SidKey? && k.sid in listed ensures k in sidKeys {
      var i :| 0 <= i < |listed| && listed[i] == k.sid;
      assert sidKeys[i] == k;
    }
  }
}
