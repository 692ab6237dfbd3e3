/** The token and session store: every public operation of the token module, the login
    callers, the online monitor and the presence hooks as a function on the store. */
module SessionModel {
  import opened Wrappers
  import opened TimedMaps

  type User = int
  type Session = int
  type Sid = int

  datatype SessionKey = Key(user: User, session: Session)

  /** What a signed token carries; `jti` makes two minted tokens differ. */
  datatype Token = Token(user: User, session: Session, jti: int, exp: int)

  /** Lifetimes in seconds. */
  datatype Config = Config(access: int, refresh: int) {
    predicate Valid() { 0 < access && 0 < refresh }

    function Longest(): int { if access < refresh then refresh else access }
  }

  datatype Store = Store(
    cfg: Config,
    now: int,
    next: int,                                  // supply of fresh uuids
    access: map<SessionKey, Timed<Token>>,
    refresh: map<SessionKey, Timed<Token>>,
    extra: map<SessionKey, Timed<bool>>,        // true: carries the swagger mark
    index: map<User, Timed<set<Session>>>,      // formal sessions of a user
    swagger: map<User, Timed<set<Session>>>,    // debug sessions of a user
    users: set<User>,                           // directory of users with sessions
    online: map<Session, Timed<set<Sid>>>,
    sids: map<Sid, Timed<Session>>,
    multi: set<User>)                           // users whose is_multi_login is true

  datatype Outcome<+T> = Ok(value: T) | Rejected(error: Error)

  datatype Error = TokenExpired | RemoteLogin | RefreshExpired | NoUser

  // ---------------------------------------------------------------- reading

  /** The extra information marks the session as a swagger one. */
  predicate Marked(st: Store, u: User, s: Session) {
    Get(st.extra, Key(u, s), st.now) == Some(true)
  }

  /** What `jwt_authentication` accepts: unexpired, and the string stored for its session. */
  predicate Accepts(st: Store, t: Token) {
    st.now < t.exp && Get(st.access, Key(t.user, t.session), st.now) == Some(t)
  }

  predicate Alive(st: Store, u: User, s: Session) {
    Live(st.access, Key(u, s), st.now) || Live(st.refresh, Key(u, s), st.now)
  }

  // ---------------------------------------------------------------- token module

  /** Prunes the index of `u` and returns the formal sessions that still hold a token. */
  function GetUserSessions(st: Store, u: User): (Store, set<Session>) {
    var indexed := Members(st.index, u, st.now);
    var debug := set s | s in indexed && Marked(st, u, s);
    var live := set s | s in indexed && !Marked(st, u, s) && Alive(st, u, s);
    var index := if debug == {} then st.index else RemoveMembers(st.index, u, st.now, debug);
    var swagger := if debug == {} then st.swagger
                   else AddMembers(st.swagger, u, st.now, debug, st.now + st.cfg.access);
    var st' :=
      if live == {} then
        st.(index := index - {u}, swagger := swagger, users := st.users - {u})
      else
        var kept := if indexed - live == {} then index else RemoveMembers(index, u, st.now, indexed - live);
        st.(index := Expire(kept, u, st.now, st.now + st.cfg.Longest()),
            swagger := swagger,
            users := st.users + {u});
    (st', live)
  }

  function SidsOf(st: Store, ss: set<Session>): set<Sid> {
    set s, sid | s in ss && sid in Members(st.online, s, st.now) :: sid
  }

  function KeysOf(u: User, ss: set<Session>): (keys: set<SessionKey>)
    ensures forall k :: k in keys <==> k.user == u && k.session in ss
  {
    set s | s in ss :: Key(u, s)
  }

  /** Deletes every key of the sessions `ss` of `u`, their index entries and their presence. */
  function RevokeSessions(st: Store, u: User, ss: set<Session>): Store {
    if ss == {} then st else
    var keys := KeysOf(u, ss);
    var index := RemoveMembers(st.index, u, st.now, ss);
    st.(access := st.access - keys,
        extra := st.extra - keys,
        refresh := st.refresh - keys,
        online := st.online - ss,
        sids := st.sids - SidsOf(st, ss),
        index := index,
        swagger := RemoveMembers(st.swagger, u, st.now, ss),
        users := if Members(index, u, st.now) == {} then st.users - {u} else st.users)
  }

  function Except(ss: set<Session>, exclude: Option<Session>): set<Session> {
    if exclude.Some? then ss - {exclude.value} else ss
  }

  /** Revokes all sessions of `u` but the excluded one; swagger ones only on request. */
  function RevokeUserTokens(st: Store, u: User, exclude: Option<Session>, includeSwagger: bool): Store {
    var (st', live) := GetUserSessions(st, u);
    var all := if includeSwagger then live + Members(st'.swagger, u, st'.now) else live;
    RevokeSessions(st', u, Except(all, exclude))
  }

  /** Writes an access token, its extra information and its index entry. */
  function StoreAccess(st: Store, u: User, s: Session, swagger: bool, t: Token): Store {
    var extraTtl := if swagger then st.cfg.access else st.cfg.Longest();
    var st := st.(
      access := st.access[Key(u, s) := Timed(t, st.now + st.cfg.access)],
      extra := st.extra[Key(u, s) := Timed(swagger, st.now + extraTtl)]);
    if swagger then
      st.(swagger := AddMembers(st.swagger, u, st.now, {s}, st.now + st.cfg.access))
    else
      st.(index := AddMembers(st.index, u, st.now, {s}, st.now + st.cfg.Longest()), users := st.users + {u})
  }

  /** Mints an access token; a formal login of a single-login user first evicts the others. */
  function CreateAccessToken(st: Store, u: User, multi: bool, s: Session, swagger: bool): (Store, Token) {
    var t := Token(u, s, st.next, st.now + st.cfg.access);
    var st1 := st.(next := st.next + 1);
    var st2 := if !swagger && !multi then RevokeUserTokens(st1, u, Some(s), false) else st1;
    (StoreAccess(st2, u, s, swagger, t), t)
  }

  function StoreRefresh(st: Store, u: User, s: Session, t: Token): Store {
    st.(refresh := st.refresh[Key(u, s) := Timed(t, st.now + st.cfg.refresh)],
        index := AddMembers(st.index, u, st.now, {s}, st.now + st.cfg.Longest()),
        users := st.users + {u})
  }

  function CreateRefreshToken(st: Store, u: User, s: Session): (Store, Token) {
    var t := Token(u, s, st.next, st.now + st.cfg.refresh);
    (StoreRefresh(st.(next := st.next + 1), u, s, t), t)
  }

  /** Exchanges the stored refresh token of a session for a new pair. */
  function CreateNewToken(st: Store, t: Token, s: Session, u: User, multi: bool): (Store, Outcome<(Token, Token)>) {
    if Get(st.refresh, Key(u, s), st.now) != Some(t) then (st, Rejected(RefreshExpired)) else
    var (st1, a) := CreateAccessToken(st, u, multi, s, false);
    var (st2, r) := CreateRefreshToken(st1, u, s);
    (st2, Ok((a, r)))
  }

  // ---------------------------------------------------------------- callers

  /** A session uuid is drawn when none is passed in. */
  function Login(st: Store, u: User): (Store, (Token, Token)) {
    var s := st.next;
    var (st1, a) := CreateAccessToken(st.(next := s + 1), u, u in st.multi, s, false);
    var (st2, r) := CreateRefreshToken(st1, u, s);
    (st2, (a, r))
  }

  function SwaggerLogin(st: Store, u: User): (Store, Token) {
    CreateAccessToken(st.(next := st.next + 1), u, u in st.multi, st.next, true)
  }

  /** The refresh endpoint.  `enabled` is the user's row: found and not locked. */
  function RefreshLogin(st: Store, t: Token, enabled: bool): (Store, Outcome<(Token, Token)>) {
    if t.exp <= st.now then (st, Rejected(TokenExpired)) else
    if !enabled then (st, Rejected(NoUser)) else
    var multi := t.user in st.multi;
    var (st1, others) := if multi then (st, {}) else GetUserSessions(st, t.user);
    if others - {t.session} != {} then (st1, Rejected(RemoteLogin)) else
    CreateNewToken(st1, t, t.session, t.user, multi)
  }

  /** The administrator's switch; turning multi login off evicts all but the excluded session. */
  function SetMultiLogin(st: Store, u: User, multi: bool, exclude: Option<Session>): Store {
    if multi then st.(multi := st.multi + {u})
    else RevokeUserTokens(st.(multi := st.multi - {u}), u, exclude, true)
  }

  /** The session's access token is there and decodes. */
  predicate CanRead(st: Store, u: User, s: Session) {
    Live(st.access, Key(u, s), st.now) && st.now < st.access[Key(u, s)].value.exp
  }

  predicate Readable(st: Store, u: User) {
    exists s :: s in Members(st.index, u, st.now) && CanRead(st, u, s)
  }

  /** Users of the directory none of whose indexed sessions has a readable access token. */
  function StaleUsers(st: Store): set<User> {
    set u | u in st.users && !Readable(st, u)
  }

  function PruneDirectory(st: Store): Store {
    st.(users := st.users - StaleUsers(st))
  }

  // ---------------------------------------------------------------- presence

  /** What remains of a set's lifetime; -1 when it does not exist. */
  function Ttl<V>(m: map<Session, Timed<V>>, s: Session, now: int): int {
    if Live(m, s, now) then m[s].expires - now else -1
  }

  function Connect(st: Store, sid: Sid, s: Session, expire: int): Store {
    var ttl := Ttl(st.online, s, st.now);
    var newTtl := if ttl < 0 then expire else if ttl < expire then expire else ttl;
    st.(sids := st.sids[sid := Timed(s, st.now + expire)],
        online := AddMembers(st.online, s, st.now, {sid}, st.now + newTtl))
  }

  /** Authenticated connection: the session and the lifetime come from the access token. */
  function ConnectWithToken(st: Store, sid: Sid, t: Token): (Store, bool) {
    if Accepts(st, t) && 0 < t.exp - st.now
    then (Connect(st, sid, t.session, t.exp - st.now), true)
    else (st, false)
  }

  /** `saved` is the session remembered by the socket server for this connection. */
  function Disconnect(st: Store, sid: Sid, saved: Option<Session>): Store {
    var known := Get(st.sids, sid, st.now);
    var session := if known.Some? then known else saved;
    if session.None? then st else
    var s := session.value;
    var sids := st.sids - {sid};
    var online := RemoveMembers(st.online, s, st.now, {sid});
    var stale := set x | x in Members(online, s, st.now) && Get(sids, x, st.now) != Some(s);
    st.(sids := sids, online := if stale == {} then online else RemoveMembers(online, s, st.now, stale))
  }

  /** The monitor's online mark of a session. */
  predicate ShownOnline(st: Store, s: Session) {
    exists sid :: sid in Members(st.online, s, st.now) && Get(st.sids, sid, st.now) == Some(s)
  }

  // ---------------------------------------------------------------- runs

  datatype Step =
    | DoLogin(user: User)
    | DoSwaggerLogin(user: User)
    | DoRefresh(token: Token, enabled: bool)
    | DoRevoke(user: User, session: Session)             // logout, forced offline
    | DoRevokeAll(user: User)                            // password change, deletion
    | DoSetMultiLogin(user: User, multi: bool, exclude: Option<Session>)
    | DoPrune
    | DoConnect(sid: Sid, token: Token)
    | DoOpenConnect(sid: Sid, session: Session)          // unauthenticated, outside production
    | DoDisconnect(sid: Sid, saved: Option<Session>)
    | DoTick(seconds: nat)

  function Apply(st: Store, step: Step): Store {
    match step
    case DoLogin(u) => Login(st, u).0
    case DoSwaggerLogin(u) => SwaggerLogin(st, u).0
    case DoRefresh(t, enabled) => RefreshLogin(st, t, enabled).0
    case DoRevoke(u, s) => RevokeSessions(st, u, {s})
    case DoRevokeAll(u) => RevokeUserTokens(st, u, None, true)
    case DoSetMultiLogin(u, multi, exclude) => SetMultiLogin(st, u, multi, exclude)
    case DoPrune => PruneDirectory(st)
    case DoConnect(sid, t) => ConnectWithToken(st, sid, t).0
    case DoOpenConnect(sid, s) => Connect(st, sid, s, st.cfg.access)
    case DoDisconnect(sid, saved) => Disconnect(st, sid, saved)
    case DoTick(d) => st.(now := st.now + d)
  }

  function Exec(st: Store, steps: seq<Step>): Store
    decreases |steps|
  {
    if steps == [] then st else Exec(Apply(st, steps[0]), steps[1..])
  }

  function Empty(cfg: Config, now: int, multi: set<User>): Store {
    Store(cfg, now, 0, map[], map[], map[], map[], map[], {}, map[], map[], multi)
  }
}
