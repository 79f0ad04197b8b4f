/** Sign-in sessions: the record, the clock, the lifetimes, and the effect each operation of the
    session contract has on the stored sessions. Times are nanoseconds. */
module SessionSpec {
  import opened Base
  import opened Ordering
  import UserAgent

  /** A cookie token; the store keys by its hash, which is taken to be injective. */
  type Token = string

  const MICROSECOND := 1_000
  const SECOND := 1_000_000_000
  const TOUCH_INTERVAL := 60 * SECOND
  const ADULT_LIFETIME := 30 * 24 * 3600 * SECOND
  const KID_LIFETIME := 180 * 24 * 3600 * SECOND

  function Lifetime(role: Role): int
  {
    if role.Kid? then KID_LIFETIME else ADULT_LIFETIME
  }

  /** `handle` is the number its fixed-width hexadecimal text spells, so both order alike. */
  datatype Session = Session(
    handle: nat, userID: Id, createdAt: int, lastSeenAt: int, expiresAt: int,
    userAgent: UserAgent.Bytes, touchDue: bool)

  type Sessions = map<Token, Session>

  /** What an operation of either store answers. */
  datatype Answer =
    | BadLifetime | NotFound | Refused | Done
    | Created(token: Token, session: Session)
    | Found(session: Session)
    | Slid(slid: bool)
    | Listed(sessions: seq<Session>)
    | Deleted(count: nat)

  function Micros(t: int): int
  {
    t - t % MICROSECOND
  }

  function ClockNow(clock: int): int
  {
    Micros(clock)
  }

  predicate TouchDue(lastSeen: int, now: int)
  {
    !(now < lastSeen + TOUCH_INTERVAL)
  }

  predicate Live(s: Session, now: int)
  {
    now < s.expiresAt
  }

  function Seen(s: Session, now: int): Session
  {
    s.(touchDue := TouchDue(s.lastSeenAt, now))
  }

  /** Most recently seen first, then newest, then by handle. */
  predicate LessRecent(a: Session, b: Session)
  {
    if a.lastSeenAt != b.lastSeenAt then a.lastSeenAt > b.lastSeenAt
    else if a.createdAt != b.createdAt then a.createdAt > b.createdAt
    else a.handle < b.handle
  }

  ghost predicate DistinctHandles(m: Sessions)
  {
    forall t, u | t in m && u in m && m[t].handle == m[u].handle :: t == u
  }

  function NewSession(handle: nat, userID: Id, lifetime: int, userAgent: UserAgent.Bytes, now: int): Session
  {
    Session(handle, userID, now, now, now + lifetime, UserAgent.Sanitize(userAgent), false)
  }

  // ---- the effect of each operation on the stored sessions

  function Create(m: Sessions, token: Token, handle: nat, userID: Id, lifetime: int,
                  userAgent: UserAgent.Bytes, clock: int): (Sessions, Answer)
  {
    if lifetime <= 0 then (m, BadLifetime)
    else
      var s := NewSession(handle, userID, lifetime, userAgent, ClockNow(clock));
      (m[token := s], Created(token, s))
  }

  function Lookup(m: Sessions, token: Token, clock: int): Answer
  {
    if token == "" || token !in m || !Live(m[token], ClockNow(clock)) then NotFound
    else Found(Seen(m[token], ClockNow(clock)))
  }

  predicate Slides(m: Sessions, token: Token, now: int)
  {
    token in m && Live(m[token], now) && TouchDue(m[token].lastSeenAt, now)
  }

  function TouchAt(m: Sessions, token: Token, now: int, expiry: int): (Sessions, Answer)
  {
    if !Slides(m, token, now) then (m, Slid(false))
    else (m[token := m[token].(lastSeenAt := now, expiresAt := expiry)], Slid(true))
  }

  function Touch(m: Sessions, token: Token, lifetime: int, clock: int): (Sessions, Answer)
  {
    if lifetime <= 0 then (m, BadLifetime)
    else TouchAt(m, token, ClockNow(clock), ClockNow(clock) + lifetime)
  }

  function Destroy(m: Sessions, token: Token): Sessions
  {
    m - {token}
  }

  function LiveOf(m: Sessions, userID: Id, now: int): set<Session>
  {
    set t | t in m && m[t].userID == userID && Live(m[t], now) :: Seen(m[t], now)
  }

  lemma RecentIsTotal(m: Sessions, userID: Id, now: int)
    requires DistinctHandles(m)
    ensures StrictTotal(LessRecent, LiveOf(m, userID, now))
  {
  }

  function ListForUser(m: Sessions, userID: Id, clock: int): seq<Session>
    requires DistinctHandles(m)
  {
    RecentIsTotal(m, userID, ClockNow(clock));
    Arrange(LiveOf(m, userID, ClockNow(clock)), LessRecent)
  }

  function Named(m: Sessions, userID: Id, handle: nat): set<Token>
  {
    set t | t in m && m[t].handle == handle && m[t].userID == userID
  }

  function RevokeByHandle(m: Sessions, userID: Id, handle: nat): (Sessions, Answer)
  {
    if Named(m, userID, handle) == {} then (m, NotFound) else (m - Named(m, userID, handle), Done)
  }

  function Expired(m: Sessions, now: int): set<Token>
  {
    set t | t in m && !Live(m[t], now)
  }

  function DeleteExpired(m: Sessions, clock: int): (Sessions, Answer)
  {
    var dead := Expired(m, ClockNow(clock));
    (m - dead, Deleted(|dead|))
  }
}
