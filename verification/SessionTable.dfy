/** The sessions table and the statements run on it. The table is a set of rows; `users` is the
    referenced users table. */
module SessionTable {
  import opened Base
  import opened Ordering
  import opened SessionSpec
  import UserAgent

  datatype Row = Row(
    tokenHash: Token, handle: nat, userID: Id, createdAt: int, lastSeenAt: int, expiresAt: int,
    userAgent: UserAgent.Bytes)

  type Table = set<Row>

  function Scan(r: Row): Session
  {
    Session(r.handle, r.userID, r.createdAt, r.lastSeenAt, r.expiresAt, r.userAgent, false)
  }

  function SeenRow(r: Row, now: int): Session
  {
    Scan(r).(touchDue := TouchDue(r.lastSeenAt, now))
  }

  /** What the primary key, UNIQUE (handle) and the foreign key demand of an inserted row. */
  predicate Insertable(rows: Table, users: set<Id>, r: Row)
  {
    r.userID in users && forall q | q in rows :: q.tokenHash != r.tokenHash && q.handle != r.handle
  }

  ghost predicate Keyed(rows: Table)
  {
    forall q, r | q in rows && r in rows && (q.tokenHash == r.tokenHash || q.handle == r.handle) :: q == r
  }

  function WithHash(rows: Table, token: Token, now: int): Table
  {
    set r | r in rows && r.tokenHash == token && r.expiresAt > now
  }

  function Touchable(rows: Table, token: Token, now: int): Table
  {
    set r | r in rows && r.tokenHash == token && r.expiresAt > now && r.lastSeenAt <= now - TOUCH_INTERVAL
  }

  function OfUser(rows: Table, userID: Id, now: int): Table
  {
    set r | r in rows && r.userID == userID && r.expiresAt > now
  }

  /** ORDER BY last_seen_at DESC, created_at DESC, handle */
  predicate RowBefore(a: Row, b: Row)
  {
    if a.lastSeenAt != b.lastSeenAt then a.lastSeenAt > b.lastSeenAt
    else if a.createdAt != b.createdAt then a.createdAt > b.createdAt
    else a.handle < b.handle
  }

  lemma RowOrderIsTotal(rows: Table, userID: Id, now: int)
    requires Keyed(rows)
    ensures StrictTotal(RowBefore, OfUser(rows, userID, now))
  {
  }

  function ScanAll(q: seq<Row>, now: int): (out: seq<Session>)
    ensures |out| == |q| && forall i | 0 <= i < |q| :: out[i] == SeenRow(q[i], now)
  {
    if q == [] then [] else [SeenRow(q[0], now)] + ScanAll(q[1..], now)
  }

  /** SET last_seen_at = now, expires_at = expiry */
  function Rewrite(hit: Table, now: int, expiry: int): Table
  {
    set r | r in hit :: r.(lastSeenAt := now, expiresAt := expiry)
  }

  // ---- the effect of each statement

  function Create(rows: Table, users: set<Id>, token: Token, handle: nat, userID: Id, lifetime: int,
                  userAgent: UserAgent.Bytes, clock: int): (Table, Answer)
  {
    if lifetime <= 0 then (rows, BadLifetime)
    else
      var s := NewSession(handle, userID, lifetime, userAgent, ClockNow(clock));
      // a timestamptz column keeps whole microseconds
      var r := Row(token, handle, userID, s.createdAt, s.lastSeenAt, Micros(s.expiresAt), s.userAgent);
      if Insertable(rows, users, r) then (rows + {r}, Created(token, s)) else (rows, Refused)
  }

  function TouchAt(rows: Table, token: Token, now: int, expiry: int): (Table, Answer)
  {
    var hit := Touchable(rows, token, now);
    (rows - hit + Rewrite(hit, now, expiry), Slid(|hit| == 1))
  }

  function Touch(rows: Table, token: Token, lifetime: int, clock: int): (Table, Answer)
  {
    if lifetime <= 0 then (rows, BadLifetime)
    else TouchAt(rows, token, ClockNow(clock), Micros(ClockNow(clock) + lifetime))
  }

  function Destroy(rows: Table, token: Token): Table
  {
    set r | r in rows && r.tokenHash != token
  }

  function ListForUser(rows: Table, userID: Id, clock: int): seq<Session>
    requires Keyed(rows)
  {
    RowOrderIsTotal(rows, userID, ClockNow(clock));
    ScanAll(Arrange(OfUser(rows, userID, ClockNow(clock)), RowBefore), ClockNow(clock))
  }

  function RevokeByHandle(rows: Table, userID: Id, handle: nat): (Table, Answer)
  {
    var hit := set r | r in rows && r.userID == userID && r.handle == handle;
    (rows - hit, if |hit| == 0 then NotFound else Done)
  }

  function DeleteExpired(rows: Table, clock: int): (Table, Answer)
  {
    var hit := set r | r in rows && r.expiresAt <= ClockNow(clock);
    (rows - hit, Deleted(|hit|))
  }

  function Lookup(rows: Table, token: Token, clock: int): Answer
    requires Keyed(rows)
  {
    var hit := WithHash(rows, token, ClockNow(clock));
    if token == "" || hit == {} then NotFound
    else
      var r :| r in hit;
      Found(SeenRow(r, ClockNow(clock)))
  }
}
