/** The session store over the sessions table: each method runs one conditional statement. */
module PgStore {
  import opened Base
  import opened Ordering
  import opened SessionSpec
  import opened SessionTable
  import UserAgent

  class Store {
    var rows: Table
    const users: set<Id>

    ghost predicate Valid()
      reads this
    {
      Keyed(rows)
    }

    constructor (users: set<Id>)
      ensures Valid() && rows == {} && this.users == users
    {
      this.users := users;
      rows := {};
    }

    method Create(token: Token, handle: nat, userID: Id, lifetime: int, userAgent: UserAgent.Bytes, clock: int)
      returns (r: Answer)
      requires Valid()
      modifies this
      ensures Valid()
      ensures (rows, r) == SessionTable.Create(old(rows), users, token, handle, userID, lifetime, userAgent, clock)
    {
      if lifetime <= 0 {
        return BadLifetime;
      }
      var now := ClockNow(clock);
      var s := NewSession(handle, userID, lifetime, userAgent, now);
      var row := Row(token, s.handle, s.userID, now, now, Micros(s.expiresAt), s.userAgent);
      if !Insertable(rows, users, row) {
        return Refused;
      }
      rows := rows + {row};
      return Created(token, s);
    }

    method Lookup(token: Token, clock: int) returns (r: Answer)
      requires Valid()
      ensures r == SessionTable.Lookup(rows, token, clock)
    {
      if token == "" {
        return NotFound;
      }
      var now := ClockNow(clock);
      var hit := WithHash(rows, token, now);
      if hit == {} {
        return NotFound;
      }
      var row :| row in hit;
      var s := Scan(row);
      s := s.(touchDue := TouchDue(s.lastSeenAt, now));
      return Found(s);
    }

    method Touch(token: Token, lifetime: int, clock: int) returns (r: Answer)
      requires Valid()
      modifies this
      ensures Valid()
      ensures (rows, r) == SessionTable.Touch(old(rows), token, lifetime, clock)
    {
      if lifetime <= 0 {
        return BadLifetime;
      }
      var now := ClockNow(clock);
      var hit := Touchable(rows, token, now);
      rows := rows - hit + Rewrite(hit, now, Micros(now + lifetime));
      return Slid(|hit| == 1);
    }

    method Destroy(token: Token)
      requires Valid()
      modifies this
      ensures Valid() && rows == SessionTable.Destroy(old(rows), token)
      ensures forall r :: r in rows <==> r in old(rows) && r.tokenHash != token
    {
      rows := set r | r in rows && r.tokenHash != token;
    }

    method ListForUser(userID: Id, clock: int) returns (out: seq<Session>)
      requires Valid()
      ensures out == SessionTable.ListForUser(rows, userID, clock)
    {
      var now := ClockNow(clock);
      RowOrderIsTotal(rows, userID, now);
      var result := Arrange(OfUser(rows, userID, now), RowBefore);
      out := [];
      for i := 0 to |result|
        invariant |out| == i && forall k | 0 <= k < i :: out[k] == SeenRow(result[k], now)
      {
        var s := Scan(result[i]);
        s := s.(touchDue := TouchDue(s.lastSeenAt, now));
        out := out + [s];
      }
      assert out == ScanAll(result, now);
    }

    method RevokeByHandle(userID: Id, handle: nat) returns (r: Answer)
      requires Valid()
      modifies this
      ensures Valid() && (rows, r) == SessionTable.RevokeByHandle(old(rows), userID, handle)
    {
      var hit := set q | q in rows && q.userID == userID && q.handle == handle;
      rows := rows - hit;
      if |hit| == 0 {
        return NotFound;
      }
      return Done;
    }

    method DeleteExpired(clock: int) returns (r: Answer)
      requires Valid()
      modifies this
      ensures Valid() && (rows, r) == SessionTable.DeleteExpired(old(rows), clock)
    {
      var now := ClockNow(clock);
      var hit := set q | q in rows && q.expiresAt <= now;
      rows := rows - hit;
      return Deleted(|hit|);
    }
  }
}
