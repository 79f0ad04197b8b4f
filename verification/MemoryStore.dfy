/** The in-process session store: a map of sessions under a mutex, so each method is one step. */
module MemoryStore {
  import opened Base
  import opened Ordering
  import opened SessionSpec
  import UserAgent

  class Store {
    var sessions: Sessions

    constructor ()
      ensures sessions == map[]
    {
      sessions := map[];
    }

    /** `token` and `handle` are the random values the call draws. */
    method Create(token: Token, handle: nat, userID: Id, lifetime: int, userAgent: UserAgent.Bytes, clock: int)
      returns (r: Answer)
      modifies this
      ensures (sessions, r) == SessionSpec.Create(old(sessions), token, handle, userID, lifetime, userAgent, clock)
    {
      if lifetime <= 0 {
        return BadLifetime;
      }
      var now := ClockNow(clock);
      var s := Session(handle, userID, now, now, now + lifetime, UserAgent.Sanitize(userAgent), false);
      sessions := sessions[token := s];
      return Created(token, s);
    }

    method Lookup(token: Token, clock: int) returns (r: Answer)
      ensures r == SessionSpec.Lookup(sessions, token, clock)
    {
      if token == "" {
        return NotFound;
      }
      var now := ClockNow(clock);
      if token !in sessions || !(now < sessions[token].expiresAt) {
        return NotFound;
      }
      var s := sessions[token];
      s := s.(touchDue := TouchDue(s.lastSeenAt, now));
      return Found(s);
    }

    method Touch(token: Token, lifetime: int, clock: int) returns (r: Answer)
      modifies this
      ensures (sessions, r) == SessionSpec.Touch(old(sessions), token, lifetime, clock)
    {
      if lifetime <= 0 {
        return BadLifetime;
      }
      var now := ClockNow(clock);
      if token !in sessions || !(now < sessions[token].expiresAt) || !TouchDue(sessions[token].lastSeenAt, now) {
        return Slid(false);
      }
      var s := sessions[token];
      s := s.(lastSeenAt := now);
      s := s.(expiresAt := now + lifetime);
      sessions := sessions[token := s];
      return Slid(true);
    }

    method Destroy(token: Token)
      modifies this
      ensures sessions == SessionSpec.Destroy(old(sessions), token)
    {
      sessions := sessions - {token};
    }

    /** Visits the map in no particular order, then sorts. */
    method ListForUser(userID: Id, clock: int) returns (out: seq<Session>)
      requires DistinctHandles(sessions)
      ensures out == SessionSpec.ListForUser(sessions, userID, clock)
    {
      var now := ClockNow(clock);
      out := [];
      var rest := sessions.Keys;
      while rest != {}
        invariant rest <= sessions.Keys
        invariant forall s | s in out :: s in LiveOf(sessions, userID, now)
        invariant forall t | t in sessions && t !in rest && sessions[t].userID == userID && Live(sessions[t], now) ::
                    Seen(sessions[t], now) in out
      {
        var t :| t in rest;
        var s := sessions[t];
        if s.userID == userID && now < s.expiresAt {
          s := s.(touchDue := TouchDue(s.lastSeenAt, now));
          out := out + [s];
        }
        rest := rest - {t};
      }
      RecentIsTotal(sessions, userID, now);
      var collected := set s | s in out;
      assert collected == LiveOf(sessions, userID, now);
      out := Arrange(collected, LessRecent);
    }

    /** Deletes the first match it meets; handles are random, so there is at most one. */
    method RevokeByHandle(userID: Id, handle: nat) returns (r: Answer)
      requires DistinctHandles(sessions)
      modifies this
      ensures (sessions, r) == SessionSpec.RevokeByHandle(old(sessions), userID, handle)
    {
      var rest := sessions.Keys;
      while rest != {}
        invariant rest <= sessions.Keys && sessions == old(sessions)
        invariant Named(sessions, userID, handle) <= rest
      {
        var t :| t in rest;
        if sessions[t].handle == handle && sessions[t].userID == userID {
          assert Named(sessions, userID, handle) == {t};
          sessions := sessions - {t};
          return Done;
        }
        rest := rest - {t};
      }
      return NotFound;
    }

    method DeleteExpired(clock: int) returns (r: Answer)
      modifies this
      ensures (sessions, r) == SessionSpec.DeleteExpired(old(sessions), clock)
    {
      var now := ClockNow(clock);
      var n := 0;
      var rest := sessions.Keys;
      ghost var all := sessions;
      ghost var dead: set<Token> := {};
      while rest != {}
        invariant rest <= all.Keys && dead <= Expired(all, now) && dead !! rest && n == |dead|
        invariant Expired(all, now) <= dead + rest
        invariant sessions == all - dead
      {
        var t :| t in rest;
        if !(now < sessions[t].expiresAt) {
          sessions := sessions - {t};
          assert sessions == all - (dead + {t});
          n := n + 1;
          dead := dead + {t};
        }
        rest := rest - {t};
      }
      assert dead == Expired(all, now);
      return Deleted(n);
    }
  }
}
