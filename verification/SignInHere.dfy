/** The hand-over of a device from an admin to a kid, step by step, with a failure possible at every
    store call and other requests' session operations interleaved anywhere. */
module SignInHere {
  import opened Base
  import opened SessionSpec
  import opened SessionRefinement
  import UserAgent

  /** The response written, as far as the session cookie goes. */
  datatype Reply =
    | Failed                                 // an error; the cookie is left alone
    | Cleared                                // an error, and the cookie is cleared
    | KidCookie(token: Token, maxAge: int)   // 204 with the kid's cookie

  datatype Pc = Authorize | FindKid | EndAdmin | StartKid | Replied(reply: Reply)

  /** `users` are the accounts that exist, `issued` all the tokens ever drawn, and `minted` the session this
      handler created, if any. */
  datatype State = State(
    sessions: Sessions, users: set<Id>, issued: set<Token>, adminToken: Token, kid: Id, pc: Pc, minted: Option<Token>)

  /** How a store call ended: a failure may be reported before or after the effect took place. */
  datatype Call = Succeeded | FailedBefore | FailedAfter

  datatype Step =
    | Authorized(ok: bool)
    | KidFound(ok: bool)
    | Destroyed(call: Call)
    | KidCreated(call: Call, token: Token, handle: nat, userAgent: UserAgent.Bytes, clock: int)
    | Other(op: Op)
    | Accounts(now: set<Id>)    // accounts come and go; the sessions of one that goes are deleted with it

  ghost predicate Enabled(s: State, step: Step)
  {
    match step
    case Authorized(ok) => s.pc.Authorize?
    case KidFound(ok) => s.pc.FindKid?
    case Destroyed(call) => s.pc.EndAdmin?
    case KidCreated(call, token, handle, ua, clock) =>
      // without the kid's account the insert can only fail
      s.pc.StartKid? &&
      (call.FailedBefore? ||
       (token !in s.issued && Fresh(s.sessions, s.users, CreateOp(token, handle, s.kid, KID_LIFETIME, ua, clock))))
    case Other(op) =>
      Fresh(s.sessions, s.users, op) && (op.CreateOp? ==> op.token !in s.issued)
    case Accounts(now) => true
  }

  ghost function Next(s: State, step: Step): State
    requires DistinctHandles(s.sessions) && Enabled(s, step)
  {
    match step
    case Authorized(ok) => s.(pc := if ok then FindKid else Replied(Failed))
    case KidFound(ok) => s.(pc := if ok then EndAdmin else Replied(Failed))
    case Destroyed(call) =>
      var s' := if call.FailedBefore? then s else s.(sessions := Destroy(s.sessions, s.adminToken));
      s'.(pc := if call.Succeeded? then StartKid else Replied(Failed))
    case KidCreated(call, token, handle, ua, clock) =>
      var s' := if call.FailedBefore? then s
                else s.(sessions := Create(s.sessions, token, handle, s.kid, Lifetime(Kid), ua, clock).0,
                        issued := s.issued + {token}, minted := Some(token));
      s'.(pc := Replied(if call.Succeeded? then KidCookie(token, Lifetime(Kid) / SECOND) else Cleared))
    case Other(op) =>
      s.(sessions := MemStep(s.sessions, op).0, issued := s.issued + if op.CreateOp? then {op.token} else {})
    case Accounts(now) =>
      s.(users := now, sessions := map t | t in s.sessions && s.sessions[t].userID in now :: s.sessions[t])
  }

  ghost predicate Inv(s: State)
  {
    && DistinctHandles(s.sessions)
    && s.adminToken in s.issued && s.sessions.Keys <= s.issued
    && (s.pc.StartKid? || s.minted.Some? ==> s.adminToken !in s.sessions)
    && (s.minted.Some? ==> s.pc.Replied? && s.minted.value in s.issued && s.minted.value != s.adminToken)
    && (s.minted.Some? && s.minted.value in s.sessions ==> s.sessions[s.minted.value].userID == s.kid)
    && (s.pc.Replied? ==>
          match s.pc.reply
          case Failed => s.minted.None?
          case Cleared => s.adminToken !in s.sessions
          case KidCookie(token, maxAge) => s.minted == Some(token) && maxAge == 180 * 24 * 3600)
  }

  ghost predicate Initial(s: State)
  {
    && s.pc.Authorize? && s.minted.None?
    && s.adminToken in s.issued && s.sessions.Keys <= s.issued && DistinctHandles(s.sessions)
  }

  lemma StepInv(s: State, step: Step)
    requires Inv(s) && Enabled(s, step)
    ensures Inv(Next(s, step))
  {
    if step.Other? {
      assert MemStep(s.sessions, step.op).0.Keys <= s.sessions.Keys + if step.op.CreateOp? then {step.op.token} else {};
    }
  }

  ghost predicate Run(s: State, steps: seq<Step>, t: State)
    decreases |steps|
  {
    if steps == [] then t == s
    else DistinctHandles(s.sessions) && Enabled(s, steps[0]) && Run(Next(s, steps[0]), steps[1..], t)
  }

  lemma {:induction false} RunInv(s: State, steps: seq<Step>, t: State)
    requires Inv(s) && Run(s, steps, t)
    ensures Inv(t) && t.adminToken == s.adminToken && t.kid == s.kid
    ensures s.pc.Replied? ==> t.pc == s.pc
    decreases |steps|
  {
    if steps != [] {
      StepInv(s, steps[0]);
      RunInv(Next(s, steps[0]), steps[1..], t);
    }
  }

  /** The reply once the creation has been tried: the kid's cookie if it succeeded, else a cleared one. */
  ghost predicate RepliesAs(t: State, step: Step)
    requires step.KidCreated?
  {
    t.pc == Replied(if step.call.Succeeded? then KidCookie(step.token, Lifetime(Kid) / SECOND) else Cleared)
  }

  lemma {:induction false} CreationDecides(s: State, steps: seq<Step>, t: State, i: nat)
    requires Inv(s) && Run(s, steps, t) && i < |steps| && steps[i].KidCreated?
    ensures RepliesAs(t, steps[i])
    decreases |steps|
  {
    StepInv(s, steps[0]);
    if i == 0 {
      RunInv(Next(s, steps[0]), steps[1..], t);
    } else {
      CreationDecides(Next(s, steps[0]), steps[1..], t, i - 1);
    }
  }

  /** The session a creation mints lives exactly as long as the cookie that is sent with it. */
  lemma MintedLivesAsCookie(s: State, step: Step)
    requires Inv(s) && Enabled(s, step) && step.KidCreated? && step.call.Succeeded?
    ensures var t := Next(s, step);
            && t.pc.Replied? && t.pc.reply.KidCookie? && t.pc.reply.token in t.sessions
            && var sess := t.sessions[t.pc.reply.token];
               sess.userID == s.kid && sess.expiresAt == sess.createdAt + t.pc.reply.maxAge * SECOND
  {
  }

  /** At no point of any run is a kid session this handler made stored beside the admin's; what it made is the
      kid's; a kid cookie in the response, or a failed creation, means the admin's is gone; and a failed
      creation, whether or not its effect took place, clears the cookie. */
  lemma NeverBoth(s: State, steps: seq<Step>, t: State)
    requires Initial(s) && Run(s, steps, t)
    ensures t.minted.Some? ==> s.adminToken !in t.sessions
    ensures t.minted.Some? && t.minted.value in t.sessions ==> t.sessions[t.minted.value].userID == s.kid
    ensures t.pc.Replied? && t.pc.reply.KidCookie? ==> t.minted == Some(t.pc.reply.token) && s.adminToken !in t.sessions
    ensures t.pc.Replied? && t.minted.Some? && !t.pc.reply.KidCookie? ==> t.pc.reply.Cleared?
    ensures t.pc.Replied? && t.pc.reply.Cleared? ==> s.adminToken !in t.sessions
    ensures (exists i :: 0 <= i < |steps| && steps[i].KidCreated? && !steps[i].call.Succeeded?) ==>
              t.pc == Replied(Cleared)
    ensures (exists i :: 0 <= i < |steps| && steps[i].KidCreated? && steps[i].call.Succeeded?) ==>
              t.pc.Replied? && t.pc.reply.KidCookie?
  {
    RunInv(s, steps, t);
    forall i | 0 <= i < |steps| && steps[i].KidCreated? ensures RepliesAs(t, steps[i]) {
      CreationDecides(s, steps, t, i);
    }
  }

  // ---- what must have gone well before

  /** How far the handler has come; an error leads nowhere. */
  function Stage(pc: Pc): nat
  {
    match pc
    case Authorize => 0
    case FindKid => 1
    case EndAdmin => 2
    case StartKid => 3
    case Replied(reply) => if reply.Failed? then 0 else 4
  }

  lemma {:induction false} StagesInTurn(s: State, steps: seq<Step>, t: State)
    requires Inv(s) && Run(s, steps, t)
    ensures Stage(s.pc) < 1 <= Stage(t.pc) ==> Authorized(true) in steps
    ensures Stage(s.pc) < 2 <= Stage(t.pc) ==> KidFound(true) in steps
    ensures Stage(s.pc) < 3 <= Stage(t.pc) ==> Destroyed(Succeeded) in steps
    decreases |steps|
  {
    if steps != [] {
      var s' := Next(s, steps[0]);
      StepInv(s, steps[0]);
      StagesInTurn(s', steps[1..], t);
      RunInv(s', steps[1..], t);
      assert forall e :: e in steps <==> e == steps[0] || e in steps[1..];
    }
  }

  /** The admin's session is not touched before the admin is authorized and the kid found: an end of it by this
      handler has both behind it, and a reply other than an error, the end as well. */
  lemma NothingEndsUnasked(s: State, steps: seq<Step>, t: State)
    requires Initial(s) && Run(s, steps, t)
    ensures (exists i :: 0 <= i < |steps| && steps[i].Destroyed?) ==>
              Authorized(true) in steps && KidFound(true) in steps
    ensures t.pc.Replied? && !t.pc.reply.Failed? ==> Destroyed(Succeeded) in steps
    ensures Authorized(false) in steps || KidFound(false) in steps ==>
              t.pc == Replied(Failed) && forall i | 0 <= i < |steps| :: !steps[i].Destroyed?
  {
    StagesInTurn(s, steps, t);
    RunSteps(s, steps, t);
  }

  /** Each of the handler's steps is taken at its own stage. */
  lemma {:induction false} RunSteps(s: State, steps: seq<Step>, t: State)
    requires Inv(s) && Run(s, steps, t)
    ensures (exists i :: 0 <= i < |steps| && steps[i].Destroyed?) ==>
              && !s.pc.StartKid? && !s.pc.Replied?
              && (s.pc.Authorize? ==> Authorized(true) in steps) && (!s.pc.EndAdmin? ==> KidFound(true) in steps)
    ensures Authorized(false) in steps ==> s.pc.Authorize? && t.pc == Replied(Failed)
    ensures KidFound(false) in steps ==> (s.pc.Authorize? || s.pc.FindKid?) && t.pc == Replied(Failed)
    ensures Authorized(false) in steps || KidFound(false) in steps ==>
              forall i | 0 <= i < |steps| :: !steps[i].Destroyed?
    decreases |steps|
  {
    if steps != [] {
      var s' := Next(s, steps[0]);
      StepInv(s, steps[0]);
      RunSteps(s', steps[1..], t);
      RunInv(s', steps[1..], t);
      assert forall e :: e in steps <==> e == steps[0] || e in steps[1..];
      forall i | 0 < i < |steps| ensures steps[i] == steps[1..][i - 1] {}
    }
  }

  /** The failed-create branch is reached, and clears the cookie, even when the kid is deleted meanwhile. */
  lemma DeletedKidClears(s: State, token: Token)
    requires Initial(s)
    ensures var steps := [Authorized(true), KidFound(true), Destroyed(Succeeded), Accounts(s.users - {s.kid}),
                          KidCreated(FailedBefore, token, 0, [], 0)];
            exists t :: Run(s, steps, t) && t.pc == Replied(Cleared) && t.minted.None? && s.adminToken !in t.sessions
  {
    var s1 := Next(s, Authorized(true));
    var s2 := Next(s1, KidFound(true));
    var s3 := Next(s2, Destroyed(Succeeded));
    var s4 := Next(s3, Accounts(s.users - {s.kid}));
    var last := KidCreated(FailedBefore, token, 0, [], 0);
    var s5 := Next(s4, last);
    RunsOn(s4, last, [], s5);
    RunsOn(s3, Accounts(s.users - {s.kid}), [last], s5);
    RunsOn(s2, Destroyed(Succeeded), [Accounts(s.users - {s.kid}), last], s5);
    RunsOn(s1, KidFound(true), [Destroyed(Succeeded), Accounts(s.users - {s.kid}), last], s5);
    RunsOn(s, Authorized(true), [KidFound(true), Destroyed(Succeeded), Accounts(s.users - {s.kid}), last], s5);
    assert [Authorized(true)] + [KidFound(true), Destroyed(Succeeded), Accounts(s.users - {s.kid}), last] ==
           [Authorized(true), KidFound(true), Destroyed(Succeeded), Accounts(s.users - {s.kid}), last];
    assert [KidFound(true)] + [Destroyed(Succeeded), Accounts(s.users - {s.kid}), last] ==
           [KidFound(true), Destroyed(Succeeded), Accounts(s.users - {s.kid}), last];
  }

  lemma RunsOn(s: State, step: Step, rest: seq<Step>, t: State)
    requires DistinctHandles(s.sessions) && Enabled(s, step) && Run(Next(s, step), rest, t)
    ensures Run(s, [step] + rest, t)
  {
    assert ([step] + rest)[0] == step && ([step] + rest)[1..] == rest;
  }
}
