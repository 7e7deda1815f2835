/** What holds in every run of the client: calls, pings, losses and reconnects in any order. */
module ClientRuns {
  import opened Base
  import opened Bits
  import opened ClientLink

  lemma StepKeeps(s: State, step: Step)
    requires Inv(s) && Enabled(s, step)
    ensures Inv(After(s, step))
  {
    hide Enabled, After, ConnOk, CallOk, Failures, Wait;
    match step {
      case Begin(id) => BeginKeeps(s, id);
      case Look(id) => LookKeeps(s, id);
      case Load(id) => LoadKeeps(s, id);
      case Lock(id) => LockKeeps(s, id);
      case Dial(id) => DialKeeps(s, id);
      case DialFails(id) => DialFailsKeeps(s, id);
      case AuthDone(id) => AuthDoneKeeps(s, id);
      case Enqueue(id) => EnqueueKeeps(s, id);
      case Hang(id) => HangKeeps(s, id);
      case Cancel(id) => CancelKeeps(s, id);
      case ConnStep(c, io) => ConnStepKeeps(s, c, io);
    }
  }

  lemma BeginKeeps(s: State, id: nat)
    requires Inv(s) && Enabled(s, Begin(id))
    ensures Inv(After(s, Begin(id)))
  {
    hide ConnOk, Failures, Wait;
  }

  lemma DialFailsKeeps(s: State, id: nat)
    requires Inv(s) && Enabled(s, DialFails(id))
    ensures Inv(After(s, DialFails(id)))
  {
    hide ConnOk, CallOk, Failures, Wait, EndAttempt;
    EndKeeps(s, id, SetBack);
  }

  lemma AuthDoneKeeps(s: State, id: nat)
    requires Inv(s) && Enabled(s, AuthDone(id))
    ensures Inv(After(s, AuthDone(id)))
  {
    hide ConnOk, CallOk, Failures, Wait, EndAttempt;
    var st := s.calls[id].state;
    EndKeeps(s, id, Verdict(s.conns[st.dialled.value], st.dialled.value, st.verdict));
  }

  // ---- what a connection carries ----

  /** The request of a waiter is somewhere on the connection. */
  predicate Carries(k: Conn, w: Waiter) {
    w in k.queue || w in k.buffer || w in k.sent || w in k.pending || w in Tos(k.replies)
  }

  /** A call that sends on a connection still written to has its request there and waits. */
  lemma SendingPutsOn(s: State, id: nat)
    requires LinkInRange(s) && Enabled(s, Enqueue(id)) && s.conns[s.calls[id].state.conn].writing
    ensures var (st, s') := (s.calls[id].state, After(s, Enqueue(id)));
            && id in s'.calls && s'.calls[id].state == Waiting(st.conn, st.retried)
            && |s'.conns| == |s.conns| && Carries(s'.conns[st.conn], Call(id))
  {
  }

  /** No step but a call queueing its own request puts it on a connection. */
  ghost predicate Traced(s: State) {
    forall c: nat, id: nat | c < |s.conns| && Carries(s.conns[c], Call(id)) :: id in s.calls && c in s.calls[id].on
  }

  lemma IoAddsNoCall(k: Conn, io: Io, id: nat)
    requires IoEnabled(k, io) && Carries(AfterIo(k, io), Call(id))
    ensures Carries(k, Call(id))
  {
    if io.Serve? {
      TosAppend(k.replies, Reply(k.sent[0], io.kind));
    }
  }

  /** `after` forgets no call of `before` and only adds to the connections it was queued on. */
  predicate Grown(before: map<nat, CallRecord>, after: map<nat, CallRecord>, id: nat) {
    id in before ==> id in after && before[id].on <= after[id].on
  }

  lemma SupervisorGrows(s: State, other: nat, e: Ending, id: nat)
    requires Inv(s) && other in s.calls
    ensures s.calls[other].state.Attempting? ==> Grown(s.calls, EndAttempt(s, other, e).calls, id)
    ensures s.calls[other].state.Queued? ==> Grown(s.calls, Settle(s, other).calls, id)
  {
    hide ConnOk, CallOk, Failures, Wait;
  }

  lemma RecordsGrow(s: State, step: Step, id: nat)
    requires Inv(s) && Enabled(s, step)
    ensures Grown(s.calls, After(s, step).calls, id)
  {
    hide ConnOk, CallOk, Failures, Wait, AfterIo, IoEnabled, Settle, EndAttempt, Verdict;
    match step {
      case DialFails(other) => SupervisorGrows(s, other, SetBack, id);
      case AuthDone(other) =>
        var st := s.calls[other].state;
        SupervisorGrows(s, other, Verdict(s.conns[st.dialled.value], st.dialled.value, st.verdict), id);
      case Lock(other) => SupervisorGrows(s, other, SetBack, id);
      case _ =>
    }
  }

  lemma TracedKeeps(s: State, step: Step)
    requires Inv(s) && Traced(s) && Enabled(s, step)
    ensures Traced(After(s, step))
  {
    hide ConnOk, CallOk, Failures, Wait, AfterIo, IoEnabled, After, Enabled, Carries;
    var s' := After(s, step);
    forall c: nat, id: nat | c < |s'.conns| && Carries(s'.conns[c], Call(id))
      ensures id in s'.calls && c in s'.calls[id].on
    {
      CarriedBefore(s, step, c, id);
      RecordsGrow(s, step, id);
    }
  }

  lemma CarriedBefore(s: State, step: Step, c: nat, id: nat)
    requires Inv(s) && Enabled(s, step) && c < |After(s, step).conns| && Carries(After(s, step).conns[c], Call(id))
    ensures || (c < |s.conns| && Carries(s.conns[c], Call(id)))
            || (id in After(s, step).calls && c in After(s, step).calls[id].on)
  {
    hide ConnOk, CallOk, Failures, Wait, AfterIo, IoEnabled;
    if step.ConnStep? && step.c == c {
      IoAddsNoCall(s.conns[c], step.io, id);
    }
  }

  // ---- runs ----

  /** What a step needs to be defined; it holds in every state reached. */
  predicate LinkInRange(s: State) {
    s.link.Up? ==> s.link.conn < |s.conns|
  }

  lemma StepDefined(s: State)
    requires Inv(s)
    ensures LinkInRange(s)
  {
    hide ConnOk, CallOk;
  }

  ghost predicate IsRun(run: seq<State>, steps: seq<Step>) {
    && |run| == |steps| + 1 && Start(run[0])
    && forall i | 0 <= i < |steps| :: Enabled(run[i], steps[i]) && LinkInRange(run[i]) && run[i + 1] == After(run[i], steps[i])
  }

  lemma {:induction false} RunKeeps(run: seq<State>, steps: seq<Step>, i: nat)
    requires IsRun(run, steps) && i < |run|
    ensures Inv(run[i]) && Traced(run[i])
  {
    hide Enabled, After, Inv, Traced;
    if i == 0 {
      StartKeeps(run[0]);
    } else {
      RunKeeps(run, steps, i - 1);
      assert Enabled(run[i - 1], steps[i - 1]) && run[i] == After(run[i - 1], steps[i - 1]);
      StepKeeps(run[i - 1], steps[i - 1]);
      TracedKeeps(run[i - 1], steps[i - 1]);
    }
  }

  lemma StartKeeps(s: State)
    requires Start(s)
    ensures Inv(s) && Traced(s)
  {
  }

  /** A run is never stuck for want of a valid link: any enabled step extends it. */
  lemma RunExtends(run: seq<State>, steps: seq<Step>, step: Step)
    requires IsRun(run, steps) && Enabled(run[|steps|], step)
    ensures LinkInRange(run[|steps|]) && IsRun(run + [After(run[|steps|], step)], steps + [step])
  {
    hide Enabled, After, Traced, ConnOk, CallOk;
    RunKeeps(run, steps, |steps|);
  }

  /** Each completed call got the reply to its own request. */
  lemma AnswerIsOwn(run: seq<State>, steps: seq<Step>, i: nat, id: nat)
    requires IsRun(run, steps) && i < |run| && id in run[i].calls
    requires run[i].calls[id].state.Done? && run[i].calls[id].state.result.Answered?
    ensures run[i].calls[id].state.result.reply.to == Call(id)
  {
    RunKeeps(run, steps, i);
  }

  lemma {:induction false} RecordsGrowInRun(run: seq<State>, steps: seq<Step>, i: nat, j: nat, id: nat)
    requires IsRun(run, steps) && i <= j < |run|
    ensures Grown(run[i].calls, run[j].calls, id)
    decreases j - i
  {
    hide Enabled, After, Inv, Traced;
    if i < j {
      RecordsGrowInRun(run, steps, i, j - 1, id);
      RunKeeps(run, steps, j - 1);
      assert Enabled(run[j - 1], steps[j - 1]) && run[j] == After(run[j - 1], steps[j - 1]);
      RecordsGrow(run[j - 1], steps[j - 1], id);
    }
  }

  /** Over a whole run a request appears on at most two connections. */
  lemma AtMostTwoConnections(run: seq<State>, steps: seq<Step>, id: nat, seen: set<nat>)
    requires IsRun(run, steps)
    requires forall c | c in seen :: exists i: nat :: i < |run| && c < |run[i].conns| && Carries(run[i].conns[c], Call(id))
    ensures |seen| <= 2
  {
    hide Enabled, After, Carries, ConnOk;
    var end := |run| - 1;
    RunKeeps(run, steps, end);
    forall c | c in seen
      ensures id in run[end].calls && c in run[end].calls[id].on
    {
      var i: nat :| i < |run| && c < |run[i].conns| && Carries(run[i].conns[c], Call(id));
      RunKeeps(run, steps, i);
      RecordsGrowInRun(run, steps, i, end, id);
    }
    if seen != {} {
      var c :| c in seen;
      TwoAtMost(seen, run[end].calls[id].on);
    }
  }

  lemma TwoAtMost(s: set<nat>, list: seq<nat>)
    requires (forall c | c in s :: c in list) && |list| <= 2
    ensures |s| <= 2
  {
    if |list| == 0 {
      assert s == {};
    } else if |list| == 1 {
      assert s <= {list[0]};
      Fewer(s, {list[0]});
    } else {
      assert s <= {list[0], list[1]};
      Fewer(s, {list[0], list[1]});
    }
  }

  lemma {:induction false} Fewer(a: set<nat>, b: set<nat>)
    requires a <= b
    ensures |a| <= |b|
  {
    if a != {} {
      var x :| x in a;
      Fewer(a - {x}, b - {x});
    }
  }

  /** A dead client stays dead, of the same cause. */
  lemma DeadIsForever(s: State, step: Step)
    requires Inv(s) && Enabled(s, step) && s.link.DeadLink?
    ensures After(s, step).link == s.link
  {
    hide ConnOk, CallOk, Failures, Wait, AfterIo, IoEnabled, Verdict;
  }

  lemma {:induction false} DeadInRun(run: seq<State>, steps: seq<Step>, i: nat, j: nat)
    requires IsRun(run, steps) && i <= j < |run| && run[i].link.DeadLink?
    ensures run[j].link == run[i].link
    decreases j - i
  {
    hide Enabled, After, Inv, Traced;
    if i < j {
      DeadInRun(run, steps, i, j - 1);
      RunKeeps(run, steps, j - 1);
      assert Enabled(run[j - 1], steps[j - 1]) && run[j] == After(run[j - 1], steps[j - 1]);
      DeadIsForever(run[j - 1], steps[j - 1]);
    }
  }

  /** While a caller is queued it keeps the number of attempts it saw, and no attempt ends
      without being counted. */
  lemma QueuedKeepsSeen(s: State, step: Step, id: nat)
    requires Inv(s) && Enabled(s, step) && id in s.calls && s.calls[id].state.Queued?
    ensures var s' := After(s, step);
            && id in s'.calls && s.ended <= s'.ended
            && (s'.calls[id].state.Queued? ==> s'.calls[id].state == s.calls[id].state)
  {
    hide ConnOk, CallOk, Failures, Wait, AfterIo, IoEnabled, Verdict, Settle, EndAttempt;
    match step {
      case DialFails(other) => SupervisorKeepsSeen(s, other, SetBack, id);
      case AuthDone(other) =>
        var st := s.calls[other].state;
        SupervisorKeepsSeen(s, other, Verdict(s.conns[st.dialled.value], st.dialled.value, st.verdict), id);
      case Lock(other) => SupervisorKeepsSeen(s, other, SetBack, id);
      case _ =>
    }
  }

  predicate SeenKept(s: State, s': State, id: nat) {
    id in s.calls && s.calls[id].state.Queued? ==>
      && id in s'.calls && s.ended <= s'.ended
      && (s'.calls[id].state.Queued? ==> s'.calls[id].state == s.calls[id].state)
  }

  lemma SupervisorKeepsSeen(s: State, other: nat, e: Ending, id: nat)
    requires Inv(s) && other in s.calls
    ensures s.calls[other].state.Attempting? ==> SeenKept(s, EndAttempt(s, other, e), id)
    ensures s.calls[other].state.Queued? ==> SeenKept(s, Settle(s, other), id)
  {
    hide ConnOk, CallOk, Failures, Wait;
  }

  lemma {:induction false} QueuedThroughRun(run: seq<State>, steps: seq<Step>, i: nat, j: nat, id: nat)
    requires IsRun(run, steps) && i <= j < |run| && QueuedFrom(run, i, j, id)
    ensures run[j].calls[id].state == run[i].calls[id].state && run[i].ended <= run[j].ended
    decreases j - i
  {
    hide Enabled, After, Inv, Traced;
    if i < j {
      QueuedThroughRun(run, steps, i, j - 1, id);
      RunKeeps(run, steps, j - 1);
      assert Enabled(run[j - 1], steps[j - 1]) && run[j] == After(run[j - 1], steps[j - 1]);
      QueuedKeepsSeen(run[j - 1], steps[j - 1], id);
    }
  }

  /** The call waits for the lock from state `i` to state `j`. */
  ghost predicate QueuedFrom(run: seq<State>, i: nat, j: nat, id: nat)
    requires i <= j < |run|
  {
    forall k | i <= k <= j :: id in run[k].calls && run[k].calls[id].state.Queued?
  }

  /** A caller that queued at `i` and gets the lock at `j` makes no attempt of its own if one
      ended in between and the latest to end failed: it gives up with that failure, finds the
      link usable, or finds the client dead. */
  lemma FailureIsShared(run: seq<State>, steps: seq<Step>, i: nat, j: nat, id: nat)
    requires IsRun(run, steps) && 0 < i <= j < |steps|
    requires steps[i - 1] == Load(id) && QueuedFrom(run, i, j, id) && steps[j] == Lock(id)
    requires |run[i].ended| < |run[j].ended| && !run[j].ended[|run[j].ended| - 1].Succeeded?
    ensures id in run[j + 1].calls && !run[j + 1].calls[id].state.Attempting?
  {
    hide ConnOk, CallOk, Failures, Wait, Traced;
    RunKeeps(run, steps, i - 1);
    RunKeeps(run, steps, i);
    RunKeeps(run, steps, j);
    QueuedThroughRun(run, steps, i, j, id);
    assert run[i] == After(run[i - 1], steps[i - 1]) && run[j + 1] == After(run[j], steps[j]);
    assert run[i].calls[id].state.seen == run[i].attempts == |run[i].ended|;
  }

  /** No two attempts run at once. */
  lemma OneAttemptAtATime(run: seq<State>, steps: seq<Step>, i: nat, a: nat, b: nat)
    requires IsRun(run, steps) && i < |run| && a in run[i].calls && b in run[i].calls
    requires run[i].calls[a].state.Attempting? && run[i].calls[b].state.Attempting?
    ensures a == b
  {
    hide ConnOk, CallOk, Failures, Wait, Traced;
    RunKeeps(run, steps, i);
  }

  /** A caller is told its connection closed only when a task of that connection is gone, and
      once both are gone it can be told: nobody waits for ever on a connection that ended. */
  lemma ClosedMeansGone(s: State, id: nat)
    requires Inv(s) && id in s.calls && s.calls[id].state.Waiting?
    ensures var c := s.calls[id].state.conn;
            && c < |s.conns|
            && (Enabled(s, Hang(id)) ==> !s.conns[c].writing || s.conns[c].reader == Stopped)
            && (!s.conns[c].writing && s.conns[c].reader == Stopped ==> Enabled(s, Hang(id)))
  {
    assert CallOk(id, s.calls[id], s.conns, s.attempts);
    assert ConnOk(s.conns[s.calls[id].state.conn]);
  }

  // ---- why a connection ended ----

  /** The first cause recorded for the loss of a connection is the one that stays. */
  lemma FirstCauseStays(s: State, step: Step, c: nat)
    requires Inv(s) && Enabled(s, step) && c < |s.conns| && s.conns[c].lost.Some?
    ensures c < |After(s, step).conns| && After(s, step).conns[c].lost == s.conns[c].lost
  {
    hide ConnOk, CallOk, SupervisorOk, Verdict, Deliver, Unheard;
    StepDefined(s);
  }

  lemma {:induction false} CauseInRun(run: seq<State>, steps: seq<Step>, i: nat, j: nat, c: nat)
    requires IsRun(run, steps) && i <= j < |run| && c < |run[i].conns| && run[i].conns[c].lost.Some?
    ensures c < |run[j].conns| && run[j].conns[c].lost == run[i].conns[c].lost
    decreases j - i
  {
    hide Enabled, After, Inv, Traced;
    if i < j {
      CauseInRun(run, steps, i, j - 1, c);
      RunKeeps(run, steps, j - 1);
      assert Enabled(run[j - 1], steps[j - 1]) && run[j] == After(run[j - 1], steps[j - 1]);
      FirstCauseStays(run[j - 1], steps[j - 1], c);
    }
  }

  // ---- how attempts end ----

  /** A refused token ends the client for good: this caller learns it, and so does every later
      one, whether it looks or gets the lock. */
  lemma RefusedTokenIsForever(run: seq<State>, steps: seq<Step>, i: nat, j: nat, id: nat)
    requires IsRun(run, steps) && i < j < |run| && steps[i] == AuthDone(id)
    requires run[i].calls[id].state.verdict == Some(Unauthorized)
    ensures run[j].link == DeadLink(BadToken)
    ensures id in run[i + 1].calls && run[i + 1].calls[id].state == Done(Dead(BadToken))
    ensures forall other: nat | j < |steps| && (steps[j] == Look(other) || steps[j] == Lock(other)) ::
              other in run[j + 1].calls && run[j + 1].calls[other].state == Done(Dead(BadToken))
  {
    hide ConnOk, CallOk, SupervisorOk, Traced;
    assert Enabled(run[i], steps[i]) && run[i + 1] == After(run[i], steps[i]);
    DeadInRun(run, steps, i + 1, j);
  }

  /** A connection condemned by what it read ends the client for the next caller with the lock. */
  lemma CondemnedIsForever(run: seq<State>, steps: seq<Step>, i: nat, j: nat, id: nat)
    requires IsRun(run, steps) && i < j < |run| && steps[i] == Lock(id) && run[i].link.Up?
    requires run[i].conns[run[i].link.conn].lost.Some? && run[i].conns[run[i].link.conn].lost.value.Condemned?
    ensures run[j].link == DeadLink(run[i].conns[run[i].link.conn].lost.value.why)
    ensures id in run[i + 1].calls && run[i + 1].calls[id].state == Done(Dead(run[j].link.why))
  {
    hide ConnOk, CallOk, SupervisorOk, Traced;
    assert Enabled(run[i], steps[i]) && run[i + 1] == After(run[i], steps[i]);
    DeadInRun(run, steps, i + 1, j);
  }

  /** Any other failure is only a setback: the caller is told, the link is not dead, and the
      failure counts. */
  lemma OtherFailuresAreSetbacks(run: seq<State>, steps: seq<Step>, i: nat, id: nat)
    requires IsRun(run, steps) && i < |steps|
    requires || steps[i] == DialFails(id)
             || (steps[i] == AuthDone(id) &&
                 match run[i].calls[id].state.verdict
                 case Some(v) => v.Refusal? || v.TooLarge?
                 case None => var lost := run[i].conns[run[i].calls[id].state.dialled.value].lost;
                              lost.None? || lost.value.Transient?)
    ensures id in run[i + 1].calls && run[i + 1].calls[id].state == Done(Setback)
    ensures run[i + 1].link == Down && run[i + 1].ended == run[i].ended + [SetBack]
  {
    hide ConnOk, CallOk, Traced;
    RunKeeps(run, steps, i);
    assert Enabled(run[i], steps[i]) && run[i + 1] == After(run[i], steps[i]);
  }

  /** The wait after `n` failures in a row: a tenth of a second doubled `n` times, five seconds
      at most. */
  lemma {:induction false} WaitDoubles(n: nat)
    ensures Wait(n) == if 100 * Pow2(n) < 5000 then 100 * Pow2(n) else 5000
  {
    if n > 0 {
      WaitDoubles(n - 1);
    }
  }

  lemma BackoffInRun(run: seq<State>, steps: seq<Step>, i: nat)
    requires IsRun(run, steps) && i < |run|
    ensures var wait := 100 * Pow2(Failures(run[i].ended)); run[i].delay == if wait < 5000 then wait else 5000
  {
    hide ConnOk, CallOk, Traced, Wait, Failures;
    RunKeeps(run, steps, i);
    WaitDoubles(Failures(run[i].ended));
  }
}
