/** The way of a single call through the client, and what it is owed when its connection is
    lost: one more try, on another connection. */
module ClientRetry {
  import opened Base
  import opened ClientLink
  import opened ClientRuns

  /** The moves one step may make with a call while `conns` connections have been opened. */
  predicate Moves(st: CallState, st': CallState, conns: nat) {
    || st' == st
    || st'.Cancelled?
    || match st
       case Fresh => st' == Seeking(None) || (st'.Sending? && !st'.retried) || GivenUp(st')
       case Seeking(failed) => st'.Queued? && st'.failed == failed
       case Queued(failed, _) =>
         || st' == Attempting(failed, None, None)
         || (st'.Sending? && st'.retried == failed.Some? && failed != Some(st'.conn))
         || GivenUp(st')
       case Attempting(failed, d, _) =>
         || (d.None? && st' == Attempting(failed, Some(conns), None))
         || (st'.Attempting? && st'.failed == failed && st'.dialled == d && st'.verdict.Some?)
         || (st'.Sending? && d == Some(st'.conn) && st'.retried == failed.Some?)
         || GivenUp(st')
       case Sending(c, retried) => st' == Waiting(c, retried) || Lost(st', c, retried)
       case Waiting(c, retried) => (st'.Done? && st'.result.Answered?) || Lost(st', c, retried)
       case Done(_) => false
       case Cancelled => false
  }

  /** The supervisor told the call that there is no connection to be had. */
  predicate GivenUp(st: CallState) {
    st.Done? && (st.result.Dead? || st.result.Setback?)
  }

  /** The connection is gone: the first time the call goes to look for another one. */
  predicate Lost(st: CallState, c: nat, retried: bool) {
    if retried then st == Done(Closed) else st == Seeking(Some(c))
  }

  lemma SupervisorMoves(s: State, other: nat, e: Ending, id: nat)
    requires Inv(s) && other in s.calls && id in s.calls
    ensures s.calls[other].state.Attempting? && (e.Succeeded? ==> s.calls[other].state.dialled == Some(e.conn)) ==>
              var s' := EndAttempt(s, other, e);
              s'.conns == s.conns && id in s'.calls && Moves(s.calls[id].state, s'.calls[id].state, |s.conns|)
    ensures s.calls[other].state.Queued? ==>
              var s' := Settle(s, other);
              s'.conns == s.conns && id in s'.calls && Moves(s.calls[id].state, s'.calls[id].state, |s.conns|)
  {
    hide ConnOk, CallOk, Failures, Wait;
  }

  /** Whatever step is taken, a call makes one of its moves. */
  lemma CallMoves(s: State, step: Step, id: nat)
    requires Inv(s) && Enabled(s, step) && id in s.calls
    ensures var s' := After(s, step); id in s'.calls && Moves(s.calls[id].state, s'.calls[id].state, |s.conns|)
    ensures |s.conns| <= |After(s, step).conns|
  {
    hide ConnOk, CallOk, SupervisorOk, AfterIo, IoEnabled, Settle, EndAttempt, Unheard;
    StepDefined(s);
    match step {
      case DialFails(other) => SupervisorMoves(s, other, SetBack, id);
      case AuthDone(other) =>
        var st := s.calls[other].state;
        SupervisorMoves(s, other, Verdict(s.conns[st.dialled.value], st.dialled.value, st.verdict), id);
      case Lock(other) => SupervisorMoves(s, other, SetBack, id);
      case ConnStep(c, io) => ConnStepMoves(s, c, io, id);
      case _ =>
    }
  }

  lemma ConnStepMoves(s: State, c: nat, io: Io, id: nat)
    requires LinkInRange(s) && Enabled(s, ConnStep(c, io)) && id in s.calls
    ensures var s' := After(s, ConnStep(c, io));
            && |s'.conns| == |s.conns| && id in s'.calls && Moves(s.calls[id].state, s'.calls[id].state, |s.conns|)
  {
    hide AfterIo, IoEnabled;
  }

  // ---- over a run ----

  /** The call is about to send, or waits, on connection `c`. */
  predicate UsesIn(s: State, id: nat, c: nat) {
    id in s.calls && match s.calls[id].state
      case Sending(conn, _) => conn == c
      case Waiting(conn, _) => conn == c
      case _ => false
  }

  /** In some state up to `i` the call used connection `c`. */
  ghost predicate UsedBy(run: seq<State>, i: nat, id: nat, c: nat)
    requires i < |run|
  {
    exists j :: 0 <= j <= i && UsesIn(run[j], id, c)
  }

  /** In some state up to `i` the call used a connection other than `c`. */
  ghost predicate UsedAnother(run: seq<State>, i: nat, id: nat, c: nat)
    requires i < |run|
  {
    exists b: nat :: b != c && UsedBy(run, i, id, b)
  }

  ghost predicate UsedTwo(run: seq<State>, i: nat, id: nat)
    requires i < |run|
  {
    exists c: nat :: UsedBy(run, i, id, c) && UsedAnother(run, i, id, c)
  }

  /** What the state of a call says about its past. */
  ghost predicate Remembers(run: seq<State>, i: nat, id: nat)
    requires i < |run|
  {
    id in run[i].calls ==>
      match run[i].calls[id].state
      case Seeking(f) => Tried(run, i, id, f)
      case Queued(f, _) => Tried(run, i, id, f)
      case Attempting(f, d, _) => Tried(run, i, id, f) && (f.Some? ==> d != f)
      case Sending(c, retried) => c < |run[i].conns| && (retried ==> UsedAnother(run, i, id, c))
      case Waiting(c, retried) => c < |run[i].conns| && (retried ==> UsedAnother(run, i, id, c))
      case Done(result) => result.Closed? ==> UsedTwo(run, i, id)
      case _ => true
  }

  ghost predicate Tried(run: seq<State>, i: nat, id: nat, f: Option<nat>)
    requires i < |run|
  {
    f.Some? ==> f.value < |run[i].conns| && UsedBy(run, i, id, f.value)
  }

  lemma PastStays(run: seq<State>, i: nat, id: nat, c: nat)
    requires i + 1 < |run|
    ensures UsedBy(run, i, id, c) ==> UsedBy(run, i + 1, id, c)
    ensures UsedAnother(run, i, id, c) ==> UsedAnother(run, i + 1, id, c)
    ensures UsesIn(run[i], id, c) || UsesIn(run[i + 1], id, c) ==> UsedBy(run, i + 1, id, c)
  {
    hide UsesIn;
    forall b: nat | UsedBy(run, i, id, b) ensures UsedBy(run, i + 1, id, b) {
      var j :| 0 <= j <= i && UsesIn(run[j], id, b);
    }
  }

  lemma TwoStays(run: seq<State>, i: nat, id: nat)
    requires i + 1 < |run| && UsedTwo(run, i, id)
    ensures UsedTwo(run, i + 1, id)
  {
    hide UsesIn, UsedBy, UsedAnother;
    var c: nat :| UsedBy(run, i, id, c) && UsedAnother(run, i, id, c);
    PastStays(run, i, id, c);
  }

  /** One step later a call still remembers. */
  lemma StepRemembers(run: seq<State>, i: nat, id: nat)
    requires i + 1 < |run| && id in run[i].calls && id in run[i + 1].calls && Remembers(run, i, id)
    requires Moves(run[i].calls[id].state, run[i + 1].calls[id].state, |run[i].conns|)
    requires |run[i].conns| <= |run[i + 1].conns| && CallOk(id, run[i + 1].calls[id], run[i + 1].conns, run[i + 1].attempts)
    ensures Remembers(run, i + 1, id)
  {
    hide UsedBy, UsedAnother, UsedTwo, Owed, OnlyOn, Apart;
    match run[i].calls[id].state {
      case Seeking(f) => if f.Some? { PastStays(run, i, id, f.value); }
      case Queued(f, _) => if f.Some? { AnotherNow(run, i, i + 1, id, f.value); }
      case Attempting(f, d, _) => if f.Some? { AnotherNow(run, i, i + 1, id, f.value); }
      case Sending(c, _) => PastStays(run, i, id, c); TwoNow(run, i, id, c);
      case Waiting(c, _) => PastStays(run, i, id, c); TwoNow(run, i, id, c);
      case Done(_) => if UsedTwo(run, i, id) { TwoStays(run, i, id); }
      case _ =>
    }
  }

  lemma AnotherNow(run: seq<State>, i: nat, next: nat, id: nat, f: nat)
    requires next == i + 1 < |run| && UsedBy(run, i, id, f)
    ensures UsedBy(run, next, id, f)
    ensures forall c: nat | c != f :: UsedAnother(run, next, id, c)
  {
    hide UsesIn, UsedBy;
    PastStays(run, i, id, f);
  }

  lemma TwoNow(run: seq<State>, i: nat, id: nat, c: nat)
    requires i + 1 < |run| && UsesIn(run[i], id, c)
    ensures UsedAnother(run, i, id, c) ==> UsedTwo(run, i + 1, id)
  {
    hide UsesIn, UsedBy, UsedAnother;
    PastStays(run, i, id, c);
  }

  lemma {:induction false} RunRemembers(run: seq<State>, steps: seq<Step>, i: nat, id: nat)
    requires IsRun(run, steps) && i < |run|
    ensures Remembers(run, i, id)
  {
    hide Enabled, After, Traced, Remembers, ConnOk, SupervisorOk, CallOk;
    if i == 0 || id !in run[i - 1].calls {
      FreshRemembers(run, steps, i, id);
    } else {
      RunRemembers(run, steps, i - 1, id);
      RunKeeps(run, steps, i - 1);
      RunKeeps(run, steps, i);
      assert Enabled(run[i - 1], steps[i - 1]) && run[i] == After(run[i - 1], steps[i - 1]);
      CallMoves(run[i - 1], steps[i - 1], id);
      StepRemembers(run, i - 1, id);
    }
  }

  lemma FreshRemembers(run: seq<State>, steps: seq<Step>, i: nat, id: nat)
    requires IsRun(run, steps) && i < |run| && (i == 0 || id !in run[i - 1].calls)
    ensures Remembers(run, i, id)
  {
    hide Enabled, After, Tried, UsedBy, UsedAnother, UsedTwo;
    if i > 0 {
      assert Enabled(run[i - 1], steps[i - 1]) && run[i] == After(run[i - 1], steps[i - 1]);
      NewCallIsFresh(run[i - 1], steps[i - 1], id);
    }
  }

  lemma NewCallIsFresh(s: State, step: Step, id: nat)
    requires LinkInRange(s) && Enabled(s, step) && id !in s.calls
    ensures id in After(s, step).calls ==> After(s, step).calls[id].state.Fresh?
  {
    hide AfterIo, IoEnabled, Verdict, Unheard;
  }

  /** A call is told that its connection closed only after it has been on two of them. */
  lemma ClosedMeansTriedTwice(run: seq<State>, steps: seq<Step>, i: nat, id: nat)
    requires IsRun(run, steps) && i < |run| && id in run[i].calls && run[i].calls[id].state == Done(Closed)
    ensures exists j1, j2, c1: nat, c2: nat ::
              0 <= j1 < i && 0 <= j2 < i && c1 != c2 && UsesIn(run[j1], id, c1) && UsesIn(run[j2], id, c2)
  {
    RunRemembers(run, steps, i, id);
    var c1: nat :| UsedBy(run, i, id, c1) && UsedAnother(run, i, id, c1);
    var c2: nat :| c2 != c1 && UsedBy(run, i, id, c2);
    var j1 :| 0 <= j1 <= i && UsesIn(run[j1], id, c1);
    var j2 :| 0 <= j2 <= i && UsesIn(run[j2], id, c2);
    assert j1 != i && j2 != i;
  }

  /** The loss of the only connection a call has been on never ends it: it goes on to look for
      another one, and will not take the lost one again. */
  lemma FirstLossIsRetried(run: seq<State>, steps: seq<Step>, i: nat, id: nat, c: nat)
    requires IsRun(run, steps) && i < |steps| && UsesIn(run[i], id, c)
    requires forall j, b: nat | 0 <= j <= i && UsesIn(run[j], id, b) :: b == c
    requires steps[i] == Hang(id) || (steps[i] == Enqueue(id) && !run[i].conns[c].writing)
    ensures id in run[i + 1].calls && run[i + 1].calls[id].state == Seeking(Some(c))
  {
    hide ConnOk, CallOk, SupervisorOk;
    RunRemembers(run, steps, i, id);
    assert !UsedAnother(run, i, id, c);
    assert Enabled(run[i], steps[i]) && run[i + 1] == After(run[i], steps[i]);
  }
}
