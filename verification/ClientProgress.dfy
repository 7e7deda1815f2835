/** What the client can always still do: a call that waits on a working connection can be
    answered, and one that has lost its first connection can be answered on another. */
module ClientProgress {
  import opened Base
  import opened ClientLink
  import opened ClientRuns

  /** Taking these steps one after the other leads from `s` to `s'`. */
  ghost predicate Follows(s: State, steps: seq<Step>, s': State)
    decreases |steps|
  {
    if steps == [] then s == s'
    else Enabled(s, steps[0]) && LinkInRange(s) && Follows(After(s, steps[0]), steps[1..], s')
  }

  lemma FollowsNone(s: State)
    ensures Follows(s, [], s)
  {
  }

  lemma FollowsFirst(s: State, step: Step, steps: seq<Step>, s': State)
    requires Enabled(s, step) && LinkInRange(s) && Follows(After(s, step), steps, s')
    ensures Follows(s, [step] + steps, s')
  {
    hide Enabled, After;
    assert ([step] + steps)[1..] == steps;
  }

  predicate AnsweredIn(s: State, id: nat) {
    id in s.calls && s.calls[id].state.Done? && s.calls[id].state.result.Answered?
  }

  /** Both tasks run, and no reply on its way back ends the reader. */
  predicate Healthy(k: Conn) {
    k.writing && k.reader == Reading && forall r | r in k.replies :: !r.kind.TooLarge? && !r.kind.InvalidByte?
  }

  /** How far the requests of a connection are from being answered. */
  function Distance(k: Conn): nat {
    4 * |k.queue| + 3 * |k.buffer| + 2 * |k.sent| + |k.replies|
  }

  /** The next thing to happen on a connection with something in flight. */
  function NextIo(k: Conn, b: Bytes): Io {
    if k.replies != [] then Read else if k.sent != [] then Serve(Good(b)) else if k.buffer != [] then Flush else Take
  }

  lemma NextIoHelps(k: Conn, b: Bytes)
    requires ConnOk(k) && Healthy(k) && (k.queue != [] || k.pending != [])
    ensures IoEnabled(k, NextIo(k, b))
    ensures Healthy(AfterIo(k, NextIo(k, b))) && Distance(AfterIo(k, NextIo(k, b))) < Distance(k)
  {
    assert k.replies == [] && k.sent == [] && k.buffer == [] ==> OnTheWay(k) == [];
    if k.replies != [] {
      ReadMatches(k);
      assert k.replies[0] in k.replies;
      assert forall r | r in k.replies[1..] :: r in k.replies;
    }
  }

  /** A call that waits on a working connection can be answered, whatever is queued before it. */
  lemma {:induction false} WaitingCanBeAnswered(s: State, id: nat, b: Bytes) returns (steps: seq<Step>, s': State)
    requires Inv(s) && id in s.calls && s.calls[id].state.Waiting? && s.calls[id].state.conn < |s.conns|
    requires Healthy(s.conns[s.calls[id].state.conn])
    ensures Follows(s, steps, s') && AnsweredIn(s', id)
    decreases Distance(s.conns[s.calls[id].state.conn])
  {
    hide Inv, ConnOk, CallOk, Healthy, Distance, NextIo, IoEnabled, AfterIo;
    var c := s.calls[id].state.conn;
    var k := s.conns[c];
    WaitsOn(s, id);
    NextIoHelps(k, b);
    var step := ConnStep(c, NextIo(k, b));
    StepKeeps(s, step);
    var next := After(s, step);
    if next.calls[id].state.Done? {
      DeliveredTo(s, id, b);
      steps, s' := [], next;
    } else {
      StillWaits(s, id, b);
      steps, s' := WaitingCanBeAnswered(next, id, b);
    }
    FollowsFirst(s, step, steps, s');
    steps := [step] + steps;
  }

  /** The waiting call is in line on its connection. */
  lemma WaitsOn(s: State, id: nat)
    requires Inv(s) && id in s.calls && s.calls[id].state.Waiting? && s.calls[id].state.conn < |s.conns|
    requires Healthy(s.conns[s.calls[id].state.conn])
    ensures var k := s.conns[s.calls[id].state.conn]; ConnOk(k) && (Call(id) in k.queue || Call(id) in k.pending)
    ensures LinkInRange(s)
  {
    hide ConnOk;
    assert CallOk(id, s.calls[id], s.conns, s.attempts);
  }

  lemma DeliveredTo(s: State, id: nat, b: Bytes)
    requires id in s.calls && s.calls[id].state.Waiting? && s.calls[id].state.conn < |s.conns| && LinkInRange(s)
    requires var c := s.calls[id].state.conn; IoEnabled(s.conns[c], NextIo(s.conns[c], b))
    requires var c := s.calls[id].state.conn; After(s, ConnStep(c, NextIo(s.conns[c], b))).calls[id].state.Done?
    ensures var c := s.calls[id].state.conn; AnsweredIn(After(s, ConnStep(c, NextIo(s.conns[c], b))), id)
  {
  }

  lemma StillWaits(s: State, id: nat, b: Bytes)
    requires id in s.calls && s.calls[id].state.Waiting? && s.calls[id].state.conn < |s.conns| && LinkInRange(s)
    requires var c := s.calls[id].state.conn; IoEnabled(s.conns[c], NextIo(s.conns[c], b))
    requires var c := s.calls[id].state.conn; !After(s, ConnStep(c, NextIo(s.conns[c], b))).calls[id].state.Done?
    ensures var c := s.calls[id].state.conn;
            var next := After(s, ConnStep(c, NextIo(s.conns[c], b)));
            && next.calls[id].state == s.calls[id].state && |next.conns| == |s.conns|
            && next.conns[c] == AfterIo(s.conns[c], NextIo(s.conns[c], b))
  {
  }

  lemma {:induction false} FollowsBoth(s: State, a: seq<Step>, mid: State, b: seq<Step>, s': State)
    requires Follows(s, a, mid) && Follows(mid, b, s')
    ensures Follows(s, a + b, s')
    decreases |a|
  {
    hide Enabled, After;
    if a == [] {
      assert a + b == b;
    } else {
      FollowsBoth(After(s, a[0]), a[1..], mid, b, s');
      assert (a + b)[0] == a[0] && (a + b)[1..] == a[1..] + b;
    }
  }

  lemma {:induction false} FollowsKeeps(s: State, steps: seq<Step>, s': State)
    requires Inv(s) && Follows(s, steps, s')
    ensures Inv(s')
    decreases |steps|
  {
    hide Inv, Enabled, After;
    if steps != [] {
      StepKeeps(s, steps[0]);
      FollowsKeeps(After(s, steps[0]), steps[1..], s');
    }
  }

  /** A call about to send on a working connection can be answered. */
  lemma SendingCanBeAnswered(s: State, id: nat, b: Bytes) returns (steps: seq<Step>, s': State)
    requires Inv(s) && id in s.calls && s.calls[id].state.Sending? && s.calls[id].state.conn < |s.conns|
    requires Healthy(s.conns[s.calls[id].state.conn])
    ensures Follows(s, steps, s') && AnsweredIn(s', id)
  {
    hide ConnOk, CallOk, SupervisorOk;
    StepDefined(s);
    StepKeeps(s, Enqueue(id));
    var next := After(s, Enqueue(id));
    steps, s' := WaitingCanBeAnswered(next, id, b);
    FollowsFirst(s, Enqueue(id), steps, s');
    steps := [Enqueue(id)] + steps;
  }


  /** The connection of an attempt once its AUTH has been answered. */
  function Greeted(): Conn {
    Conn([], [], [], [], [], None, true, Reading)
  }

  /** The same connection with the answer to its AUTH on the way back. */
  function Greeting(id: nat, b: Bytes): Conn {
    Greeted().(pending := [Auth(id)], replies := [Reply(Auth(id), Good(b))])
  }

  lemma GreetingIo(id: nat, b: Bytes)
    ensures var framed := Greeted().(pending := [Auth(id)], buffer := [Auth(id)]);
            && AfterIo(Opening(id), Take) == framed
            && AfterIo(framed, Flush) == framed.(buffer := [], sent := [Auth(id)])
            && AfterIo(framed.(buffer := [], sent := [Auth(id)]), Serve(Good(b))) == Greeting(id, b)
            && AfterIo(Greeting(id, b), Read) == Greeted()
  {
    assert [Auth(id)][1..] == [] && [] + [Auth(id)] == [Auth(id)];
    assert [Reply(Auth(id), Good(b))][1..] == [];
  }

  /** The AUTH of a new connection can be framed, sent and answered. */
  lemma GreetingServed(s: State, c: nat, id: nat, b: Bytes) returns (steps: seq<Step>)
    requires LinkInRange(s) && c < |s.conns| && s.conns[c] == Opening(id)
    ensures Follows(s, steps, s.(conns := s.conns[c := Greeting(id, b)]))
  {
    hide AfterIo;
    GreetingIo(id, b);
    var s1 := After(s, ConnStep(c, Take));
    var s2 := After(s1, ConnStep(c, Flush));
    var s3 := After(s2, ConnStep(c, Serve(Good(b))));
    assert s3 == s.(conns := s.conns[c := Greeting(id, b)]);
    hide Enabled, After, Follows;
    FollowsNone(s3);
    FollowsFirst(s2, ConnStep(c, Serve(Good(b))), [], s3);
    FollowsFirst(s1, ConnStep(c, Flush), [ConnStep(c, Serve(Good(b)))], s3);
    steps := [ConnStep(c, Flush)] + [ConnStep(c, Serve(Good(b)))];
    FollowsFirst(s, ConnStep(c, Take), steps, s3);
    steps := [ConnStep(c, Take)] + steps;
  }

  /** A good answer to AUTH brings the link up and its caller to send. */
  lemma GreetingRead(s: State, c: nat, id: nat, b: Bytes) returns (steps: seq<Step>, s': State)
    requires LinkInRange(s) && c < |s.conns| && s.conns[c] == Greeting(id, b) && id in s.calls
    requires s.calls[id].state.Attempting? && s.calls[id].state.dialled == Some(c)
    ensures Follows(s, steps, s') && s'.conns == s.conns[c := Greeted()] && s'.link == Up(c)
    ensures id in s'.calls && s'.calls[id].state == Sending(c, s.calls[id].state.failed.Some?)
  {
    hide AfterIo;
    GreetingIo(id, b);
    var s1 := After(s, ConnStep(c, Read));
    s' := After(s1, AuthDone(id));
    hide Enabled, After, Follows;
    FollowsNone(s');
    FollowsFirst(s1, AuthDone(id), [], s');
    FollowsFirst(s, ConnStep(c, Read), [AuthDone(id)], s');
    steps := [ConnStep(c, Read)] + [AuthDone(id)];
  }

  /** An attempt can succeed, and then its call sends on the new connection. */
  lemma AttemptCanSucceed(s: State, id: nat, b: Bytes) returns (steps: seq<Step>, s': State)
    requires LinkInRange(s) && id in s.calls && s.calls[id].state.Attempting? && s.calls[id].state.dialled.None?
    ensures Follows(s, steps, s') && s'.conns == s.conns + [Greeted()] && s'.link == Up(|s.conns|)
    ensures id in s'.calls && s'.calls[id].state == Sending(|s.conns|, s.calls[id].state.failed.Some?)
  {
    var c := |s.conns|;
    var s1 := After(s, Dial(id));
    var s2 := s1.(conns := s1.conns[c := Greeting(id, b)]);
    hide Enabled, After, Follows;
    steps := GreetingServed(s1, c, id, b);
    var more;
    more, s' := GreetingRead(s2, c, id, b);
    FollowsBoth(s1, steps, s2, more, s');
    FollowsFirst(s, Dial(id), steps + more, s');
    steps := [Dial(id)] + (steps + more);
  }

  /** The link has nothing a call that lost `failed` could use, and nothing is fatal. */
  predicate NeedsConnection(s: State, failed: Option<nat>) {
    match s.link
    case Down => true
    case DeadLink(_) => false
    case Up(c) => c < |s.conns| && (s.conns[c].lost == Some(Transient) || (s.conns[c].lost.None? && failed == Some(c)))
  }

  /** A call that looks for a connection when there is none, and nobody is opening one, can
      open one and be answered on it. */
  lemma SeekingCanBeAnswered(s: State, id: nat, b: Bytes) returns (steps: seq<Step>, s': State)
    requires Inv(s) && s.slow.None? && id in s.calls && s.calls[id].state.Seeking?
    requires NeedsConnection(s, s.calls[id].state.failed)
    ensures Follows(s, steps, s') && AnsweredIn(s', id)
  {
    hide ConnOk, CallOk;
    StepKeeps(s, Load(id));
    var s1 := After(s, Load(id));
    StepKeeps(s1, Lock(id));
    var s2 := After(s1, Lock(id));
    assert s2.calls[id].state == Attempting(s.calls[id].state.failed, None, None);
    var dialled, s3 := AttemptCanSucceed(s2, id, b);
    hide Inv, Enabled, After, Follows;
    FollowsKeeps(s2, dialled, s3);
    steps, s' := SendingCanBeAnswered(s3, id, b);
    FollowsBoth(s2, dialled, s3, steps, s');
    FollowsFirst(s1, Lock(id), dialled + steps, s');
    FollowsFirst(s, Load(id), [Lock(id)] + (dialled + steps), s');
    steps := [Load(id)] + ([Lock(id)] + (dialled + steps));
  }

  /** A call whose first connection is gone can be answered on a new one. */
  lemma LostCallCanBeAnswered(s: State, id: nat, b: Bytes) returns (steps: seq<Step>, s': State)
    requires Inv(s) && s.slow.None? && Enabled(s, Hang(id)) && !s.calls[id].state.retried
    requires NeedsConnection(s, Some(s.calls[id].state.conn))
    ensures Follows(s, steps, s') && AnsweredIn(s', id)
  {
    hide ConnOk, CallOk;
    StepKeeps(s, Hang(id));
    var s1 := After(s, Hang(id));
    steps, s' := SeekingCanBeAnswered(s1, id, b);
    FollowsFirst(s, Hang(id), steps, s');
    steps := [Hang(id)] + steps;
  }

  /** A new call can be answered: on the connection there is, or on a new one. */
  lemma FreshCallCanBeAnswered(s: State, id: nat, b: Bytes) returns (steps: seq<Step>, s': State)
    requires Inv(s) && id in s.calls && s.calls[id].state.Fresh?
    requires if s.link.Up? && s.conns[s.link.conn].lost.None? then Healthy(s.conns[s.link.conn])
             else s.slow.None? && NeedsConnection(s, None)
    ensures Follows(s, steps, s') && AnsweredIn(s', id)
  {
    hide ConnOk, CallOk;
    StepKeeps(s, Look(id));
    var s1 := After(s, Look(id));
    if s.link.Up? && s.conns[s.link.conn].lost.None? {
      steps, s' := SendingCanBeAnswered(s1, id, b);
    } else {
      steps, s' := SeekingCanBeAnswered(s1, id, b);
    }
    FollowsFirst(s, Look(id), steps, s');
    steps := [Look(id)] + steps;
  }

  // ---- a lost connection lets its callers go ----

  /** Whatever ends the two tasks of a connection, in either order, nobody is kept waiting on
      it: a failed write and the end of the stream, or both tasks stopped from outside. */
  lemma LossIsNoticed(k: Conn, w: Waiter)
    ensures Unheard(AfterIo(AfterIo(k, WriterStops), ReaderStops), w)
    ensures Unheard(AfterIo(AfterIo(k, ReaderStops), WriterStops), w)
    ensures k.writing && k.reader == Reading ==>
              && Unheard(AfterIo(AfterIo(AfterIo(k, WriteFails), Eof), Drop), w)
              && Unheard(AfterIo(AfterIo(AfterIo(k, Eof), Drop), WriteFails), w)
              && AfterIo(k, WriteFails).lost.Some? && AfterIo(k, Eof).lost.Some?
  {
  }

  /** So every call on it can be told. */
  lemma LostCallersAreTold(s: State, id: nat)
    requires LinkInRange(s) && id in s.calls && s.calls[id].state.Waiting? && s.calls[id].state.conn < |s.conns|
    ensures var c := s.calls[id].state.conn;
            Enabled(After(After(s, ConnStep(c, WriterStops)), ConnStep(c, ReaderStops)), Hang(id))
  {
    hide AfterIo, Unheard, Deliver;
    LossIsNoticed(s.conns[s.calls[id].state.conn], Call(id));
  }
}
