/** One client's connection to a server as a machine of steps: callers, the supervisor that
    reconnects, and on every connection a writer, a reader and a server that answers in order. */
module ClientLink {
  import opened Base

  /** Who waits for a reply: a call, the attempt opening the connection, or nobody. */
  datatype Waiter = Call(id: nat) | Auth(id: nat) | Ping

  datatype Kind = Good(body: Bytes) | Unauthorized | Refusal(status: byte) | InvalidByte(b: byte) | TooLarge(n: nat)

  /** A reply, marked with the request the server gave it to. */
  datatype Reply = Reply(to: Waiter, kind: Kind)

  datatype Fatal = BadToken | BadStatus(b: byte) | Desync
  datatype Lost = Transient | Condemned(why: Fatal)
  datatype Reader = Reading | Stopping | Stopped

  /** Requests queued for the writer, framed but not written, with the server; replies on
      their way back; and the waiters in the order their requests were framed. */
  datatype Conn = Conn(
    queue: seq<Waiter>,
    buffer: seq<Waiter>,
    sent: seq<Waiter>,
    replies: seq<Reply>,
    pending: seq<Waiter>,
    lost: Option<Lost>,
    writing: bool,
    reader: Reader)

  datatype Result = Answered(reply: Reply) | Closed | Dead(why: Fatal) | Setback

  datatype CallState =
    | Fresh
    | Seeking(failed: Option<nat>)
    | Queued(failed: Option<nat>, seen: nat)
    | Attempting(failed: Option<nat>, dialled: Option<nat>, verdict: Option<Kind>)
    | Sending(conn: nat, retried: bool)
    | Waiting(conn: nat, retried: bool)
    | Done(result: Result)
    | Cancelled

  /** A call, and the connections its request was queued on so far. */
  datatype CallRecord = CallRecord(state: CallState, on: seq<nat>)

  datatype Link = Up(conn: nat) | Down | DeadLink(why: Fatal)

  datatype Ending = Succeeded(conn: nat) | SetBack | Fatally(why: Fatal)

  /** `ended` records how the attempts so far ended. */
  datatype State = State(
    conns: seq<Conn>,
    calls: map<nat, CallRecord>,
    link: Link,
    slow: Option<nat>,
    attempts: nat,
    last: bool,
    delay: nat,
    ended: seq<Ending>)

  const BACKOFF_MIN := 100
  const BACKOFF_MAX := 5000

  // ---- one connection ----

  function Tos(replies: seq<Reply>): seq<Waiter> {
    if replies == [] then [] else [replies[0].to] + Tos(replies[1..])
  }

  /** The requests on their way are, in order, the oldest waiters, and all of them while the
      writer is there to send what it framed; the stream is never out of step. */
  predicate ConnOk(k: Conn) {
    && k.lost != Some(Condemned(Desync))
    && (!k.writing ==> k.queue == [] && k.buffer == [])
    && (k.reader == Stopped ==> k.pending == [])
    && (k.reader != Stopped ==> OnTheWay(k) <= k.pending && (k.writing ==> OnTheWay(k) == k.pending))
  }

  function OnTheWay(k: Conn): seq<Waiter> {
    Tos(k.replies) + k.sent + k.buffer
  }

  /** Somebody still owes the waiter an answer, or the connection is gone. */
  predicate Owed(k: Conn, w: Waiter) {
    w in k.queue || w in k.pending || !k.writing || k.reader == Stopped
  }

  function Record(k: Conn, why: Lost): Option<Lost> {
    if k.lost.Some? then k.lost else Some(why)
  }

  function Hangup(k: Conn): Conn {
    k.(writing := false, queue := [], buffer := [])
  }

  /** Queue the waiter, then the frame; a reader that is gone ends the writer. */
  function Framed(k: Conn, w: Waiter): Conn {
    if k.reader == Stopped then Hangup(k) else k.(pending := k.pending + [w], buffer := k.buffer + [w])
  }

  datatype Io = Take | Beat | Flush | WriteFails | WriterStops | Serve(kind: Kind) | Read | Eof | Drop | ReaderStops

  predicate IoEnabled(k: Conn, io: Io) {
    match io
    case Take => k.writing && k.queue != []
    case Beat => k.writing
    case Flush => k.writing && k.buffer != []
    case WriteFails => k.writing
    case WriterStops => true
    case Serve(_) => k.sent != []
    case Read => k.reader == Reading && k.replies != []
    case Eof => k.reader == Reading
    case Drop => k.reader == Stopping
    case ReaderStops => true
  }

  /** What the reader makes of the reply at hand: hand it to the oldest waiter, and stop on one
      that nobody waits for, that has no known status or that is over the limit. */
  function AfterRead(k: Conn): Conn
    requires k.replies != []
  {
    var kind := k.replies[0].kind;
    var k1 := k.(replies := k.replies[1..], pending := if k.pending == [] then [] else k.pending[1..]);
    if kind.TooLarge? then k1.(lost := Record(k, Transient), reader := Stopping)
    else if k.pending == [] then k1.(lost := Record(k, Condemned(Desync)), reader := Stopping)
    else if kind.InvalidByte? then k1.(lost := Record(k, Condemned(BadStatus(kind.b))), reader := Stopping)
    else k1
  }

  function AfterIo(k: Conn, io: Io): Conn
    requires IoEnabled(k, io)
  {
    match io
    case Take => Framed(k, k.queue[0]).(queue := if k.reader == Stopped then [] else k.queue[1..])
    case Beat => Framed(k, Ping)
    case Flush => k.(sent := k.sent + [k.buffer[0]], buffer := k.buffer[1..])
    case WriteFails => Hangup(k).(lost := Record(k, Transient))
    case WriterStops => Hangup(k)
    case Serve(kind) => k.(sent := k.sent[1..], replies := k.replies + [Reply(k.sent[0], kind)])
    case Read => AfterRead(k)
    case Eof => k.(lost := Record(k, Transient), reader := Stopping)
    case Drop => k.(reader := Stopped, pending := [])
    case ReaderStops => k.(reader := Stopped, pending := [])
  }

  lemma {:induction false} TosAppend(replies: seq<Reply>, r: Reply)
    ensures Tos(replies + [r]) == Tos(replies) + [r.to]
  {
    if replies != [] {
      TosAppend(replies[1..], r);
      assert (replies + [r])[1..] == replies[1..] + [r];
    }
  }

  /** Every step of a connection keeps waiters and requests in line. */
  lemma IoKeepsLine(k: Conn, io: Io)
    requires ConnOk(k) && IoEnabled(k, io)
    ensures ConnOk(AfterIo(k, io))
  {
    if io.Serve? {
      TosAppend(k.replies, Reply(k.sent[0], io.kind));
      assert OnTheWay(AfterIo(k, io)) == OnTheWay(k);
    } else if io.Flush? {
      assert OnTheWay(AfterIo(k, io)) == OnTheWay(k);
    } else if io.Read? {
      ReadKeepsLine(k);
    } else if io.Take? || io.Beat? {
      FramedInLine(k, if io.Take? then k.queue[0] else Ping);
    }
  }

  lemma ReadKeepsLine(k: Conn)
    requires ConnOk(k) && IoEnabled(k, Read)
    ensures ConnOk(AfterRead(k))
  {
    hide OnTheWay, Record, Tos;
    ReadMatches(k);
    var kind := k.replies[0].kind;
    var k' := k.(replies := k.replies[1..], pending := k.pending[1..]);
    TailOnTheWay(k);
    assert AfterRead(k).pending == k'.pending && AfterRead(k).queue == k.queue && AfterRead(k).buffer == k.buffer;
    SameOnTheWay(AfterRead(k), k');
    RecordKeeps(k, if kind.InvalidByte? then Condemned(BadStatus(kind.b)) else Transient);
  }

  lemma TailOnTheWay(k: Conn)
    requires k.replies != []
    ensures OnTheWay(k) == [k.replies[0].to] + OnTheWay(k.(replies := k.replies[1..], pending := if k.pending == [] then [] else k.pending[1..]))
  {
    var rest := Tos(k.replies[1..]);
    assert [k.replies[0].to] + rest + k.sent + k.buffer == [k.replies[0].to] + (rest + k.sent + k.buffer);
  }

  lemma SameOnTheWay(k: Conn, k': Conn)
    requires k.replies == k'.replies && k.sent == k'.sent && k.buffer == k'.buffer
    ensures OnTheWay(k) == OnTheWay(k')
  {
  }

  lemma RecordKeeps(k: Conn, why: Lost)
    requires k.lost != Some(Condemned(Desync)) && why != Condemned(Desync)
    ensures Record(k, why) != Some(Condemned(Desync))
  {
  }

  lemma FramedInLine(k: Conn, w: Waiter)
    requires ConnOk(k) && k.writing
    ensures ConnOk(Framed(k, w))
  {
    assert OnTheWay(k.(buffer := k.buffer + [w])) == OnTheWay(k) + [w];
  }

  /** No step strands a waiter: it is still owed its answer unless the reader just gave it. */
  lemma IoKeepsOwed(k: Conn, io: Io, w: Waiter)
    requires IoEnabled(k, io) && Owed(k, w) && !(io.Read? && k.pending != [] && w == k.pending[0])
    ensures Owed(AfterIo(k, io), w)
  {
  }

  /** The reader finds the reply's own request at the head of the waiters, so a server that
      answers in order never looks out of step. */
  lemma ReadMatches(k: Conn)
    requires ConnOk(k) && IoEnabled(k, Read)
    ensures k.pending != [] && k.replies[0].to == k.pending[0]
  {
  }

  // ---- callers and the supervisor ----

  datatype Step =
    | Begin(id: nat)
    | Look(id: nat)
    | Load(id: nat)
    | Lock(id: nat)
    | Dial(id: nat)
    | DialFails(id: nat)
    | AuthDone(id: nat)
    | Enqueue(id: nat)
    | Hang(id: nat)
    | Cancel(id: nat)
    | ConnStep(c: nat, io: Io)

  function Put(s: State, id: nat, st: CallState): State
    requires id in s.calls
  {
    s.(calls := s.calls[id := s.calls[id].(state := st)])
  }

  /** A request whose connection is gone: tried once more, on another connection. */
  function OnClosed(c: nat, retried: bool): CallState {
    if retried then Done(Closed) else Seeking(Some(c))
  }

  predicate Unheard(k: Conn, w: Waiter) {
    w !in k.queue && w !in k.pending
  }

  function Opening(id: nat): Conn {
    Conn([Auth(id)], [], [], [], [], None, true, Reading)
  }

  function Doubled(delay: nat): nat {
    if 2 * delay < BACKOFF_MAX then 2 * delay else BACKOFF_MAX
  }

  /** The attempt of `id` is over. */
  function EndAttempt(s: State, id: nat, e: Ending): State
    requires id in s.calls && s.calls[id].state.Attempting?
  {
    var failed := s.calls[id].state.failed;
    var s1 := s.(slow := None, attempts := s.attempts + 1, ended := s.ended + [e]);
    match e
    case Succeeded(c) => Put(s1.(link := Up(c), last := false, delay := BACKOFF_MIN), id, Sending(c, failed.Some?))
    case SetBack => Put(s1.(last := true, delay := Doubled(s.delay)), id, Done(Setback))
    case Fatally(f) => Put(s1.(link := DeadLink(f)), id, Done(Dead(f)))
  }

  /** How an attempt ends, from the reply to AUTH or from the loss of the connection. */
  function Verdict(k: Conn, c: nat, v: Option<Kind>): Ending {
    match v
    case Some(Good(_)) => Succeeded(c)
    case Some(Unauthorized) => Fatally(BadToken)
    case Some(InvalidByte(b)) => Fatally(BadStatus(b))
    case Some(_) => SetBack
    case None => match k.lost case Some(Condemned(f)) => Fatally(f) case _ => SetBack
  }

  /** The link is down and `id` has the lock: a failure it queued behind is its own too,
      otherwise it makes an attempt. */
  function Claim(s: State, id: nat): State
    requires id in s.calls && s.calls[id].state.Queued?
  {
    var q := s.calls[id].state;
    var s1 := s.(link := Down);
    if s.attempts != q.seen && s.last then Put(s1, id, Done(Setback))
    else Put(s1.(slow := Some(id)), id, Attempting(q.failed, None, None))
  }

  /** What a caller finds once it has the lock. */
  function Settle(s: State, id: nat): State
    requires id in s.calls && s.calls[id].state.Queued? && (s.link.Up? ==> s.link.conn < |s.conns|)
  {
    var failed := s.calls[id].state.failed;
    match s.link
    case DeadLink(f) => Put(s, id, Done(Dead(f)))
    case Down => Claim(s, id)
    case Up(c) =>
      match s.conns[c].lost
      case Some(Condemned(f)) => Put(s.(link := DeadLink(f)), id, Done(Dead(f)))
      case Some(Transient) => Claim(s, id)
      case None => if failed == Some(c) then Claim(s, id) else Put(s, id, Sending(c, failed.Some?))
  }

  /** A reply handed to a waiter: to its call if that still waits on this connection. */
  function Deliver(calls: map<nat, CallRecord>, c: nat, w: Waiter, r: Reply): map<nat, CallRecord> {
    match w
    case Call(id) =>
      if id in calls && calls[id].state.Waiting? && calls[id].state.conn == c
      then calls[id := calls[id].(state := Done(Answered(r)))] else calls
    case Auth(id) =>
      if id in calls && calls[id].state.Attempting? && calls[id].state.dialled == Some(c)
      then calls[id := calls[id].(state := calls[id].state.(verdict := Some(r.kind)))] else calls
    case Ping => calls
  }

  predicate Enabled(s: State, step: Step) {
    match step
    case Begin(id) => id !in s.calls
    case Look(id) => id in s.calls && s.calls[id].state.Fresh?
    case Load(id) => id in s.calls && s.calls[id].state.Seeking?
    case Lock(id) => id in s.calls && s.calls[id].state.Queued? && s.slow.None?
    case Dial(id) => id in s.calls && s.calls[id].state.Attempting? && s.calls[id].state.dialled.None?
    case DialFails(id) => id in s.calls && s.calls[id].state.Attempting? && s.calls[id].state.dialled.None?
    case AuthDone(id) =>
      && id in s.calls && s.calls[id].state.Attempting? && s.calls[id].state.dialled.Some?
      && s.calls[id].state.dialled.value < |s.conns|
      && (s.calls[id].state.verdict.Some? || Unheard(s.conns[s.calls[id].state.dialled.value], Auth(id)))
    case Enqueue(id) => id in s.calls && s.calls[id].state.Sending? && s.calls[id].state.conn < |s.conns|
    case Hang(id) =>
      && id in s.calls && s.calls[id].state.Waiting? && s.calls[id].state.conn < |s.conns|
      && Unheard(s.conns[s.calls[id].state.conn], Call(id))
    case Cancel(id) => id in s.calls && !s.calls[id].state.Done?
    case ConnStep(c, io) => c < |s.conns| && IoEnabled(s.conns[c], io)
  }

  function After(s: State, step: Step): State
    requires Enabled(s, step) && (s.link.Up? ==> s.link.conn < |s.conns|)
  {
    match step
    case Begin(id) => s.(calls := s.calls[id := CallRecord(Fresh, [])])
    case Look(id) =>
      Put(s, id, match s.link
                 case DeadLink(f) => Done(Dead(f))
                 case Down => Seeking(None)
                 case Up(c) => if s.conns[c].lost.None? then Sending(c, false) else Seeking(None))
    case Load(id) => Put(s, id, Queued(s.calls[id].state.failed, s.attempts))
    case Lock(id) => Settle(s, id)
    case Dial(id) =>
      Put(s.(conns := s.conns + [Opening(id)]), id, Attempting(s.calls[id].state.failed, Some(|s.conns|), None))
    case DialFails(id) => EndAttempt(s, id, SetBack)
    case AuthDone(id) =>
      var st := s.calls[id].state;
      EndAttempt(s, id, Verdict(s.conns[st.dialled.value], st.dialled.value, st.verdict))
    case Enqueue(id) =>
      var st := s.calls[id].state;
      var k := s.conns[st.conn];
      if k.writing then
        s.(conns := s.conns[st.conn := k.(queue := k.queue + [Call(id)])],
           calls := s.calls[id := CallRecord(Waiting(st.conn, st.retried), s.calls[id].on + [st.conn])])
      else Put(s, id, OnClosed(st.conn, st.retried))
    case Hang(id) => Put(s, id, OnClosed(s.calls[id].state.conn, s.calls[id].state.retried))
    case Cancel(id) => Put(if s.slow == Some(id) then s.(slow := None) else s, id, Cancelled)
    case ConnStep(c, io) =>
      var k := s.conns[c];
      s.(conns := s.conns[c := AfterIo(k, io)],
         calls := if io.Read? && k.pending != [] then Deliver(s.calls, c, k.pending[0], k.replies[0]) else s.calls)
  }

  // ---- what every step keeps ----

  predicate Apart(on: seq<nat>) {
    forall i, j | 0 <= i < j < |on| :: on[i] != on[j]
  }

  /** Connections a call that failed on `failed` can have been queued on. */
  predicate OnlyOn(on: seq<nat>, failed: Option<nat>) {
    on == [] || (failed.Some? && on == [failed.value])
  }

  predicate CallOk(id: nat, r: CallRecord, conns: seq<Conn>, attempts: nat) {
    && |r.on| <= 2 && Apart(r.on) && (forall i | 0 <= i < |r.on| :: r.on[i] < |conns|)
    && match r.state
       case Fresh => r.on == []
       case Seeking(failed) => OnlyOn(r.on, failed)
       case Queued(failed, seen) => OnlyOn(r.on, failed) && seen <= attempts
       case Attempting(failed, d, _) => OnlyOn(r.on, failed) && (d.Some? ==> d.value < |conns| && d.value !in r.on)
       case Sending(c, retried) => c < |conns| && c !in r.on && |r.on| <= if retried then 1 else 0
       case Waiting(c, retried) =>
         c < |conns| && (if retried then 1 <= |r.on| <= 2 && r.on[|r.on| - 1] == c else r.on == [c]) && Owed(conns[c], Call(id))
       case Done(result) => result.Answered? ==> result.reply.to == Call(id)
       case Cancelled => true
  }

  /** Failed attempts since the last success. */
  function Failures(ended: seq<Ending>): nat {
    if ended == [] || ended[|ended| - 1].Succeeded? then 0
    else (if ended[|ended| - 1].SetBack? then 1 else 0) + Failures(ended[..|ended| - 1])
  }

  function Wait(failures: nat): nat {
    if failures == 0 then BACKOFF_MIN else Doubled(Wait(failures - 1))
  }

  predicate SupervisorOk(s: State) {
    && (s.link.Up? ==> s.link.conn < |s.conns|)
    && (s.slow.Some? ==> s.link.Down? && s.slow.value in s.calls && s.calls[s.slow.value].state.Attempting?)
    && |s.ended| == s.attempts
    && (!s.link.DeadLink? ==> (s.last <==> s.ended != [] && !s.ended[|s.ended| - 1].Succeeded?))
    && (!s.link.DeadLink? ==> forall i | 0 <= i < |s.ended| :: !s.ended[i].Fatally?)
    && s.delay == Wait(Failures(s.ended))
  }

  predicate Inv(s: State) {
    && (forall c | 0 <= c < |s.conns| :: ConnOk(s.conns[c]))
    && (forall id | id in s.calls :: CallOk(id, s.calls[id], s.conns, s.attempts))
    && (forall id | id in s.calls && s.calls[id].state.Attempting? :: s.slow == Some(id))
    && SupervisorOk(s)
  }

  /** A client that has not connected yet, or one whose first connection is open. */
  predicate Start(s: State) {
    || s == State([], map[], Down, None, 0, false, BACKOFF_MIN, [])
    || s == State([Conn([], [], [], [], [], None, true, Reading)], map[], Up(0), None, 0, false, BACKOFF_MIN, [])
  }

  /** A call is not disturbed by what other calls and connections do, as long as it is still
      owed the answer it waits for. */
  lemma CallUndisturbed(id: nat, r: CallRecord, conns: seq<Conn>, attempts: nat, conns': seq<Conn>, attempts': nat)
    requires CallOk(id, r, conns, attempts) && |conns| <= |conns'| && attempts <= attempts'
    requires r.state.Waiting? && Owed(conns[r.state.conn], Call(id)) ==> Owed(conns'[r.state.conn], Call(id))
    ensures CallOk(id, r, conns', attempts')
  {
  }

  lemma ConnStepKeeps(s: State, c: nat, io: Io)
    requires Inv(s) && Enabled(s, ConnStep(c, io))
    ensures Inv(After(s, ConnStep(c, io)))
  {
    hide ConnOk, CallOk, AfterIo, IoEnabled, Owed;
    var s' := After(s, ConnStep(c, io));
    var k := s.conns[c];
    IoKeepsLine(k, io);
    forall id | id in s'.calls
      ensures id in s.calls && CallOk(id, s'.calls[id], s'.conns, s'.attempts)
    {
      CallThroughIo(s, c, io, id);
    }
  }

  /** A reply read for a call ends it with the reply to its own request. */
  lemma CallThroughIo(s: State, c: nat, io: Io, id: nat)
    requires Inv(s) && Enabled(s, ConnStep(c, io)) && id in s.calls
    ensures var s' := After(s, ConnStep(c, io)); id in s'.calls && CallOk(id, s'.calls[id], s'.conns, s'.attempts)
  {
    hide ConnOk, AfterIo, IoEnabled, Owed, Failures, Wait, Apart, OnlyOn;
    var s' := After(s, ConnStep(c, io));
    var k, r := s.conns[c], s.calls[id];
    assert ConnOk(k) && CallOk(id, r, s.conns, s.attempts);
    if io.Read? {
      ReadMatches(k);
    }
    if r.state.Waiting? && r.state.conn == c && !(io.Read? && Call(id) == k.pending[0]) {
      if Owed(k, Call(id)) {
        IoKeepsOwed(k, io, Call(id));
      }
    }
    if s'.calls[id] == r {
      CallUndisturbed(id, r, s.conns, s.attempts, s'.conns, s'.attempts);
    }
  }

  /** One call moves on, nothing else changes. */
  lemma PutKeeps(s: State, id: nat, st: CallState)
    requires Inv(s) && id in s.calls && !st.Attempting? && s.slow != Some(id)
    requires CallOk(id, s.calls[id].(state := st), s.conns, s.attempts)
    ensures Inv(Put(s, id, st))
  {
    hide ConnOk, CallOk, Failures, Wait;
  }

  lemma LookKeeps(s: State, id: nat)
    requires Inv(s) && Enabled(s, Look(id))
    ensures Inv(After(s, Look(id)))
  {
    hide ConnOk, Failures, Wait;
    assert CallOk(id, s.calls[id], s.conns, s.attempts);
    PutKeeps(s, id, After(s, Look(id)).calls[id].state);
  }

  lemma HangKeeps(s: State, id: nat)
    requires Inv(s) && Enabled(s, Hang(id))
    ensures Inv(After(s, Hang(id)))
  {
    hide ConnOk, Failures, Wait;
    assert CallOk(id, s.calls[id], s.conns, s.attempts);
    PutKeeps(s, id, OnClosed(s.calls[id].state.conn, s.calls[id].state.retried));
  }

  lemma LoadKeeps(s: State, id: nat)
    requires Inv(s) && Enabled(s, Load(id))
    ensures Inv(After(s, Load(id)))
  {
    hide ConnOk, Failures, Wait;
    assert CallOk(id, s.calls[id], s.conns, s.attempts);
    PutKeeps(s, id, Queued(s.calls[id].state.failed, s.attempts));
  }

  lemma CancelKeeps(s: State, id: nat)
    requires Inv(s) && Enabled(s, Cancel(id))
    ensures Inv(After(s, Cancel(id)))
  {
    hide ConnOk, CallOk, Failures, Wait;
    CancelledOk(id, s.calls[id], s.conns, s.attempts);
    if s.slow != Some(id) {
      PutKeeps(s, id, Cancelled);
    }
  }

  lemma CancelledOk(id: nat, r: CallRecord, conns: seq<Conn>, attempts: nat)
    requires CallOk(id, r, conns, attempts)
    ensures CallOk(id, r.(state := Cancelled), conns, attempts)
  {
  }

  lemma EnqueueKeeps(s: State, id: nat)
    requires Inv(s) && Enabled(s, Enqueue(id))
    ensures Inv(After(s, Enqueue(id)))
  {
    hide ConnOk, CallOk, Failures, Wait;
    var s' := After(s, Enqueue(id));
    var c := s.calls[id].state.conn;
    assert CallOk(id, s.calls[id], s.conns, s.attempts);
    if s.conns[c].writing {
      QueuedInLine(s.conns[c], Call(id));
      EnqueuedOk(id, s.calls[id], s.conns, s.attempts);
      forall other | other in s.calls && other != id
        ensures CallOk(other, s'.calls[other], s'.conns, s'.attempts)
      {
        OtherQueued(other, s.calls[other], s.conns, s.attempts, c, Call(id));
      }
    } else {
      ClosedOk(id, s.calls[id], s.conns, s.attempts);
      PutKeeps(s, id, OnClosed(c, s.calls[id].state.retried));
    }
  }

  lemma QueuedInLine(k: Conn, w: Waiter)
    requires ConnOk(k) && k.writing
    ensures ConnOk(k.(queue := k.queue + [w]))
  {
    assert OnTheWay(k.(queue := k.queue + [w])) == OnTheWay(k);
  }

  lemma EnqueuedOk(id: nat, r: CallRecord, conns: seq<Conn>, attempts: nat)
    requires r.state.Sending? && CallOk(id, r, conns, attempts)
    ensures var c := r.state.conn;
            var conns' := conns[c := conns[c].(queue := conns[c].queue + [Call(id)])];
            CallOk(id, CallRecord(Waiting(c, r.state.retried), r.on + [c]), conns', attempts)
  {
  }

  lemma OtherQueued(id: nat, r: CallRecord, conns: seq<Conn>, attempts: nat, c: nat, w: Waiter)
    requires CallOk(id, r, conns, attempts) && c < |conns|
    ensures CallOk(id, r, conns[c := conns[c].(queue := conns[c].queue + [w])], attempts)
  {
  }

  lemma ClosedOk(id: nat, r: CallRecord, conns: seq<Conn>, attempts: nat)
    requires r.state.Sending? && CallOk(id, r, conns, attempts)
    ensures CallOk(id, r.(state := OnClosed(r.state.conn, r.state.retried)), conns, attempts)
  {
  }

  lemma LinkKeeps(s: State, link: Link)
    requires Inv(s) && s.slow.None?
    requires link.DeadLink? || (link.Down? && !s.link.DeadLink?)
    ensures Inv(s.(link := link))
  {
    hide ConnOk, CallOk, Failures, Wait;
  }

  lemma ClaimKeeps(s: State, id: nat)
    requires Inv(s) && Enabled(s, Lock(id)) && !s.link.DeadLink?
    ensures Inv(Claim(s, id))
  {
    hide ConnOk, CallOk, Failures, Wait;
    LinkKeeps(s, Down);
    var s1 := s.(link := Down);
    QueuedOk(id, s.calls[id], s.conns, s.attempts);
    if s.attempts != s.calls[id].state.seen && s.last {
      PutKeeps(s1, id, Done(Setback));
    }
  }

  lemma QueuedOk(id: nat, r: CallRecord, conns: seq<Conn>, attempts: nat)
    requires r.state.Queued? && CallOk(id, r, conns, attempts)
    ensures CallOk(id, r.(state := Done(Setback)), conns, attempts)
    ensures CallOk(id, r.(state := Attempting(r.state.failed, None, None)), conns, attempts)
    ensures forall f :: CallOk(id, r.(state := Done(Dead(f))), conns, attempts)
    ensures forall c | c < |conns| && r.state.failed != Some(c) && c >= 0 ::
              CallOk(id, r.(state := Sending(c, r.state.failed.Some?)), conns, attempts)
  {
  }

  lemma LockKeeps(s: State, id: nat)
    requires Inv(s) && Enabled(s, Lock(id))
    ensures Inv(After(s, Lock(id)))
  {
    hide ConnOk, CallOk, Failures, Wait, Claim;
    QueuedOk(id, s.calls[id], s.conns, s.attempts);
    match s.link {
      case DeadLink(f) => PutKeeps(s, id, Done(Dead(f)));
      case Down => ClaimKeeps(s, id);
      case Up(c) =>
        match s.conns[c].lost
        case Some(Condemned(f)) =>
          LinkKeeps(s, DeadLink(f));
          PutKeeps(s.(link := DeadLink(f)), id, Done(Dead(f)));
        case Some(Transient) => ClaimKeeps(s, id);
        case None =>
          if s.calls[id].state.failed == Some(c) {
            ClaimKeeps(s, id);
          } else {
            PutKeeps(s, id, Sending(c, s.calls[id].state.failed.Some?));
          }
    }
  }

  lemma DialKeeps(s: State, id: nat)
    requires Inv(s) && Enabled(s, Dial(id))
    ensures Inv(After(s, Dial(id)))
  {
    hide CallOk, Failures, Wait;
    var s' := After(s, Dial(id));
    DialledOk(id, s.calls[id], s.conns, s.attempts, Opening(id));
    forall other | other in s.calls && other != id
      ensures CallOk(other, s'.calls[other], s'.conns, s'.attempts)
    {
      OtherDialled(other, s.calls[other], s.conns, s.attempts, Opening(id));
    }
    assert OnTheWay(Opening(id)) == [];
  }

  lemma DialledOk(id: nat, r: CallRecord, conns: seq<Conn>, attempts: nat, k: Conn)
    requires r.state.Attempting? && CallOk(id, r, conns, attempts)
    ensures CallOk(id, r.(state := Attempting(r.state.failed, Some(|conns|), None)), conns + [k], attempts)
  {
  }

  lemma OtherDialled(id: nat, r: CallRecord, conns: seq<Conn>, attempts: nat, k: Conn)
    requires CallOk(id, r, conns, attempts)
    ensures CallOk(id, r, conns + [k], attempts)
  {
  }

  lemma EndKeeps(s: State, id: nat, e: Ending)
    requires Inv(s) && id in s.calls && s.calls[id].state.Attempting?
    requires e.Succeeded? ==> s.calls[id].state.dialled == Some(e.conn)
    ensures Inv(EndAttempt(s, id, e))
  {
    hide ConnOk, CallOk, Failures, Wait;
    var s' := EndAttempt(s, id, e);
    EndedOk(id, s.calls[id], s.conns, s.attempts, e);
    forall other | other in s.calls && other != id
      ensures CallOk(other, s'.calls[other], s'.conns, s'.attempts)
    {
      CallLater(other, s.calls[other], s.conns, s.attempts);
    }
    DelayAfter(s.ended, e);
  }

  lemma CallLater(id: nat, r: CallRecord, conns: seq<Conn>, attempts: nat)
    requires CallOk(id, r, conns, attempts)
    ensures CallOk(id, r, conns, attempts + 1)
  {
  }

  lemma EndedOk(id: nat, r: CallRecord, conns: seq<Conn>, attempts: nat, e: Ending)
    requires r.state.Attempting? && CallOk(id, r, conns, attempts)
    requires e.Succeeded? ==> r.state.dialled == Some(e.conn)
    ensures match e
            case Succeeded(c) => c < |conns| && CallOk(id, r.(state := Sending(c, r.state.failed.Some?)), conns, attempts + 1)
            case SetBack => CallOk(id, r.(state := Done(Setback)), conns, attempts + 1)
            case Fatally(f) => CallOk(id, r.(state := Done(Dead(f))), conns, attempts + 1)
  {
  }

  /** Each failed attempt in a row doubles the wait before the next, up to the limit. */
  lemma DelayAfter(ended: seq<Ending>, e: Ending)
    ensures Wait(Failures(ended + [e])) ==
            match e
            case Succeeded(_) => BACKOFF_MIN
            case SetBack => Doubled(Wait(Failures(ended)))
            case Fatally(_) => Wait(Failures(ended))
  {
    assert (ended + [e])[..|ended|] == ended;
  }
}
