/** Any number of threads in `pipe_read` and `pipe_write` at once (fs/pipe/pipe.c): each
    round of either loop is one critical section on the ring buffer, and between rounds
    anything may happen, including ends being opened and closed. */
module PipeRuns {
  import opened MachineInts
  import opened Pipe

  const EAGAIN: int := 11
  const EPIPE: int := 32

  /** `from` is the length of the log when the call began; `good` says that every pointer
      has been valid since. */
  datatype Call =
    | Idle
    | Reading(size: nat, got: seq<Byte>, from: nat, good: bool)
    | Writing(data: seq<Byte>, written: nat, from: nat, good: bool)

  /** `sent` and `received` are what the calls a thread has finished wrote and read. */
  datatype Thread = Thread(call: Call, sent: seq<Byte>, received: seq<Byte>)

  /** A chunk moved by a thread. */
  datatype Chunk = Chunk(tid: nat, bytes: seq<Byte>)

  /** A call that has ended: what it asked for and moved, the stretch of the log it
      spans, its result, and the pipe at that moment. */
  datatype Ended = Ended(tid: nat, reading: bool, requested: nat, bytes: seq<Byte>, from: nat, to: nat, result: int,
                         good: bool, len: nat, readOpen: nat, writeOpen: nat)

  datatype State = State(buf: seq<Byte>, readPos: nat, writePos: nat, len: nat, readOpen: nat, writeOpen: nat,
                         nonblock: bool, threads: seq<Thread>, accepted: seq<Chunk>, delivered: seq<Chunk>, ended: seq<Ended>)

  datatype Step =
    | BeginRead(tid: nat, size: nat)
    | BeginWrite(tid: nat, data: seq<Byte>)
    | Round(tid: nat, pointerOk: bool)   // one pass of the loop the thread is in
    | Ends(readOpen: nat, writeOpen: nat)  // other tasks open and close ends

  /** The conversion of a byte count to the signed result. */
  function Signed(n: nat): int {
    if n < 0x8000_0000 then n else n % TWO_32 - (if n % TWO_32 >= 0x8000_0000 then TWO_32 else 0)
  }

  function Capped(n: nat): int {
    if n > 0x7FFF_FFFF then 0x7FFF_FFFF else n
  }

  predicate Enabled(s: State, step: Step) {
    match step
    case BeginRead(t, _) => t < |s.threads| && s.threads[t].call == Idle
    case BeginWrite(t, _) => t < |s.threads| && s.threads[t].call == Idle
    case Round(t, _) => t < |s.threads| && s.threads[t].call != Idle
    case Ends(_, _) => true
  }

  /** The law of the ring: the write position is `len` bytes after the read position. */
  predicate RingOk(s: State) {
    |s.buf| == SIZE && s.readPos < SIZE && s.len <= SIZE && s.writePos == (s.readPos + s.len) % SIZE
  }

  function Contents(s: State): seq<Byte>
    requires RingOk(s)
  {
    Ring(s.buf, s.readPos, s.len)
  }

  predicate InRange(c: Call) {
    (c.Reading? ==> 0 < c.size && |c.got| <= c.size) && (c.Writing? ==> c.data != [] && c.written <= |c.data|)
  }

  // ---- One critical section ------------------------------------------------------------------------

  function SetCall(s: State, t: nat, c: Call): State
    requires t < |s.threads|
  {
    s.(threads := s.threads[t := s.threads[t].(call := c)])
  }

  function SentBy(c: Call): seq<Byte> {
    if c.Writing? && c.written <= |c.data| then c.data[..c.written] else []
  }

  function ReceivedBy(c: Call): seq<Byte> {
    if c.Reading? then c.got else []
  }

  /** A call ends with `result`. */
  function Logged(s: State, t: nat, c: Call, result: int): Ended
    requires !c.Idle?
  {
    if c.Reading? then Ended(t, true, c.size, c.got, c.from, |s.delivered|, result, c.good, s.len, s.readOpen, s.writeOpen)
    else Ended(t, false, |c.data|, SentBy(c), c.from, |s.accepted|, result, c.good, s.len, s.readOpen, s.writeOpen)
  }

  /** The call `c` of `t` ends; what it moved joins its history. */
  function Finish(s: State, t: nat, c: Call, result: int): State
    requires t < |s.threads| && !c.Idle?
  {
    var th := s.threads[t];
    s.(threads := s.threads[t := Thread(Idle, th.sent + SentBy(c), th.received + ReceivedBy(c))],
       ended := s.ended + [Logged(s, t, c, result)])
  }

  /** `chunk` bytes leave the ring. */
  function Deliver(s: State, t: nat, c: Call, chunk: nat): State
    requires t < |s.threads| && c.Reading? && RingOk(s) && chunk <= s.len
  {
    var moved := Taken(s.buf, s.readPos, chunk);
    SetCall(s, t, Reading(c.size, c.got + moved, c.from, c.good)).(
      readPos := (s.readPos + chunk) % SIZE, len := s.len - chunk, delivered := s.delivered + [Chunk(t, moved)])
  }

  /** `chunk` bytes join the ring. */
  function Accept(s: State, t: nat, c: Call, chunk: nat): State
    requires t < |s.threads| && c.Writing? && RingOk(s) && s.len + chunk <= SIZE && c.written + chunk <= |c.data|
  {
    var moved := c.data[c.written..c.written + chunk];
    SetCall(s, t, Writing(c.data, c.written + chunk, c.from, c.good)).(
      buf := Put(s.buf, s.writePos, moved), writePos := (s.writePos + chunk) % SIZE, len := s.len + chunk,
      accepted := s.accepted + [Chunk(t, moved)])
  }

  /** What one round comes to. */
  datatype Action = Wait | End(result: int) | Take(n: nat) | Add(n: nat)

  function ReadAction(s: State, c: Call, pointerOk: bool): Action
    requires c.Reading? && InRange(c)
  {
    var n := |c.got|;
    if n == c.size then End(Capped(n))
    else if s.len == 0 then
      if s.writeOpen == 0 then End(Signed(n))
      else if s.nonblock then End(if n > 0 then Signed(n) else -EAGAIN)
      else if !pointerOk then End(if n > 0 then Signed(n) else -1)
      else Wait
    else Take(Min(c.size - n, s.len))
  }

  function WriteAction(s: State, c: Call, pointerOk: bool): Action
    requires c.Writing? && InRange(c) && s.len <= SIZE
  {
    var n := c.written;
    if n == |c.data| then End(Capped(n))
    else if s.readOpen == 0 then End(if n > 0 then Signed(n) else -EPIPE)
    else if s.len == SIZE then
      if s.nonblock then End(if n > 0 then Signed(n) else -EAGAIN)
      else if !pointerOk then End(if n > 0 then Signed(n) else -1)
      else Wait
    else Add(Min(|c.data| - n, SIZE - s.len))
  }

  function ActionOf(s: State, c: Call, pointerOk: bool): (a: Action)
    requires !c.Idle? && InRange(c) && RingOk(s)
    ensures a.Take? ==> c.Reading? && a.n <= s.len && |c.got| + a.n <= c.size
    ensures a.Add? ==> c.Writing? && s.len + a.n <= SIZE && c.written + a.n <= |c.data|
  {
    if c.Reading? then ReadAction(s, c, pointerOk) else WriteAction(s, c, pointerOk)
  }

  function Perform(s: State, t: nat, c: Call, a: Action): State
    requires t < |s.threads| && !c.Idle? && RingOk(s)
    requires a.Take? ==> c.Reading? && a.n <= s.len
    requires a.Add? ==> c.Writing? && s.len + a.n <= SIZE && c.written + a.n <= |c.data|
  {
    match a
    case Wait => SetCall(s, t, c)
    case End(result) => Finish(s, t, c, result)
    case Take(n) => Deliver(s, t, c, n)
    case Add(n) => Accept(s, t, c, n)
  }

  function Marked(c: Call, pointerOk: bool): Call
    requires !c.Idle?
  {
    match c
    case Reading(size, got, from, good) => Reading(size, got, from, good && pointerOk)
    case Writing(data, written, from, good) => Writing(data, written, from, good && pointerOk)
  }

  /** An empty request, and a write with no reader, end at once.  A state outside the law
      of the ring takes no round; no run gets to one. */
  function Apply(s: State, step: Step): State
    requires Enabled(s, step)
  {
    match step
    case BeginRead(t, size) =>
      var c := Reading(size, [], |s.delivered|, true);
      if size == 0 then Finish(s, t, c, -1) else SetCall(s, t, c)
    case BeginWrite(t, data) =>
      var c := Writing(data, 0, |s.accepted|, true);
      if data == [] then Finish(s, t, c, -1)
      else if s.readOpen == 0 then Finish(s, t, c, -EPIPE)
      else SetCall(s, t, c)
    case Round(t, ok) =>
      var c := Marked(s.threads[t].call, ok);
      if RingOk(s) && InRange(c) then Perform(s, t, c, ActionOf(s, c, ok)) else s
    case Ends(r, w) => s.(readOpen := r, writeOpen := w)
  }

  // ---- Logs -----------------------------------------------------------------------------------------

  function Bytes(log: seq<Chunk>): seq<Byte> {
    if log == [] then [] else Bytes(log[..|log| - 1]) + log[|log| - 1].bytes
  }

  /** What one thread moved, from entry `from` of a log on. */
  function Of(log: seq<Chunk>, from: nat, t: nat): seq<Byte> {
    if |log| <= from then []
    else Of(log[..|log| - 1], from, t) + if log[|log| - 1].tid == t then log[|log| - 1].bytes else []
  }

  lemma BytesGrow(log: seq<Chunk>, c: Chunk)
    ensures Bytes(log + [c]) == Bytes(log) + c.bytes
  {
    assert (log + [c])[..|log|] == log;
  }

  lemma LogGrows(log: seq<Chunk>, c: Chunk, from: nat, t: nat)
    requires from <= |log|
    ensures Of(log + [c], from, t) == Of(log, from, t) + if c.tid == t then c.bytes else []
  {
    assert (log + [c])[..|log|] == log;
  }

  // ---- The ring and the logs ------------------------------------------------------------------------

  /** The ring obeys its law, and nothing is lost, invented, duplicated or reordered. */
  ghost predicate Flows(s: State) {
    RingOk(s) && Bytes(s.delivered) + Contents(s) == Bytes(s.accepted)
  }

  lemma RingShrinks(s: State, s': State, moved: seq<Byte>)
    requires RingOk(s) && |moved| <= s.len && moved == Taken(s.buf, s.readPos, |moved|)
    requires s'.buf == s.buf && s'.writePos == s.writePos
    requires s'.readPos == (s.readPos + |moved|) % SIZE && s'.len == s.len - |moved|
    ensures RingOk(s') && moved + Contents(s') == Contents(s)
  {
    RingFront(s.buf, s.readPos, s.len, |moved|);
    RingRest(s.buf, s.readPos, s.len, |moved|);
  }

  lemma RingGrows(s: State, s': State, moved: seq<Byte>)
    requires RingOk(s) && s.len + |moved| <= SIZE && s'.buf == Put(s.buf, s.writePos, moved)
    requires s'.readPos == s.readPos && s'.len == s.len + |moved| && s'.writePos == (s.writePos + |moved|) % SIZE
    ensures RingOk(s') && Contents(s') == Contents(s) + moved
  {
    WriteBehind(s.buf, s.readPos, s.len, s.writePos, moved, s'.buf);
  }

  lemma FlowsOut(delivered: seq<Chunk>, accepted: seq<Chunk>, c: Chunk, was: seq<Byte>, now: seq<Byte>)
    requires Bytes(delivered) + was == Bytes(accepted) && c.bytes + now == was
    ensures Bytes(delivered + [c]) + now == Bytes(accepted)
  {
    BytesGrow(delivered, c);
  }

  lemma FlowsIn(delivered: seq<Chunk>, accepted: seq<Chunk>, c: Chunk, was: seq<Byte>, now: seq<Byte>)
    requires Bytes(delivered) + was == Bytes(accepted) && now == was + c.bytes
    ensures Bytes(delivered) + now == Bytes(accepted + [c])
  {
    BytesGrow(accepted, c);
  }

  lemma DeliverFlows(s: State, t: nat, c: Call, n: nat)
    requires Flows(s) && t < |s.threads| && c.Reading? && n <= s.len
    ensures Flows(Deliver(s, t, c, n))
  {
    var moved, s' := Taken(s.buf, s.readPos, n), Deliver(s, t, c, n);
    RingShrinks(s, s', moved);
    FlowsOut(s.delivered, s.accepted, Chunk(t, moved), Contents(s), Contents(s'));
  }

  lemma AcceptFlows(s: State, t: nat, c: Call, n: nat)
    requires Flows(s) && t < |s.threads| && c.Writing? && s.len + n <= SIZE && c.written + n <= |c.data|
    ensures Flows(Accept(s, t, c, n))
  {
    var moved, s' := c.data[c.written..c.written + n], Accept(s, t, c, n);
    RingGrows(s, s', moved);
    FlowsIn(s.delivered, s.accepted, Chunk(t, moved), Contents(s), Contents(s'));
  }

  lemma PerformFlows(s: State, t: nat, c: Call, a: Action)
    requires Flows(s) && t < |s.threads| && !c.Idle?
    requires a.Take? ==> c.Reading? && a.n <= s.len
    requires a.Add? ==> c.Writing? && s.len + a.n <= SIZE && c.written + a.n <= |c.data|
    ensures Flows(Perform(s, t, c, a))
  {
    if a.Take? {
      DeliverFlows(s, t, c, a.n);
    } else if a.Add? {
      AcceptFlows(s, t, c, a.n);
    }
  }

  /** Steps that leave the ring and the logs alone. */
  lemma QuietFlows(s: State, s': State)
    requires Flows(s) && s'.buf == s.buf && s'.readPos == s.readPos && s'.writePos == s.writePos && s'.len == s.len
    requires s'.accepted == s.accepted && s'.delivered == s.delivered
    ensures Flows(s')
  {
  }

  lemma ApplyFlows(s: State, step: Step)
    requires Flows(s) && Enabled(s, step)
    ensures Flows(Apply(s, step))
  {
    match step
    case Round(t, ok) =>
      var c := Marked(s.threads[t].call, ok);
      if InRange(c) {
        PerformFlows(s, t, c, ActionOf(s, c, ok));
      }
    case _ =>
      QuietFlows(s, Apply(s, step));
  }

  // ---- Every thread has its own chunks -----------------------------------------------------------------

  /** What a call in progress has moved is what the logs say since it began, and what a
      thread has moved in all is its part of the logs. */
  ghost predicate ThreadOk(th: Thread, t: nat, accepted: seq<Chunk>, delivered: seq<Chunk>) {
    && InRange(th.call)
    && (th.call.Reading? ==> th.call.from <= |delivered| && th.call.got == Of(delivered, th.call.from, t))
    && (th.call.Writing? ==> th.call.from <= |accepted| && SentBy(th.call) == Of(accepted, th.call.from, t))
    && Of(accepted, 0, t) == th.sent + SentBy(th.call)
    && Of(delivered, 0, t) == th.received + ReceivedBy(th.call)
  }

  ghost predicate Threads(s: State) {
    forall t | 0 <= t < |s.threads| :: ThreadOk(s.threads[t], t, s.accepted, s.delivered)
  }

  lemma OthersDelivery(th: Thread, u: nat, accepted: seq<Chunk>, delivered: seq<Chunk>, c: Chunk)
    requires ThreadOk(th, u, accepted, delivered) && c.tid != u
    ensures ThreadOk(th, u, accepted, delivered + [c])
  {
    LogGrows(delivered, c, 0, u);
    if th.call.Reading? {
      LogGrows(delivered, c, th.call.from, u);
    }
  }

  lemma OwnDelivery(th: Thread, u: nat, accepted: seq<Chunk>, delivered: seq<Chunk>, c: Chunk, good: bool)
    requires ThreadOk(th, u, accepted, delivered) && c.tid == u && th.call.Reading? && |th.call.got| + |c.bytes| <= th.call.size
    ensures var k := th.call;
            ThreadOk(th.(call := Reading(k.size, k.got + c.bytes, k.from, good)), u, accepted, delivered + [c])
  {
    var k := th.call;
    LogGrows(delivered, c, 0, u);
    LogGrows(delivered, c, k.from, u);
    assert th.received + (k.got + c.bytes) == (th.received + k.got) + c.bytes;
  }

  lemma OthersAcceptance(th: Thread, u: nat, accepted: seq<Chunk>, delivered: seq<Chunk>, c: Chunk)
    requires ThreadOk(th, u, accepted, delivered) && c.tid != u
    ensures ThreadOk(th, u, accepted + [c], delivered)
  {
    LogGrows(accepted, c, 0, u);
    if th.call.Writing? {
      LogGrows(accepted, c, th.call.from, u);
    }
  }

  lemma OwnAcceptance(th: Thread, u: nat, accepted: seq<Chunk>, delivered: seq<Chunk>, c: Chunk, good: bool)
    requires ThreadOk(th, u, accepted, delivered) && c.tid == u && th.call.Writing?
    requires var n := th.call.written + |c.bytes|;
             n <= |th.call.data| && c.bytes == th.call.data[th.call.written..n]
    ensures var k := th.call;
            ThreadOk(th.(call := Writing(k.data, k.written + |c.bytes|, k.from, good)), u, accepted + [c], delivered)
  {
    var k := th.call;
    assert k.data[..k.written + |c.bytes|] == k.data[..k.written] + c.bytes;
    LogGrows(accepted, c, 0, u);
    LogGrows(accepted, c, k.from, u);
    assert th.sent + (k.data[..k.written] + c.bytes) == (th.sent + k.data[..k.written]) + c.bytes;
  }

  lemma DeliverThreads(s: State, s': State, t: nat, c: Chunk, good: bool)
    requires Threads(s) && t < |s.threads| && s.threads[t].call.Reading? && c.tid == t
    requires s'.accepted == s.accepted && s'.delivered == s.delivered + [c]
    requires var k := s.threads[t].call;
             && |k.got| + |c.bytes| <= k.size
             && s'.threads == s.threads[t := s.threads[t].(call := Reading(k.size, k.got + c.bytes, k.from, good))]
    ensures Threads(s')
  {
    forall u | 0 <= u < |s'.threads| ensures ThreadOk(s'.threads[u], u, s'.accepted, s'.delivered) {
      if u == t {
        OwnDelivery(s.threads[t], t, s.accepted, s.delivered, c, good);
      } else {
        OthersDelivery(s.threads[u], u, s.accepted, s.delivered, c);
      }
    }
  }

  lemma AcceptThreads(s: State, s': State, t: nat, c: Chunk, good: bool)
    requires Threads(s) && t < |s.threads| && s.threads[t].call.Writing? && c.tid == t
    requires s'.delivered == s.delivered && s'.accepted == s.accepted + [c]
    requires var k := s.threads[t].call;
             var n := k.written + |c.bytes|;
             && n <= |k.data| && c.bytes == k.data[k.written..n]
             && s'.threads == s.threads[t := s.threads[t].(call := Writing(k.data, n, k.from, good))]
    ensures Threads(s')
  {
    forall u | 0 <= u < |s'.threads| ensures ThreadOk(s'.threads[u], u, s'.accepted, s'.delivered) {
      if u == t {
        OwnAcceptance(s.threads[t], t, s.accepted, s.delivered, c, good);
      } else {
        OthersAcceptance(s.threads[u], u, s.accepted, s.delivered, c);
      }
    }
  }

  /** Steps that move nothing: one thread's call is set, marked or ended. */
  lemma QuietThreads(s: State, s': State, t: nat)
    requires Threads(s) && s'.accepted == s.accepted && s'.delivered == s.delivered
    requires t < |s.threads| && |s'.threads| == |s.threads| && ThreadOk(s'.threads[t], t, s.accepted, s.delivered)
    requires forall u | 0 <= u < |s.threads| && u != t :: s'.threads[u] == s.threads[u]
    ensures Threads(s')
  {
  }

  lemma BeginReadThread(th: Thread, t: nat, accepted: seq<Chunk>, delivered: seq<Chunk>, size: nat)
    requires ThreadOk(th, t, accepted, delivered) && th.call == Idle && size > 0
    ensures ThreadOk(th.(call := Reading(size, [], |delivered|, true)), t, accepted, delivered)
  {
  }

  lemma BeginWriteThread(th: Thread, t: nat, accepted: seq<Chunk>, delivered: seq<Chunk>, data: seq<Byte>)
    requires ThreadOk(th, t, accepted, delivered) && th.call == Idle && data != []
    ensures ThreadOk(th.(call := Writing(data, 0, |accepted|, true)), t, accepted, delivered)
  {
  }

  lemma MarkedThread(th: Thread, t: nat, accepted: seq<Chunk>, delivered: seq<Chunk>, ok: bool)
    requires ThreadOk(th, t, accepted, delivered) && !th.call.Idle?
    ensures ThreadOk(th.(call := Marked(th.call, ok)), t, accepted, delivered)
    ensures SentBy(Marked(th.call, ok)) == SentBy(th.call) && ReceivedBy(Marked(th.call, ok)) == ReceivedBy(th.call)
  {
  }

  lemma PerformThreads(s: State, t: nat, ok: bool, a: Action)
    requires Threads(s) && RingOk(s) && Enabled(s, Round(t, ok))
    requires var c := s.threads[t].call;
             && (a.Take? ==> c.Reading? && a.n <= s.len && |c.got| + a.n <= c.size)
             && (a.Add? ==> c.Writing? && s.len + a.n <= SIZE && c.written + a.n <= |c.data|)
    ensures Threads(Perform(s, t, Marked(s.threads[t].call, ok), a))
  {
    var k := s.threads[t].call;
    var c := Marked(k, ok);
    var s' := Perform(s, t, c, a);
    MarkedThread(s.threads[t], t, s.accepted, s.delivered, ok);
    match a
    case Take(n) => DeliverThreads(s, s', t, Chunk(t, Taken(s.buf, s.readPos, n)), c.good);
    case Add(n) => AcceptThreads(s, s', t, Chunk(t, k.data[k.written..k.written + n]), c.good);
    case _ => QuietThreads(s, s', t);
  }

  lemma ApplyThreads(s: State, step: Step)
    requires Threads(s) && RingOk(s) && Enabled(s, step)
    ensures Threads(Apply(s, step))
  {
    match step
    case BeginRead(t, size) =>
      if size > 0 {
        BeginReadThread(s.threads[t], t, s.accepted, s.delivered, size);
      }
      QuietThreads(s, Apply(s, step), t);
    case BeginWrite(t, data) =>
      if data != [] {
        BeginWriteThread(s.threads[t], t, s.accepted, s.delivered, data);
      }
      QuietThreads(s, Apply(s, step), t);
    case Round(t, ok) =>
      PerformThreads(s, t, ok, ActionOf(s, Marked(s.threads[t].call, ok), ok));
    case Ends(_, _) =>
  }

  // ---- Every ended call reported what it moved ---------------------------------------------------------

  /** The result a call must give for the bytes it moved. */
  function ResultOf(e: Ended, nonblock: bool): int {
    var n := |e.bytes|;
    if n > 0 then if n == e.requested then Capped(n) else Signed(n)
    else if e.requested == 0 then -1
    else if e.reading && e.len == 0 && e.writeOpen == 0 then 0
    else if !e.reading && e.readOpen == 0 then -EPIPE
    else if nonblock then -EAGAIN
    else -1
  }

  /** Why a call with valid pointers may move less than it was asked to: a read found the
      pipe empty, with no writer unless it may not wait; a write found no reader, or a
      full pipe it may not wait for. */
  predicate MayBeShort(e: Ended, nonblock: bool) {
    if e.reading then e.len == 0 && (e.writeOpen == 0 || nonblock)
    else e.readOpen == 0 || (nonblock && e.len == SIZE)
  }

  ghost predicate EndedOk(e: Ended, log: seq<Chunk>, nonblock: bool) {
    && e.from <= e.to <= |log| && e.bytes == Of(log[..e.to], e.from, e.tid) && |e.bytes| <= e.requested
    && e.result == ResultOf(e, nonblock)
    && (e.good && |e.bytes| < e.requested ==> MayBeShort(e, nonblock))
  }

  ghost predicate AllEnded(ended: seq<Ended>, accepted: seq<Chunk>, delivered: seq<Chunk>, nonblock: bool) {
    forall i | 0 <= i < |ended| :: EndedOk(ended[i], if ended[i].reading then delivered else accepted, nonblock)
  }

  lemma LogsGrow(ended: seq<Ended>, accepted: seq<Chunk>, delivered: seq<Chunk>, nonblock: bool, more: seq<Chunk>, got: seq<Chunk>)
    requires AllEnded(ended, accepted, delivered, nonblock)
    ensures AllEnded(ended, accepted + more, delivered + got, nonblock)
  {
    forall i | 0 <= i < |ended|
      ensures EndedOk(ended[i], if ended[i].reading then delivered + got else accepted + more, nonblock)
    {
      var e := ended[i];
      assert EndedOk(e, if e.reading then delivered else accepted, nonblock);
      if e.reading {
        assert (delivered + got)[..e.to] == delivered[..e.to];
      } else {
        assert (accepted + more)[..e.to] == accepted[..e.to];
      }
    }
  }

  lemma OneMore(ended: seq<Ended>, e: Ended, accepted: seq<Chunk>, delivered: seq<Chunk>, nonblock: bool)
    requires AllEnded(ended, accepted, delivered, nonblock)
    requires EndedOk(e, if e.reading then delivered else accepted, nonblock)
    ensures AllEnded(ended + [e], accepted, delivered, nonblock)
  {
  }

  ghost predicate EndedCalls(s: State) {
    AllEnded(s.ended, s.accepted, s.delivered, s.nonblock)
  }

  /** A round that ends a call gives the result for what was moved, and had nothing left
      to move or was not let go on. */
  lemma EndingRound(s: State, t: nat, c: Call, ok: bool)
    requires !c.Idle? && InRange(c) && RingOk(s) && ActionOf(s, c, ok).End? && (c.good ==> ok)
    ensures var e := Logged(s, t, c, ActionOf(s, c, ok).result);
            && e.result == ResultOf(e, s.nonblock) && |e.bytes| <= e.requested
            && (e.good && |e.bytes| < e.requested ==> MayBeShort(e, s.nonblock))
  {
  }

  lemma LoggedBytes(s: State, t: nat, ok: bool, result: int)
    requires t < |s.threads| && ThreadOk(s.threads[t], t, s.accepted, s.delivered) && !s.threads[t].call.Idle?
    ensures var e := Logged(s, t, Marked(s.threads[t].call, ok), result);
            var log := if e.reading then s.delivered else s.accepted;
            e.from <= e.to <= |log| && e.bytes == Of(log[..e.to], e.from, t)
  {
    var c := s.threads[t].call;
    if c.Reading? {
      assert s.delivered[..|s.delivered|] == s.delivered;
    } else {
      assert s.accepted[..|s.accepted|] == s.accepted;
    }
  }

  lemma PerformEnds(s: State, t: nat, c: Call, a: Action)
    requires EndedCalls(s) && RingOk(s) && t < |s.threads| && !c.Idle?
    requires a.Take? ==> c.Reading? && a.n <= s.len
    requires a.Add? ==> c.Writing? && s.len + a.n <= SIZE && c.written + a.n <= |c.data|
    requires a.End? ==> EndedOk(Logged(s, t, c, a.result), if c.Reading? then s.delivered else s.accepted, s.nonblock)
    ensures EndedCalls(Perform(s, t, c, a))
  {
    match a
    case End(result) =>
      OneMore(s.ended, Logged(s, t, c, result), s.accepted, s.delivered, s.nonblock);
    case Take(n) =>
      LogsGrow(s.ended, s.accepted, s.delivered, s.nonblock, [], [Chunk(t, Taken(s.buf, s.readPos, n))]);
      assert s.accepted + [] == s.accepted;
    case Add(n) =>
      LogsGrow(s.ended, s.accepted, s.delivered, s.nonblock, [Chunk(t, c.data[c.written..c.written + n])], []);
      assert s.delivered + [] == s.delivered;
    case Wait =>
  }

  lemma RoundEnds(s: State, t: nat, ok: bool)
    requires EndedCalls(s) && Threads(s) && RingOk(s) && Enabled(s, Round(t, ok))
    ensures EndedCalls(Apply(s, Round(t, ok)))
  {
    assert ThreadOk(s.threads[t], t, s.accepted, s.delivered);
    var c := Marked(s.threads[t].call, ok);
    var a := ActionOf(s, c, ok);
    if a.End? {
      EndingRound(s, t, c, ok);
      LoggedBytes(s, t, ok, a.result);
    }
    PerformEnds(s, t, c, a);
  }

  lemma ApplyEnds(s: State, step: Step)
    requires EndedCalls(s) && Threads(s) && RingOk(s) && Enabled(s, step)
    ensures EndedCalls(Apply(s, step))
  {
    match step
    case BeginRead(t, size) =>
      if size == 0 {
        assert s.delivered[..|s.delivered|] == s.delivered;
        OneMore(s.ended, Logged(s, t, Reading(size, [], |s.delivered|, true), -1), s.accepted, s.delivered, s.nonblock);
      }
    case BeginWrite(t, data) =>
      var result := if data == [] then -1 else -EPIPE;
      if data == [] || s.readOpen == 0 {
        assert s.accepted[..|s.accepted|] == s.accepted;
        OneMore(s.ended, Logged(s, t, Writing(data, 0, |s.accepted|, true), result), s.accepted, s.delivered, s.nonblock);
      }
    case Round(t, ok) =>
      RoundEnds(s, t, ok);
    case Ends(_, _) =>
  }

  // ---- Runs ---------------------------------------------------------------------------------------------

  ghost predicate Initial(s: State) {
    && |s.buf| == SIZE && s.readPos == 0 && s.writePos == 0 && s.len == 0
    && s.accepted == [] && s.delivered == [] && s.ended == []
    && forall t | 0 <= t < |s.threads| :: s.threads[t] == Thread(Idle, [], [])
  }

  ghost predicate IsRun(s: State, steps: seq<Step>)
    decreases |steps|
  {
    steps == [] || (Enabled(s, steps[0]) && IsRun(Apply(s, steps[0]), steps[1..]))
  }

  ghost function EndOf(s: State, steps: seq<Step>): State
    requires IsRun(s, steps)
    decreases |steps|
  {
    if steps == [] then s else EndOf(Apply(s, steps[0]), steps[1..])
  }

  /** The ring obeys its law; nothing is lost, invented, duplicated or reordered; each
      thread has had exactly its own chunks accepted and delivered; and every call that
      has ended reported what it moved. */
  ghost predicate Conserves(s: State) {
    Flows(s) && Threads(s) && EndedCalls(s)
  }

  lemma ApplyConserves(s: State, step: Step)
    requires Conserves(s) && Enabled(s, step)
    ensures Conserves(Apply(s, step))
  {
    ApplyFlows(s, step);
    ApplyThreads(s, step);
    ApplyEnds(s, step);
  }

  lemma {:induction false} RunConserves(s: State, steps: seq<Step>)
    requires Conserves(s) && IsRun(s, steps)
    ensures Conserves(EndOf(s, steps))
    decreases |steps|
  {
    if steps != [] {
      ApplyConserves(s, steps[0]);
      RunConserves(Apply(s, steps[0]), steps[1..]);
    }
  }

  /** In every interleaving the write position is `len` bytes after the read position and
      at most the buffer's size is buffered; the bytes delivered followed by the bytes
      buffered are the bytes accepted; and every ended call is accounted for. */
  lemma EveryRunConserves(s: State, steps: seq<Step>)
    requires Initial(s) && IsRun(s, steps)
    ensures Conserves(EndOf(s, steps))
  {
    RunConserves(s, steps);
  }

  /** Over every run, a call that has ended gave the number of bytes moved since it began
      as its result; and if it was to wait and its pointers were good, a read is short only
      on an empty pipe without writers, and a write only without readers. */
  lemma EveryEndedCall(s: State, steps: seq<Step>, i: nat)
    requires Initial(s) && IsRun(s, steps) && i < |EndOf(s, steps).ended|
    ensures var end := EndOf(s, steps);
            var e := end.ended[i];
            var log := if e.reading then end.delivered else end.accepted;
            && e.from <= e.to <= |log| && e.bytes == Of(log[..e.to], e.from, e.tid)
            && (0 < |e.bytes| < 0x8000_0000 ==> e.result == |e.bytes|)
            && (e.bytes == [] ==> e.result <= 0)
            && (e.good && !end.nonblock && e.reading && |e.bytes| < e.requested ==> e.len == 0 && e.writeOpen == 0)
            && (e.good && !end.nonblock && !e.reading && |e.bytes| < e.requested ==> e.readOpen == 0)
  {
    EveryRunConserves(s, steps);
  }

  /** With one thread writing and another reading, the reader has received what the writer
      sent, up to what is still buffered. */
  lemma ReaderGetsWhatWriterSent(s: State, w: nat, r: nat)
    requires Conserves(s) && w < |s.threads| && r < |s.threads|
    requires (forall i | 0 <= i < |s.accepted| :: s.accepted[i].tid == w) && (forall i | 0 <= i < |s.delivered| :: s.delivered[i].tid == r)
    ensures s.threads[r].received + ReceivedBy(s.threads[r].call) + Contents(s) == s.threads[w].sent + SentBy(s.threads[w].call)
  {
    OneThreadsLog(s.accepted, w);
    OneThreadsLog(s.delivered, r);
    assert ThreadOk(s.threads[w], w, s.accepted, s.delivered) && ThreadOk(s.threads[r], r, s.accepted, s.delivered);
  }

  lemma {:induction false} OneThreadsLog(log: seq<Chunk>, t: nat)
    requires forall i | 0 <= i < |log| :: log[i].tid == t
    ensures Of(log, 0, t) == Bytes(log)
  {
    if log != [] {
      OneThreadsLog(log[..|log| - 1], t);
    }
  }
}
