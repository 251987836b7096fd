/** The sidecar's connections: request handlers run concurrently, share a semaphore for
    store calls, and take turns on each connection's writer.  A run is any interleaving of
    the handlers' steps; writes succeed. */
module Sidecar {
  import opened Common
  import opened Wire

  // ---- Writing one response ----

  class Writer {
    var out: Bytes

    constructor ()
      ensures out == []
    {
      out := [];
    }
  }

  /** writeStatus: sixteen header bytes, the length, then the payload if there is any. */
  method WriteStatus(w: Writer, reqId: nat, status: nat, payload: Bytes)
    modifies w
    ensures w.out == old(w.out) + Encode(Frame(reqId, status, payload))
  {
    hide PutLE;
    var resHdr := PutLE(MAGIC_RES, 4) + PutLE(reqId, 8) + PutLE(status, 4);
    w.out := w.out + resHdr;
    w.out := w.out + PutLE(|payload|, 4);
    if |payload| > 0 {
      w.out := w.out + payload;
    }
  }

  // ---- Handlers as steps ----

  /** `calls` store calls are still to be made: one, or one for each batch of a multi-get. */
  datatype Progress =
    | Queued(calls: nat)                     // wants to send on the semaphore channel
    | Holding(calls: nat)                    // has sent, the store call has not started
    | Calling(calls: nat)                    // store call in flight
    | Returned(calls: nat, fine: bool, reply: Frame)  // call returned or failed, slot not given back yet
    | Ready(frame: Frame)                    // wants the connection's writer
    | Writing(frame: Frame, written: nat)    // holds the writer; chunks written so far
    | Done(frame: Frame)

  datatype Handler = Handler(conn: nat, reqId: nat, at: Progress)

  /** `holder` is the handler inside the writer's critical section.  `log` is history: the
      handlers that have left it, in order. */
  datatype Conn = Conn(out: Bytes, holder: Option<nat>, log: seq<nat>)

  /** `tokens` is the number of elements in the buffered channel that limits store calls to `workers`. */
  datatype State = State(workers: nat, tokens: nat, conns: seq<Conn>, handlers: seq<Handler>)

  datatype Step =
    | Connect
    | SpawnStore(conn: nat, reqId: nat, calls: nat)             // get, put, delete, multi-get with keys
    | SpawnReply(conn: nat, reqId: nat, status: nat, payload: Bytes)  // health, unknown op, empty multi-get
    | Send(h: nat)                                              // puts an element into the channel
    | Call(h: nat)
    | Return(h: nat, fine: bool, status: nat, payload: Bytes)   // the reply, if this call was the last or failed
    | Receive(h: nat)                                           // takes an element out, deferred in a multi-get
    | Lock(h: nat)
    | WriteChunk(h: nat)
    | Unlock(h: nat)

  function Chunk(f: Frame, i: nat): Bytes {
    if i == 0 then Header(f) else if i == 1 then PutLE(|f.payload|, 4) else if i == 2 then f.payload else []
  }

  predicate IsCalling(h: Handler) { h.at.Calling? }

  /** Between its send and its receive. */
  predicate HoldsSlot(h: Handler) { h.at.Holding? || h.at.Calling? || h.at.Returned? }

  predicate IsDone(h: Handler) { h.at.Done? }

  ghost predicate HandlerAt(s: State, h: nat) {
    h < |s.handlers| && s.handlers[h].conn < |s.conns|
  }

  ghost predicate Enabled(s: State, step: Step) {
    match step
    case Connect => true
    case SpawnStore(conn, reqId, calls) => conn < |s.conns| && reqId < LONG && calls >= 1
    case SpawnReply(conn, reqId, status, _) => conn < |s.conns| && reqId < LONG && status < WORD
    case Send(h) => HandlerAt(s, h) && s.handlers[h].at.Queued? && s.tokens < s.workers
    case Call(h) => HandlerAt(s, h) && s.handlers[h].at.Holding?
    case Return(h, _, status, _) => HandlerAt(s, h) && s.handlers[h].at.Calling? && status < WORD
    case Receive(h) => HandlerAt(s, h) && s.handlers[h].at.Returned? && s.tokens > 0
    case Lock(h) => HandlerAt(s, h) && s.handlers[h].at.Ready? && s.conns[s.handlers[h].conn].holder == None
    case WriteChunk(h) => HandlerAt(s, h) && s.handlers[h].at.Writing? && s.handlers[h].at.written < 3
    case Unlock(h) => HandlerAt(s, h) && s.handlers[h].at.Writing? && s.handlers[h].at.written == 3
  }

  ghost function Move(s: State, h: nat, at: Progress): State
    requires h < |s.handlers|
  {
    s.(handlers := s.handlers[h := s.handlers[h].(at := at)])
  }

  ghost function WithConn(s: State, c: nat, conn: Conn): State
    requires c < |s.conns|
  {
    s.(conns := s.conns[c := conn])
  }

  ghost function Take(s: State, step: Step): State
    requires Enabled(s, step)
  {
    match step
    case Connect => s.(conns := s.conns + [Conn([], None, [])])
    case SpawnStore(conn, reqId, calls) => s.(handlers := s.handlers + [Handler(conn, reqId, Queued(calls))])
    case SpawnReply(conn, reqId, status, payload) =>
      s.(handlers := s.handlers + [Handler(conn, reqId, Ready(Frame(reqId, status, payload)))])
    case Send(h) => Move(s, h, Holding(s.handlers[h].at.calls)).(tokens := s.tokens + 1)
    case Call(h) => Move(s, h, Calling(s.handlers[h].at.calls))
    case Return(h, fine, status, payload) =>
      Move(s, h, Returned(s.handlers[h].at.calls, fine, Frame(s.handlers[h].reqId, status, payload)))
    case Receive(h) =>
      // A failing call ends the handler, whatever batches are left.
      var at := s.handlers[h].at;
      Move(s, h, if at.fine && at.calls > 1 then Queued(at.calls - 1) else Ready(at.reply)).(tokens := s.tokens - 1)
    case Lock(h) =>
      var c := s.handlers[h].conn;
      WithConn(Move(s, h, Writing(s.handlers[h].at.frame, 0)), c, s.conns[c].(holder := Some(h)))
    case WriteChunk(h) =>
      var c, at := s.handlers[h].conn, s.handlers[h].at;
      WithConn(Move(s, h, Writing(at.frame, at.written + 1)), c,
               s.conns[c].(out := s.conns[c].out + Chunk(at.frame, at.written)))
    case Unlock(h) =>
      var c := s.handlers[h].conn;
      WithConn(Move(s, h, Done(s.handlers[h].at.frame)), c,
               s.conns[c].(holder := None, log := s.conns[c].log + [h]))
  }

  ghost function After(workers: nat, steps: seq<Step>): State {
    if steps == [] then State(workers, 0, [], [])
    else
      var s := After(workers, steps[..|steps| - 1]);
      if Enabled(s, steps[|steps| - 1]) then Take(s, steps[|steps| - 1]) else s
  }

  // ---- The invariant ----

  /** The part of its frame a handler has written. */
  ghost function Partial(f: Frame, written: nat): Bytes {
    if written == 0 then [] else Partial(f, written - 1) + Chunk(f, written - 1)
  }

  lemma PartialIsWhole(f: Frame)
    ensures Partial(f, 3) == Encode(f)
  {
    hide PutLE, Header;
    assert Partial(f, 0) == [];
    assert Partial(f, 1) == Partial(f, 0) + Chunk(f, 0);
    assert Partial(f, 2) == Partial(f, 1) + Chunk(f, 1);
    assert Partial(f, 3) == Partial(f, 2) + Chunk(f, 2);
  }

  /** The frames of the handlers in a log. */
  ghost function Frames(handlers: seq<Handler>, log: seq<nat>): (frames: seq<Frame>)
    requires AllDone(handlers, log)
    ensures |frames| == |log|
    ensures forall i :: 0 <= i < |log| ==> frames[i] == handlers[log[i]].at.frame
  {
    seq(|log|, i requires 0 <= i < |log| => handlers[log[i]].at.frame)
  }

  ghost predicate AllDone(handlers: seq<Handler>, log: seq<nat>) {
    forall i :: 0 <= i < |log| ==> log[i] < |handlers| && handlers[log[i]].at.Done?
  }

  /** A connection's bytes are the whole frames of its log plus the holder's partial frame. */
  ghost predicate ConnOk(handlers: seq<Handler>, c: nat, conn: Conn) {
    && AllDone(handlers, conn.log) && Distinct(conn.log)
    && (forall i :: 0 <= i < |conn.log| ==> handlers[conn.log[i]].conn == c)
    && match conn.holder
       case None => conn.out == Concat(Frames(handlers, conn.log))
       case Some(h) =>
         && h < |handlers| && handlers[h].conn == c && handlers[h].at.Writing?
         && conn.out == Concat(Frames(handlers, conn.log)) + Partial(handlers[h].at.frame, handlers[h].at.written)
  }

  ghost predicate HandlerOk(conns: seq<Conn>, h: nat, handler: Handler) {
    && handler.conn < |conns| && handler.reqId < LONG
    && match handler.at
       case Queued(calls) => calls >= 1
       case Holding(calls) => calls >= 1
       case Calling(calls) => calls >= 1
       case Returned(calls, _, f) => calls >= 1 && Addressed(f) && f.reqId == handler.reqId
       case Ready(f) => Addressed(f) && f.reqId == handler.reqId
       case Writing(f, written) =>
         Addressed(f) && f.reqId == handler.reqId && written <= 3 && conns[handler.conn].holder == Some(h)
       case Done(f) => Addressed(f) && f.reqId == handler.reqId && h in conns[handler.conn].log
  }

  ghost predicate Inv(s: State) {
    && (forall c :: 0 <= c < |s.conns| ==> ConnOk(s.handlers, c, s.conns[c]))
    && (forall h :: 0 <= h < |s.handlers| ==> HandlerOk(s.conns, h, s.handlers[h]))
    && s.tokens == Count(s.handlers, HoldsSlot) && s.tokens <= s.workers
  }

  // ---- Every step keeps it ----

  /** A connection keeps its bytes when no handler of its log or in its writer changes. */
  lemma ConnKept(handlers: seq<Handler>, now: seq<Handler>, c: nat, conn: Conn)
    requires ConnOk(handlers, c, conn)
    requires |handlers| <= |now|
    requires forall h :: 0 <= h < |handlers| && (handlers[h].at.Done? || handlers[h].at.Writing?) && handlers[h].conn == c ==>
               now[h] == handlers[h]
    ensures ConnOk(now, c, conn)
  {
    hide Concat, Partial;
    assert Frames(now, conn.log) == Frames(handlers, conn.log);
  }

  lemma KeepSpawn(s: State, step: Step)
    requires Inv(s) && Enabled(s, step) && (step.Connect? || step.SpawnStore? || step.SpawnReply?)
    ensures Inv(Take(s, step))
  {
    hide ConnOk, Count;
    var n := Take(s, step);
    if step.Connect? {
      EmptyConn(s.handlers, |s.conns|);
      forall h | 0 <= h < |n.handlers| ensures HandlerOk(n.conns, h, n.handlers[h]) {
        assert HandlerOk(s.conns, h, s.handlers[h]);
      }
    } else {
      CountAppend(s.handlers, n.handlers[|s.handlers|], HoldsSlot);
      hide HandlerOk;
      SpawnedOk(s, step);
      forall c | 0 <= c < |s.conns| ensures ConnOk(n.handlers, c, s.conns[c]) {
        ConnKept(s.handlers, n.handlers, c, s.conns[c]);
      }
    }
  }

  lemma SpawnedOk(s: State, step: Step)
    requires Enabled(s, step) && (step.SpawnStore? || step.SpawnReply?)
    ensures HandlerOk(s.conns, |s.handlers|, Take(s, step).handlers[|s.handlers|])
  {
  }

  lemma EmptyConn(handlers: seq<Handler>, c: nat)
    ensures ConnOk(handlers, c, Conn([], None, []))
  {
  }

  /** Steps before the writer: semaphore and store calls. */
  lemma KeepCall(s: State, step: Step)
    requires Inv(s) && Enabled(s, step) && (step.Send? || step.Call? || step.Return? || step.Receive?)
    ensures Inv(Take(s, step))
  {
    hide ConnOk, Count;
    var n := Take(s, step);
    CountUpdate(s.handlers, step.h, n.handlers[step.h], HoldsSlot);
    forall c | 0 <= c < |s.conns| ensures ConnOk(n.handlers, c, s.conns[c]) {
      ConnKept(s.handlers, n.handlers, c, s.conns[c]);
    }
  }

  /** Steps inside the writer change one connection; the others are untouched. */
  lemma KeepOthers(s: State, h: nat, handler: Handler, c: nat)
    requires Inv(s) && h < |s.handlers| && s.handlers[h].conn == handler.conn != c && c < |s.conns|
    ensures ConnOk(s.handlers[h := handler], c, s.conns[c])
  {
    hide ConnOk;
    ConnKept(s.handlers, s.handlers[h := handler], c, s.conns[c]);
  }

  lemma KeepLock(s: State, step: Step)
    requires Inv(s) && Enabled(s, step) && step.Lock?
    ensures Inv(Take(s, step))
  {
    hide ConnOk;
    var n, h, c := Take(s, step), step.h, s.handlers[step.h].conn;
    CountUpdate(s.handlers, h, n.handlers[h], HoldsSlot);
    forall k | 0 <= k < |s.conns| ensures ConnOk(n.handlers, k, n.conns[k]) {
      if k != c {
        KeepOthers(s, h, n.handlers[h], k);
      } else {
        LockConn(s.handlers, n.handlers, c, s.conns[c], h);
      }
    }
  }

  lemma LockConn(handlers: seq<Handler>, now: seq<Handler>, c: nat, conn: Conn, h: nat)
    requires ConnOk(handlers, c, conn) && conn.holder == None && h < |handlers|
    requires handlers[h].conn == c && handlers[h].at.Ready?
    requires now == handlers[h := handlers[h].(at := Writing(handlers[h].at.frame, 0))]
    ensures ConnOk(now, c, conn.(holder := Some(h)))
  {
    hide Concat;
    assert Frames(now, conn.log) == Frames(handlers, conn.log);
  }

  lemma KeepWrite(s: State, step: Step)
    requires Inv(s) && Enabled(s, step) && step.WriteChunk?
    ensures Inv(Take(s, step))
  {
    hide ConnOk, Chunk;
    var n, h, c := Take(s, step), step.h, s.handlers[step.h].conn;
    CountUpdate(s.handlers, h, n.handlers[h], HoldsSlot);
    forall k | 0 <= k < |s.conns| ensures ConnOk(n.handlers, k, n.conns[k]) {
      if k != c {
        KeepOthers(s, h, n.handlers[h], k);
      } else {
        assert HandlerOk(s.conns, h, s.handlers[h]);
        WriteConn(s.handlers, n.handlers, c, s.conns[c], h);
      }
    }
  }

  lemma WriteConn(handlers: seq<Handler>, now: seq<Handler>, c: nat, conn: Conn, h: nat)
    requires ConnOk(handlers, c, conn) && conn.holder == Some(h) && h < |handlers|
    requires handlers[h].conn == c && handlers[h].at.Writing?
    requires var at := handlers[h].at; now == handlers[h := handlers[h].(at := Writing(at.frame, at.written + 1))]
    ensures ConnOk(now, c, conn.(out := conn.out + Chunk(handlers[h].at.frame, handlers[h].at.written)))
  {
    hide Concat, Chunk;
    assert Frames(now, conn.log) == Frames(handlers, conn.log);
    var at, whole := handlers[h].at, Concat(Frames(handlers, conn.log));
    assert Partial(at.frame, at.written + 1) == Partial(at.frame, at.written) + Chunk(at.frame, at.written);
    assert (whole + Partial(at.frame, at.written)) + Chunk(at.frame, at.written)
        == whole + (Partial(at.frame, at.written) + Chunk(at.frame, at.written));
  }

  lemma KeepUnlock(s: State, step: Step)
    requires Inv(s) && Enabled(s, step) && step.Unlock?
    ensures Inv(Take(s, step))
  {
    hide ConnOk;
    var n, h, c := Take(s, step), step.h, s.handlers[step.h].conn;
    CountUpdate(s.handlers, h, n.handlers[h], HoldsSlot);
    forall k | 0 <= k < |s.conns| ensures ConnOk(n.handlers, k, n.conns[k]) {
      if k != c {
        KeepOthers(s, h, n.handlers[h], k);
      } else {
        assert HandlerOk(s.conns, h, s.handlers[h]);
        UnlockConn(s.handlers, n.handlers, c, s.conns[c], h);
      }
    }
  }

  lemma UnlockConn(handlers: seq<Handler>, now: seq<Handler>, c: nat, conn: Conn, h: nat)
    requires ConnOk(handlers, c, conn) && conn.holder == Some(h) && h < |handlers|
    requires handlers[h].conn == c && handlers[h].at.Writing? && handlers[h].at.written == 3
    requires now == handlers[h := handlers[h].(at := Done(handlers[h].at.frame))]
    ensures ConnOk(now, c, conn.(holder := None, log := conn.log + [h]))
  {
    hide Concat, Partial, Encode;
    var f := handlers[h].at.frame;
    var frames := Frames(handlers, conn.log);
    assert Frames(now, conn.log + [h]) == frames + [f];
    ConcatExtend(frames, f);
    PartialIsWhole(f);
  }

  lemma StepKeeps(s: State, step: Step)
    requires Inv(s) && Enabled(s, step)
    ensures Inv(Take(s, step))
  {
    hide Inv, Take, Enabled;
    match step
    case Connect => KeepSpawn(s, step);
    case SpawnStore(_, _, _) => KeepSpawn(s, step);
    case SpawnReply(_, _, _, _) => KeepSpawn(s, step);
    case Send(_) => KeepCall(s, step);
    case Call(_) => KeepCall(s, step);
    case Return(_, _, _, _) => KeepCall(s, step);
    case Receive(_) => KeepCall(s, step);
    case Lock(_) => KeepLock(s, step);
    case WriteChunk(_) => KeepWrite(s, step);
    case Unlock(_) => KeepUnlock(s, step);
  }

  // ---- Theorems over every run ----

  lemma {:induction false} RunKeeps(workers: nat, steps: seq<Step>)
    ensures Inv(After(workers, steps))
  {
    hide Inv, Take, Enabled;
    if steps == [] {
      InitialOk(workers);
    } else {
      var s := After(workers, steps[..|steps| - 1]);
      RunKeeps(workers, steps[..|steps| - 1]);
      if Enabled(s, steps[|steps| - 1]) {
        StepKeeps(s, steps[|steps| - 1]);
      }
    }
  }

  lemma InitialOk(workers: nat)
    ensures Inv(State(workers, 0, [], []))
  {
  }

  lemma {:induction false} WorkersFixed(workers: nat, steps: seq<Step>)
    ensures After(workers, steps).workers == workers
  {
    if steps != [] {
      WorkersFixed(workers, steps[..|steps| - 1]);
    }
  }

  /** The channel holds one element for each handler between its send and its receive, so store calls in flight never
      exceed the semaphore size, and every slot is back once the handlers are done, failed batches included. */
  lemma SemaphoreHolds(workers: nat, steps: seq<Step>)
    ensures var s := After(workers, steps);
            && s.tokens == Count(s.handlers, HoldsSlot)
            && Count(s.handlers, IsCalling) <= s.tokens <= workers
            && (Count(s.handlers, IsDone) == |s.handlers| ==> s.tokens == 0)
  {
    hide After;
    RunKeeps(workers, steps);
    WorkersFixed(workers, steps);
    var s := After(workers, steps);
    CountMonotone(s.handlers, IsCalling, HoldsSlot);
    CountBounds(s.handlers, IsDone);
    CountBounds(s.handlers, HoldsSlot);
  }

  /** Giving a slot back never waits: the channel is not empty while a handler has still to receive. */
  lemma ReceiveNeverWaits(workers: nat, steps: seq<Step>, h: nat)
    requires h < |After(workers, steps).handlers| && After(workers, steps).handlers[h].at.Returned?
    ensures Enabled(After(workers, steps), Receive(h))
  {
    hide After, ConnOk;
    RunKeeps(workers, steps);
    var s := After(workers, steps);
    CountBounds(s.handlers, HoldsSlot);
    assert HandlerOk(s.conns, h, s.handlers[h]);
    assert HoldsSlot(s.handlers[h]);
  }

  /** The next step of a handler that waits for nobody. */
  ghost function Onward(s: State, h: nat): Step
    requires h < |s.handlers|
  {
    match s.handlers[h].at
    case Queued(_) => Send(h)
    case Holding(_) => Call(h)
    case Calling(_) => Return(h, true, 0, [])
    case Returned(_, _, _) => Receive(h)
    case Ready(_) => Lock(h)
    case Writing(_, written) => if written < 3 then WriteChunk(h) else Unlock(h)
    case Done(_) => Connect
  }

  /** With at least one slot the handlers never wait for each other for ever: while one is not done, some handler that
      is not done can go on. */
  lemma NeverStuck(workers: nat, steps: seq<Step>, h: nat) returns (other: nat)
    requires workers >= 1 && h < |After(workers, steps).handlers| && !After(workers, steps).handlers[h].at.Done?
    ensures var s := After(workers, steps);
            other < |s.handlers| && !s.handlers[other].at.Done? && Enabled(s, Onward(s, other))
  {
    hide After, ConnOk;
    RunKeeps(workers, steps);
    WorkersFixed(workers, steps);
    var s := After(workers, steps);
    other := h;
    assert HandlerOk(s.conns, h, s.handlers[h]);
    CountBounds(s.handlers, HoldsSlot);
    if s.handlers[h].at.Queued? && s.tokens == workers {
      other :| 0 <= other < |s.handlers| && HoldsSlot(s.handlers[other]);
      assert HandlerOk(s.conns, other, s.handlers[other]);
    } else if s.handlers[h].at.Ready? && s.conns[s.handlers[h].conn].holder.Some? {
      other := s.conns[s.handlers[h].conn].holder.value;
      HolderIsWriting(s, s.handlers[h].conn);
      assert HandlerOk(s.conns, other, s.handlers[other]);
    }
  }

  // ---- Every run ends ----

  /** Steps a handler has left: four for each store call, then the lock, three writes and the unlock. */
  ghost function StepsLeft(h: Handler): nat {
    match h.at
    case Queued(calls) => 4 * calls + 5
    case Holding(calls) => 4 * calls + 4
    case Calling(calls) => 4 * calls + 3
    case Returned(calls, _, _) => 4 * calls + 2
    case Ready(_) => 5
    case Writing(_, written) => if written < 3 then 4 - written else 1
    case Done(_) => 0
  }

  ghost function Work(s: State): nat {
    SumBy(s.handlers, StepsLeft)
  }

  /** Steps of handlers already started. */
  ghost predicate IsHandlerStep(step: Step) {
    !(step.Connect? || step.SpawnStore? || step.SpawnReply?)
  }

  lemma StepDescends(s: State, step: Step)
    requires Inv(s) && Enabled(s, step) && IsHandlerStep(step)
    ensures Work(Take(s, step)) < Work(s)
  {
    hide SumBy, ConnOk, Chunk, Count;
    assert HandlerOk(s.conns, step.h, s.handlers[step.h]);
    SumByUpdate(s.handlers, step.h, Take(s, step).handlers[step.h], StepsLeft);
  }

  /** A run of handler steps. */
  ghost predicate HandlerRun(s: State, steps: seq<Step>)
    decreases |steps|
  {
    steps == [] || (IsHandlerStep(steps[0]) && Enabled(s, steps[0]) && HandlerRun(Take(s, steps[0]), steps[1..]))
  }

  /** Without new requests every run ends: the work there is bounds its steps. */
  lemma {:induction false} EveryRunEnds(s: State, steps: seq<Step>)
    requires Inv(s) && HandlerRun(s, steps)
    ensures |steps| <= Work(s)
    decreases |steps|
  {
    hide Inv, Enabled, Take, Work;
    if steps != [] {
      StepKeeps(s, steps[0]);
      StepDescends(s, steps[0]);
      EveryRunEnds(Take(s, steps[0]), steps[1..]);
    }
  }

  /** And where it can go no further, every handler is done and its frame is in its connection's stream. */
  lemma EndIsComplete(workers: nat, steps: seq<Step>, h: nat)
    requires workers >= 1 && h < |After(workers, steps).handlers|
    requires forall step :: IsHandlerStep(step) ==> !Enabled(After(workers, steps), step)
    ensures var s := After(workers, steps);
            && s.handlers[h].at.Done? && s.handlers[h].conn < |s.conns|
            && s.conns[s.handlers[h].conn].holder == None && h in s.conns[s.handlers[h].conn].log
  {
    hide After, ConnOk, Enabled, Count;
    var s := After(workers, steps);
    RunKeeps(workers, steps);
    assert HandlerOk(s.conns, h, s.handlers[h]);
    if !s.handlers[h].at.Done? {
      var other := NeverStuck(workers, steps, h);
    } else if s.conns[s.handlers[h].conn].holder.Some? {
      HolderIsWriting(s, s.handlers[h].conn);
      var other := NeverStuck(workers, steps, s.conns[s.handlers[h].conn].holder.value);
    }
  }

  lemma HolderIsWriting(s: State, c: nat)
    requires Inv(s) && c < |s.conns| && s.conns[c].holder.Some?
    ensures s.conns[c].holder.value < |s.handlers| && s.handlers[s.conns[c].holder.value].at.Writing?
  {
    assert ConnOk(s.handlers, c, s.conns[c]);
  }

  /** Whenever nobody is inside a connection's writer, its bytes are whole frames: one per
      finished handler of that connection, each under its own request id, and they parse
      back to exactly those frames if and only if no payload reaches 2^32 bytes. */
  lemma StreamIsWholeFrames(workers: nat, steps: seq<Step>, c: nat)
    requires c < |After(workers, steps).conns| && After(workers, steps).conns[c].holder == None
    ensures var s := After(workers, steps);
            var conn := s.conns[c];
            && AllDone(s.handlers, conn.log) && Distinct(conn.log)
            && conn.out == Concat(Frames(s.handlers, conn.log))
            && (forall i :: 0 <= i < |conn.log| ==>
                  s.handlers[conn.log[i]].conn == c && s.handlers[conn.log[i]].at.frame.reqId == s.handlers[conn.log[i]].reqId)
            && (forall h :: 0 <= h < |s.handlers| && s.handlers[h].at.Done? && s.handlers[h].conn == c ==> h in conn.log)
            && (ParseAll(conn.out) == Some(Frames(s.handlers, conn.log)) <==> AllShort(Frames(s.handlers, conn.log)))
  {
    hide After, Concat, Encode, ParseAll;
    RunKeeps(workers, steps);
    var s := After(workers, steps);
    var conn := s.conns[c];
    assert ConnOk(s.handlers, c, conn);
    var frames := Frames(s.handlers, conn.log);
    forall i | 0 <= i < |conn.log|
      ensures Addressed(frames[i]) && frames[i].reqId == s.handlers[conn.log[i]].reqId
    {
      assert HandlerOk(s.conns, conn.log[i], s.handlers[conn.log[i]]);
    }
    ParsesBack(frames);
  }

  /** While a handler is inside, the bytes are whole frames plus the beginning of its own. */
  lemma HolderWritesAlone(workers: nat, steps: seq<Step>, c: nat, h: nat)
    requires var s := After(workers, steps);
             c < |s.conns| && h < |s.handlers| && s.handlers[h].conn == c && s.handlers[h].at.Writing?
    ensures var s := After(workers, steps);
            var conn := s.conns[c];
            && conn.holder == Some(h) && AllDone(s.handlers, conn.log)
            && conn.out == Concat(Frames(s.handlers, conn.log)) + Partial(s.handlers[h].at.frame, s.handlers[h].at.written)
            && Partial(s.handlers[h].at.frame, s.handlers[h].at.written) <= Encode(s.handlers[h].at.frame)
  {
    hide After, Concat, Encode;
    RunKeeps(workers, steps);
    var s := After(workers, steps);
    assert HandlerOk(s.conns, h, s.handlers[h]);
    assert ConnOk(s.handlers, c, s.conns[c]);
    PartialIsPrefix(s.handlers[h].at.frame, s.handlers[h].at.written);
  }

  lemma {:induction false} PartialIsPrefix(f: Frame, written: nat)
    requires written <= 3
    ensures Partial(f, written) <= Encode(f)
    decreases 3 - written
  {
    hide PutLE, Header, Encode, Chunk;
    if written == 3 {
      PartialIsWhole(f);
    } else {
      PartialIsPrefix(f, written + 1);
      assert Partial(f, written + 1) == Partial(f, written) + Chunk(f, written);
    }
  }

  // ---- The run read off its steps ----

  /** The requests a run started, as the steps that started them. */
  ghost function Spawns(workers: nat, steps: seq<Step>): seq<Step> {
    if steps == [] then []
    else
      var rest, last := Spawns(workers, steps[..|steps| - 1]), steps[|steps| - 1];
      if (last.SpawnStore? || last.SpawnReply?) && Enabled(After(workers, steps[..|steps| - 1]), last) then rest + [last] else rest
  }

  /** The store calls of handler h that have returned, as the steps that say how. */
  ghost function Returns(workers: nat, steps: seq<Step>, h: nat): seq<Step> {
    if steps == [] then []
    else
      var rest, last := Returns(workers, steps[..|steps| - 1], h), steps[|steps| - 1];
      if last.Return? && last.h == h && Enabled(After(workers, steps[..|steps| - 1]), last) then rest + [last] else rest
  }

  /** Every call but the last one went well. */
  ghost predicate FineBefore(returned: seq<Step>) {
    forall i :: 0 <= i < |returned| ==> returned[i].Return? && (i < |returned| - 1 ==> returned[i].fine)
  }

  /** The frame a request calls for: what it was started with, or what its last store call returned. */
  ghost predicate Answers(spawn: Step, returned: seq<Step>, f: Frame) {
    match spawn
    case SpawnReply(_, reqId, status, payload) => returned == [] && f == Frame(reqId, status, payload)
    case SpawnStore(_, reqId, _) =>
      && returned != [] && returned[|returned| - 1].Return?
      && f == Frame(reqId, returned[|returned| - 1].status, returned[|returned| - 1].payload)
    case _ => false
  }

  /** All batches were called, or the last one called failed. */
  ghost predicate Completed(spawn: Step, returned: seq<Step>) {
    && FineBefore(returned)
    && (spawn.SpawnStore? ==>
          && 1 <= |returned| <= spawn.calls && returned[|returned| - 1].Return?
          && (returned[|returned| - 1].fine ==> |returned| == spawn.calls))
  }

  /** Where a handler stands agrees with how it was started and what its calls returned. */
  ghost predicate AsRun(handler: Handler, spawn: Step, returned: seq<Step>) {
    && (spawn.SpawnStore? || spawn.SpawnReply?) && handler.conn == spawn.conn && handler.reqId == spawn.reqId
    && FineBefore(returned)
    && match handler.at
       case Queued(calls) => Going(spawn, returned, calls)
       case Holding(calls) => Going(spawn, returned, calls)
       case Calling(calls) => Going(spawn, returned, calls)
       case Returned(calls, fine, f) =>
         && spawn.SpawnStore? && 1 <= calls == spawn.calls - |returned| + 1 && returned != []
         && returned[|returned| - 1].fine == fine && Answers(spawn, returned, f)
       case Ready(f) => Completed(spawn, returned) && Answers(spawn, returned, f)
       case Writing(f, _) => Completed(spawn, returned) && Answers(spawn, returned, f)
       case Done(f) => Completed(spawn, returned) && Answers(spawn, returned, f)
  }

  ghost predicate Going(spawn: Step, returned: seq<Step>, calls: nat) {
    && spawn.SpawnStore? && 1 <= calls == spawn.calls - |returned|
    && forall i :: 0 <= i < |returned| ==> returned[i].Return? && returned[i].fine
  }

  /** A step of handler h, or of another. */
  lemma AsRunStep(s: State, step: Step, h: nat, spawn: Step, returned: seq<Step>)
    requires Enabled(s, step) && h < |s.handlers| && AsRun(s.handlers[h], spawn, returned)
    ensures h < |Take(s, step).handlers|
    ensures AsRun(Take(s, step).handlers[h], spawn, if step.Return? && step.h == h then returned + [step] else returned)
  {
    hide Chunk;
  }

  lemma AsRunStart(s: State, step: Step)
    requires Enabled(s, step) && (step.SpawnStore? || step.SpawnReply?)
    ensures |Take(s, step).handlers| == |s.handlers| + 1 && AsRun(Take(s, step).handlers[|s.handlers|], step, [])
  {
  }

  lemma OthersStart(s: State, step: Step)
    requires Enabled(s, step)
    ensures |Take(s, step).handlers| == |s.handlers| + if step.SpawnStore? || step.SpawnReply? then 1 else 0
  {
  }

  lemma {:induction false} SpawnsAre(workers: nat, steps: seq<Step>)
    ensures |Spawns(workers, steps)| == |After(workers, steps).handlers|
  {
    hide Take, Enabled;
    if steps != [] {
      SpawnsAre(workers, steps[..|steps| - 1]);
      var s := After(workers, steps[..|steps| - 1]);
      if Enabled(s, steps[|steps| - 1]) { OthersStart(s, steps[|steps| - 1]); }
    }
  }

  lemma {:induction false} NoReturnsYet(workers: nat, steps: seq<Step>, h: nat)
    requires h >= |After(workers, steps).handlers|
    ensures Returns(workers, steps, h) == []
  {
    if steps != [] {
      var s, step := After(workers, steps[..|steps| - 1]), steps[|steps| - 1];
      if Enabled(s, step) { OthersStart(s, step); }
      hide Take;
      NoReturnsYet(workers, steps[..|steps| - 1], h);
    }
  }

  /** Every handler stands where its request and the returns of its store calls put it.  Once done it has called every
      batch or stopped at one that failed, and its frame carries its own request id with the status and payload of the
      last return. */
  lemma {:induction false} HandlersFollowRun(workers: nat, steps: seq<Step>, h: nat)
    requires h < |After(workers, steps).handlers|
    ensures |Spawns(workers, steps)| == |After(workers, steps).handlers|
    ensures AsRun(After(workers, steps).handlers[h], Spawns(workers, steps)[h], Returns(workers, steps, h))
  {
    hide Take, Enabled, AsRun;
    SpawnsAre(workers, steps);
    var before, step := steps[..|steps| - 1], steps[|steps| - 1];
    var s := After(workers, before);
    SpawnsAre(workers, before);
    if Enabled(s, step) { OthersStart(s, step); }
    if h < |s.handlers| {
      HandlersFollowRun(workers, before, h);
      if Enabled(s, step) { AsRunStep(s, step, h, Spawns(workers, before)[h], Returns(workers, before, h)); }
    } else {
      NoReturnsYet(workers, before, h);
      AsRunStart(s, step);
    }
  }

  /** The stream of an idle connection, from the steps alone: one frame for each finished request of that connection, with
      the status and payload that its last store call returned. */
  lemma StreamIsAnswers(workers: nat, steps: seq<Step>, c: nat, i: nat)
    requires c < |After(workers, steps).conns| && After(workers, steps).conns[c].holder == None
    requires i < |After(workers, steps).conns[c].log|
    ensures var s := After(workers, steps);
            var h := s.conns[c].log[i];
            && AllDone(s.handlers, s.conns[c].log) && |Spawns(workers, steps)| == |s.handlers| && h < |s.handlers|
            && (Spawns(workers, steps)[h].SpawnStore? || Spawns(workers, steps)[h].SpawnReply?)
            && Spawns(workers, steps)[h].conn == c
            && Completed(Spawns(workers, steps)[h], Returns(workers, steps, h))
            && Answers(Spawns(workers, steps)[h], Returns(workers, steps, h), Frames(s.handlers, s.conns[c].log)[i])
  {
    hide After, Spawns, Returns, Concat, ParseAll, AllShort;
    StreamIsWholeFrames(workers, steps, c);
    HandlersFollowRun(workers, steps, After(workers, steps).conns[c].log[i]);
  }
}
