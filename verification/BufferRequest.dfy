/** The rendezvous of the 3.5 buffer request thread: the output worker starts a request and
    waits for it, the thread asks the framework for the buffers and fills them in, dropping
    its lock for every import. A step is what one thread does while it holds the lock. */
module BufferRequest {
  import Runs

  type StreamId = int

  datatype Buf = Buf(stream: StreamId, id: nat, imported: bool, fence: int)

  /** What the framework answers for one stream: Malformed is not exactly one buffer. */
  datatype Ret = Error | Buffer(id: nat, fence: int) | Malformed

  datatype Thread =
    | Waiting                               // in waitForNextRequest
    | Calling                               // in requestStreamBuffers
    | Filling(rets: seq<Ret>, i: nat)       // holds the lock, reply i comes next
    | Importing(rets: seq<Ret>, i: nat)     // has dropped it to import the buffer of reply i
    | Notifying                             // unlocked, notify_one not reached
    | Exited

  datatype Worker =
    | Idle
    | Blocked(notified: bool)               // in the wait of waitForBufferRequestDone

  /** started and granted record the last successful start and the replies to it, returns what
      every successful wait has returned, and fooled that some wake-up has found no batch. */
  datatype State = State(
    requesting: bool,
    bufferReqs: seq<Buf>,
    pending: seq<Buf>,
    halReqs: seq<StreamId>,
    thread: Thread,
    worker: Worker,
    started: seq<Buf>,
    granted: seq<Ret>,
    returned: seq<Return>,
    fooled: bool)

  /** A batch, with the start and the replies that it should come from. */
  datatype Return = Return(batch: seq<Buf>, started: seq<Buf>, granted: seq<Ret>)

  datatype Step =
    | Start(bufs: seq<Buf>)
    | WaitBegin
    | Wake(spurious: bool)
    | Timeout
    | Fetch
    | Reply(ok: bool, rets: seq<Ret>)
    | Fill
    | Imported(ok: bool)
    | Notify
    | Leave                                 // exit pending, transaction error, session gone

  const Init := State(false, [], [], [], Waiting, Idle, [], [], [], false)

  /** The lock is held across Filling; every other step takes and drops it. */
  predicate LockFree(s: State) { !s.thread.Filling? }

  predicate Enabled(s: State, step: Step) {
    match step
    case Start(_) => s.worker.Idle? && LockFree(s)
    case WaitBegin => s.worker.Idle? && LockFree(s)
    case Wake(spurious) => s.worker.Blocked? && LockFree(s) && (spurious || s.worker.notified)
    case Timeout => s.worker.Blocked? && LockFree(s)
    case Fetch => s.thread.Waiting? && s.bufferReqs != []
    case Reply(_, _) => s.thread.Calling?
    // mBufferReqs[i] must exist for a reply with a buffer
    case Fill =>
      && s.thread.Filling? && s.thread.i <= |s.thread.rets|
      && (s.thread.i < |s.thread.rets| && s.thread.rets[s.thread.i].Buffer?
          ==> s.thread.i < |s.bufferReqs|)
    case Imported(_) =>
      && s.thread.Importing? && s.thread.i < |s.thread.rets| && s.thread.i < |s.bufferReqs|
      && s.thread.rets[s.thread.i].Buffer?
    case Notify => s.thread.Notifying?
    case Leave => s.thread.Waiting? || s.thread.Calling?
  }

  function Apply(s: State, step: Step): State
    requires Enabled(s, step)
  {
    match step
    case Start(bufs) =>
      if bufs == [] || s.requesting then s
      else s.(bufferReqs := bufs, requesting := true, started := bufs, granted := [])
    case WaitBegin =>
      if !s.requesting then s
      else if s.pending == [] then s.(worker := Blocked(false))
      else s.(requesting := false, pending := [], returned := s.returned + [Now(s)])
    case Wake(_) =>
      s.(worker := Idle, requesting := false, pending := [], returned := s.returned + [Now(s)],
         fooled := s.fooled || s.pending == [])
    case Timeout =>
      s.(worker := Idle)
    case Fetch =>
      s.(halReqs := Streams(s.bufferReqs), thread := Calling)
    case Reply(ok, rets) =>
      if ok && |rets| != |s.halReqs| then s.(thread := Exited)
      else s.(thread := Filling(if ok then rets else [], 0))
    case Fill =>
      var rets, i := s.thread.rets, s.thread.i;
      if i == |rets| then
        s.(pending := s.bufferReqs, bufferReqs := [], granted := rets, thread := Notifying)
      else (
        match rets[i]
        case Error => s.(thread := Filling(rets, i + 1))
        case Malformed => s.(thread := Exited)
        case Buffer(id, _) =>
          s.(bufferReqs := s.bufferReqs[i := s.bufferReqs[i].(id := id)],
             thread := Importing(rets, i)))
    case Imported(ok) =>
      var rets, i := s.thread.rets, s.thread.i;
      if !ok then s.(thread := Exited)
      else s.(bufferReqs := s.bufferReqs[i := Granted(s.bufferReqs[i], rets[i])],
              thread := Filling(rets, i + 1))
    case Notify =>
      s.(thread := Waiting, worker := if s.worker.Blocked? then Blocked(true) else s.worker)
    case Leave =>
      s.(thread := Exited)
  }

  /** What a wait that succeeds now returns. */
  function Now(s: State): Return { Return(s.pending, s.started, s.granted) }

  function Streams(bufs: seq<Buf>): seq<StreamId> {
    seq(|bufs|, i requires 0 <= i < |bufs| => bufs[i].stream)
  }

  // ---------------------------------------------------------------- the batch

  /** A requested buffer after its reply. */
  function Granted(b: Buf, ret: Ret): Buf {
    match ret
    case Buffer(id, fence) => b.(id := id, imported := true, fence := fence)
    case _ => b
  }

  /** The batch after the first i replies. */
  function Filled(bufs: seq<Buf>, rets: seq<Ret>, i: nat): seq<Buf>
    requires i <= |rets| && (rets == [] || |rets| == |bufs|)
  {
    seq(|bufs|, k requires 0 <= k < |bufs| => if k < i then Granted(bufs[k], rets[k]) else bufs[k])
  }

  lemma {:induction false} FilledMore(bufs: seq<Buf>, rets: seq<Ret>, i: nat)
    requires |rets| == |bufs| && i < |rets|
    ensures Filled(bufs, rets, i + 1) == Filled(bufs, rets, i)[i := Granted(bufs[i], rets[i])]
  {
  }

  lemma {:induction false} FilledKeepsStreams(bufs: seq<Buf>, rets: seq<Ret>, i: nat)
    requires i <= |rets| && (rets == [] || |rets| == |bufs|)
    ensures Streams(Filled(bufs, rets, i)) == Streams(bufs)
  {
  }

  // ---------------------------------------------------------------- the invariant

  /** Either nothing is outstanding, or exactly one batch is: asked for, or ready to return. */
  ghost predicate OneBatch(s: State) {
    && (s.requesting <==> s.bufferReqs != [] || s.pending != [])
    && (s.bufferReqs == [] || s.pending == [])
    && (s.requesting ==> s.started != [])
    && Streams(s.bufferReqs + s.pending) == (if s.requesting then Streams(s.started) else [])
  }

  /** Where the thread stands in the batch. */
  ghost predicate Progress(s: State) {
    match s.thread
    case Waiting => s.bufferReqs == [] || s.bufferReqs == s.started
    case Notifying => s.bufferReqs == [] || s.bufferReqs == s.started
    case Calling =>
      s.bufferReqs != [] && s.bufferReqs == s.started && s.halReqs == Streams(s.bufferReqs)
    case Filling(rets, i) =>
      && s.bufferReqs != [] && s.halReqs == Streams(s.bufferReqs)
      && i <= |rets| && (rets == [] || |rets| == |s.started|)
      && s.bufferReqs == Filled(s.started, rets, i)
      && forall k :: 0 <= k < i ==> !rets[k].Malformed?
    case Importing(rets, i) =>
      && s.bufferReqs != [] && s.halReqs == Streams(s.bufferReqs)
      && i < |rets| && |rets| == |s.started| && rets[i].Buffer?
      && s.bufferReqs == Filled(s.started, rets, i)[i := s.started[i].(id := rets[i].id)]
      && forall k :: 0 <= k < i ==> !rets[k].Malformed?
    case Exited => true
  }

  /** A batch to return is the one that was started, as the replies filled it in. */
  ghost predicate Batch(s: State) {
    && (s.granted == [] || |s.granted| == |s.started|)
    && (s.pending != [] ==> s.pending == Filled(s.started, s.granted, |s.granted|))
    && forall k :: 0 <= k < |s.granted| ==> !s.granted[k].Malformed?
  }

  ghost predicate Inv(s: State) {
    && OneBatch(s) && Progress(s) && Batch(s)
    && (s.worker.Blocked? ==> s.requesting)
  }

  /** A wake-up finds a batch. */
  predicate FindsBatch(s: State, step: Step) { step.Wake? ==> s.pending != [] }

  lemma {:induction false} WorkerStepKeepsInv(s: State, step: Step)
    requires Inv(s) && Enabled(s, step) && FindsBatch(s, step)
    requires step.Start? || step.WaitBegin? || step.Wake? || step.Timeout?
    ensures Inv(Apply(s, step))
  {
  }

  lemma {:induction false} ThreadStepKeepsInv(s: State, step: Step)
    requires Inv(s) && Enabled(s, step) && FindsBatch(s, step)
    requires step.Fetch? || step.Reply? || step.Notify? || step.Leave?
    ensures Inv(Apply(s, step))
  {
  }

  lemma {:induction false} FillKeepsInv(s: State)
    requires Inv(s) && Enabled(s, Fill)
    ensures Inv(Apply(s, Fill))
  {
    if s.thread.i == |s.thread.rets| { PublishKeepsInv(s); } else { ReplyKeepsInv(s); }
  }

  /** The batch is handed over as all its replies have filled it in. */
  lemma {:induction false} PublishKeepsInv(s: State)
    requires Inv(s) && Enabled(s, Fill) && s.thread.i == |s.thread.rets|
    ensures Inv(Apply(s, Fill))
  {
    FilledKeepsStreams(s.started, s.thread.rets, s.thread.i);
    assert [] + s.bufferReqs == s.bufferReqs && s.bufferReqs + [] == s.bufferReqs;
  }

  lemma {:induction false} ReplyKeepsInv(s: State)
    requires Inv(s) && Enabled(s, Fill) && s.thread.i < |s.thread.rets|
    ensures Inv(Apply(s, Fill))
  {
    FilledMore(s.started, s.thread.rets, s.thread.i);
  }

  lemma {:induction false} ImportedKeepsInv(s: State, ok: bool)
    requires Inv(s) && Enabled(s, Imported(ok))
    ensures Inv(Apply(s, Imported(ok)))
  {
    var rets, i := s.thread.rets, s.thread.i;
    FilledMore(s.started, rets, i);
    FilledKeepsStreams(s.started, rets, i + 1);
  }

  lemma {:induction false} InvStep(s: State, step: Step)
    requires Inv(s) && Enabled(s, step) && FindsBatch(s, step)
    ensures Inv(Apply(s, step))
  {
    match step
    case Fill => FillKeepsInv(s);
    case Imported(ok) => ImportedKeepsInv(s, ok);
    case Fetch => ThreadStepKeepsInv(s, step);
    case Reply(_, _) => ThreadStepKeepsInv(s, step);
    case Notify => ThreadStepKeepsInv(s, step);
    case Leave => ThreadStepKeepsInv(s, step);
    case _ => WorkerStepKeepsInv(s, step);
  }

  // ---------------------------------------------------------------- runs

  ghost predicate Next(s: State, t: State) {
    exists step :: Enabled(s, step) && t == Apply(s, step)
  }

  ghost predicate Reachable(s: State) { Runs.Reachable(s, Init, Next) }

  /** The batch is the one that was started: a buffer whose reply is a buffer has its id and its
      fence, and is imported; one whose reply is an error, or that has none, is as it was. */
  ghost predicate Right(r: Return) {
    && r.started != [] && |r.batch| == |r.started|
    && (r.granted == [] || |r.granted| == |r.started|)
    && forall k :: 0 <= k < |r.batch| ==>
         if k < |r.granted| && !r.granted[k].Error? then
           && r.granted[k].Buffer?
           && r.batch[k] == Buf(r.started[k].stream, r.granted[k].id, true, r.granted[k].fence)
         else r.batch[k] == r.started[k]
  }

  /** Over every run: sound as long as no wake-up has found nothing, and every return right
      exactly so long. */
  ghost predicate Kept(s: State) {
    && (!s.fooled ==> Inv(s) && forall r :: r in s.returned ==> Right(r))
    && (s.fooled ==> exists r :: r in s.returned && !Right(r))
  }

  /** Under the invariant a wait that succeeds returns the right batch, or none. */
  lemma {:induction false} NowIsRightExactly(s: State)
    requires Inv(s)
    ensures Right(Now(s)) <==> s.pending != []
  {
    if s.pending != [] {
      FilledKeepsStreams(s.started, s.granted, |s.granted|);
      assert s.bufferReqs == [] && [] + s.pending == s.pending;
    }
  }

  lemma {:induction false} KeptStep(s: State, step: Step)
    requires Kept(s) && Enabled(s, step)
    ensures Kept(Apply(s, step))
  {
    ReturnsGrow(s, step);
    if s.fooled {
      StaysWrong(s, Apply(s, step));
    } else {
      NowIsRightExactly(s);
      if FindsBatch(s, step) {
        InvStep(s, step);
        StaysRight(s, Apply(s, step));
      } else {
        TurnsWrong(s, Apply(s, step));
      }
    }
  }

  lemma {:induction false} StaysWrong(s: State, t: State)
    requires Kept(s) && s.fooled && t.fooled && s.returned <= t.returned
    ensures Kept(t)
  {
    var r :| r in s.returned && !Right(r);
    assert r in t.returned;
  }

  lemma {:induction false} StaysRight(s: State, t: State)
    requires Kept(s) && !s.fooled && Inv(t) && !t.fooled
    requires t.returned == s.returned || (t.returned == s.returned + [Now(s)] && Right(Now(s)))
    ensures Kept(t)
  {
  }

  lemma {:induction false} TurnsWrong(s: State, t: State)
    requires t.fooled && t.returned == s.returned + [Now(s)] && !Right(Now(s))
    ensures Kept(t)
  {
    assert t.returned[|s.returned|] == Now(s);
  }

  lemma {:induction false} ReturnsGrow(s: State, step: Step)
    requires Enabled(s, step)
    ensures var t := Apply(s, step);
            && t.returned == s.returned
                 + (if step.Wake? || (step.WaitBegin? && s.requesting && s.pending != [])
                    then [Now(s)] else [])
            && (t.fooled <==> s.fooled || !FindsBatch(s, step))
  {
  }

  lemma {:induction false} KeptReachable(s: State)
    requires Reachable(s)
    ensures Kept(s)
  {
    forall a, b | Kept(a) && Next(a, b) ensures Kept(b) {
      var step :| Enabled(a, step) && b == Apply(a, step);
      KeptStep(a, step);
    }
    Runs.Invariant(s, Init, Next, Kept);
  }

  // ---------------------------------------------------------------- the promises

  /** In every run, whatever notifications come late and whatever wake-ups are spurious: each wait
      that succeeded has returned the batch of its start, exactly when no wake-up has yet found
      nothing to return. */
  lemma {:induction false} WaitsReturnTheBatchExactly(s: State)
    requires Reachable(s)
    ensures (forall r :: r in s.returned ==> Right(r)) <==> !s.fooled
  {
    KeptReachable(s);
  }

  /** Which step that is: the wait has no predicate, so it goes on without a batch. */
  lemma {:induction false} FooledExactly(s: State, step: Step)
    requires Enabled(s, step)
    ensures Apply(s, step).fooled <==> s.fooled || (step.Wake? && s.pending == [])
  {
    ReturnsGrow(s, step);
  }

  /** A start is taken exactly when it asks for something and nothing is outstanding. */
  lemma {:induction false} OneOutstanding(s: State, bufs: seq<Buf>)
    requires Reachable(s) && !s.fooled && Enabled(s, Start(bufs))
    ensures var t := Apply(s, Start(bufs));
            (if bufs != [] && s.bufferReqs == [] && s.pending == []
             then t.requesting && t.bufferReqs == bufs && t.started == bufs && t.pending == []
             else t == s)
  {
    KeptReachable(s);
  }

  /** And after the first wake-up that finds nothing it is taken although a batch is. */
  lemma {:induction false} FooledTakesTwo(s: State, spurious: bool, bufs: seq<Buf>)
    requires Reachable(s) && !s.fooled && Enabled(s, Wake(spurious)) && s.pending == []
    requires bufs != []
    ensures var t := Apply(s, Wake(spurious));
            && t.bufferReqs != [] && Enabled(t, Start(bufs))
            && Apply(t, Start(bufs)).bufferReqs == bufs
  {
    KeptReachable(s);
  }

  /** While the thread has dropped the lock to ask or to import, no step of the worker changes
      the batch but such a wake-up and what follows it; every index the thread goes on to use is
      in the batch. */
  lemma {:induction false} BatchStaysPut(s: State, step: Step)
    requires Reachable(s) && !s.fooled && (s.thread.Calling? || s.thread.Importing?)
    requires step.Start? || step.WaitBegin? || step.Wake? || step.Timeout?
    requires Enabled(s, step)
    ensures var t := Apply(s, step);
            && t.bufferReqs == s.bufferReqs && t.thread == s.thread
            && |t.bufferReqs| == |t.halReqs|
            && (s.thread.Importing? ==> s.thread.i < |t.bufferReqs|)
            && (t.fooled <==> step.Wake?)
  {
    KeptReachable(s);
  }

  /** A thread that gives up in the middle of a batch leaves it outstanding for good: every start
      is refused, and the only wait that can still succeed is one that is woken for nothing. */
  lemma {:induction false} GivingUpIsForGood(s: State, step: Step)
    requires Reachable(s) && !s.fooled && s.thread.Exited? && s.bufferReqs != []
    requires Enabled(s, step)
    ensures var t := Apply(s, step);
            && t.thread.Exited? && t.bufferReqs == s.bufferReqs && t.pending == []
            && (step.Start? ==> t == s) && (t.fooled <==> step.Wake?)
            && (!step.Wake? ==> t.requesting && t.returned == s.returned)
  {
    KeptReachable(s);
  }

  // ---------------------------------------------------------------- a discipline

  /** No spurious wake-up; and the worker begins no wait that blocks between the moment a batch
      is published and its notification. */
  predicate Disciplined(s: State, step: Step)
    requires Enabled(s, step)
  {
    match step
    case Wake(spurious) => !spurious
    case WaitBegin => s.requesting && s.pending == [] ==> !s.thread.Notifying?
    case _ => true
  }

  ghost predicate NextDisciplined(s: State, t: State) {
    exists step :: Enabled(s, step) && Disciplined(s, step) && t == Apply(s, step)
  }

  /** A worker that is notified, or about to be, has a batch to take. */
  ghost predicate Warranted(s: State) {
    && Inv(s) && !s.fooled
    && (s.worker.Blocked? && (s.worker.notified || s.thread.Notifying?) ==> s.pending != [])
  }

  lemma {:induction false} WarrantedStep(s: State, step: Step)
    requires Warranted(s) && Enabled(s, step) && Disciplined(s, step)
    ensures Warranted(Apply(s, step))
  {
    InvStep(s, step);
    ReturnsGrow(s, step);
    WarrantedWorker(s, step);
  }

  lemma {:induction false} WarrantedWorker(s: State, step: Step)
    requires Warranted(s) && Enabled(s, step) && Disciplined(s, step)
    ensures var t := Apply(s, step);
            t.worker.Blocked? && (t.worker.notified || t.thread.Notifying?) ==> t.pending != []
  {
  }

  /** It is enough: no wait ever returns the wrong batch. */
  lemma {:induction false} DisciplineSuffices(s: State)
    requires Runs.Reachable(s, Init, NextDisciplined)
    ensures !s.fooled && forall r :: r in s.returned ==> Right(r)
  {
    forall a, b | Warranted(a) && Kept(a) && NextDisciplined(a, b)
      ensures Warranted(b) && Kept(b)
    {
      var step :| Enabled(a, step) && Disciplined(a, step) && b == Apply(a, step);
      WarrantedStep(a, step);
      KeptStep(a, step);
    }
    Runs.Invariant(s, Init, NextDisciplined, WarrantedAndKept);
  }

  ghost predicate WarrantedAndKept(s: State) { Warranted(s) && Kept(s) }

  // ---------------------------------------------------------------- late notifications

  function Req(stream: StreamId): Buf { Buf(stream, 0, false, -1) }

  lemma {:induction false} RunOn(s: State, step: Step)
    requires Reachable(s) && Enabled(s, step)
    ensures Reachable(Apply(s, step))
  {
    assert Next(s, Apply(s, step));
    Runs.RunOn(s, Apply(s, step), Init, Next);
  }

  const First := Return([Req(1)], [Req(1)], [Error])

  /** The first batch has been published and taken before its notification. */
  lemma {:induction false} TakenBeforeNotify() returns (s: State)
    ensures Reachable(s)
    ensures s == State(false, [], [], [1], Notifying, Idle, [Req(1)], [Error], [First], false)
  {
    Runs.InitReachable(Init, Next);
    RunOn(Init, Start([Req(1)]));
    var s1 := Apply(Init, Start([Req(1)]));
    RunOn(s1, Fetch);
    var s2 := Apply(s1, Fetch);
    RunOn(s2, Reply(true, [Error]));
    var s3 := Apply(s2, Reply(true, [Error]));
    RunOn(s3, Fill);
    var s4 := Apply(s3, Fill);
    RunOn(s4, Fill);
    var s5 := Apply(s4, Fill);
    RunOn(s5, WaitBegin);
    s := Apply(s5, WaitBegin);
  }

  /** The worker has started a second batch and waits for it when the old notification comes. */
  lemma {:induction false} NotifiedTooLate() returns (s: State)
    ensures Reachable(s)
    ensures s == State(true, [Req(2), Req(3)], [], [1], Waiting, Blocked(true), [Req(2), Req(3)],
                       [], [First], false)
  {
    var s0 := TakenBeforeNotify();
    var bufs := [Req(2), Req(3)];
    RunOn(s0, Start(bufs));
    var s1 := Apply(s0, Start(bufs));
    RunOn(s1, WaitBegin);
    var s2 := Apply(s1, WaitBegin);
    RunOn(s2, Notify);
    s := Apply(s2, Notify);
  }

  /** If the worker wakes at once, it returns an empty batch and forgets that one is
      outstanding. */
  lemma {:induction false} WokenForNothing() returns (s: State)
    ensures Reachable(s) && s.fooled && !s.requesting && s.worker.Idle? && s.thread.Waiting?
    ensures s.bufferReqs == [Req(2), Req(3)] && s.pending == []
    ensures s.returned == [First, Return([], [Req(2), Req(3)], [])]
  {
    var s0 := NotifiedTooLate();
    RunOn(s0, Wake(false));
    s := Apply(s0, Wake(false));
  }

  /** If the thread is quicker and publishes the second batch first, the wait is right. */
  lemma {:induction false} LateNotifyCanBeRight() returns (s: State)
    ensures Reachable(s) && !s.fooled && s.worker.Idle?
    ensures |s.returned| == 2 && s.returned[1].batch == [Req(2), Req(3)] && Right(s.returned[1])
  {
    var s0 := NotifiedTooLate();
    RunOn(s0, Fetch);
    var s1 := Apply(s0, Fetch);
    RunOn(s1, Reply(false, []));
    var s2 := Apply(s1, Reply(false, []));
    RunOn(s2, Fill);
    var s3 := Apply(s2, Fill);
    RunOn(s3, Wake(false));
    s := Apply(s3, Wake(false));
  }

  /** After a wake-up for nothing a third, shorter batch can replace the second while the thread is
      asking for it, and the thread comes to index a buffer that is no longer there. */
  lemma {:induction false} StaleNotifyOverruns() returns (s: State)
    ensures Reachable(s)
    ensures s.thread.Filling? && s.thread.i < |s.thread.rets|
    ensures s.thread.rets[s.thread.i].Buffer? && s.thread.i >= |s.bufferReqs|
  {
    var s0 := WokenForNothing();
    RunOn(s0, Fetch);
    var s1 := Apply(s0, Fetch);
    RunOn(s1, Start([Req(4)]));
    var s2 := Apply(s1, Start([Req(4)]));
    var rets := [Error, Buffer(7, -1)];
    RunOn(s2, Reply(true, rets));
    var s3 := Apply(s2, Reply(true, rets));
    RunOn(s3, Fill);
    s := Apply(s3, Fill);
  }
}
