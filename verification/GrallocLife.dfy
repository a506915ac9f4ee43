/** The gralloc slots along the life of the requests: the capture protocol and the pool as one
    system. A two-output request is handed a slot before it is recorded. A capture that fails to
    start returns it at once. The worker returns the slot of a request that it can serve, before
    it reports it; a request without a usable buffer, a flush and a switch return none. */
module GrallocLife {
  import Runs
  import C = CaptureProtocol
  import A = CaptureProofs
  import O = CaptureOrder
  import P = GrallocPool

  type Frame = nat

  /** The two-output request that processOneCaptureRequest has claimed a slot for and not yet
      recorded; status: mdp_trigger has been called for it. */
  datatype Building = Nobody | Claimed(frame: Frame) | Built(frame: Frame, status: bool)

  /** index: halReq->buf_index of each request that has claimed a slot. returned: the worker has
      returned the slot of the request under work. */
  datatype System = System(capture: C.State, pool: P.Pool, index: map<Frame, P.SlotIndex>,
                           building: Building, returned: bool)

  datatype Step =
    | Pick
    | Claim(frame: Frame, size: P.Size, newHandle: P.Handle, allocOk: bool)
    | Trigger(ok: bool)
    | Submit
    | WorkerReturn
    | Capture(step: C.Step)

  const Init := System(C.Init, P.Init, map[], Nobody, false)

  /** A request that was handed a slot and has it. */
  predicate Two(req: C.Request) { req.outputs == 2 && req.status }

  function IndexOf(s: System, f: Frame): P.SlotIndex { if f in s.index then s.index[f] else 0 }

  // ---------------------------------------------------------------- steps

  /** What the source checks before each step; nothing here is about who holds a slot. */
  predicate Enabled(s: System, step: Step) {
    match step
    case Pick => s.capture.client.Idle? && s.building.Nobody? && s.pool.picked.Nothing?
    case Claim(frame, _, newHandle, _) =>
      && s.capture.client.Idle? && s.building.Nobody? && s.pool.picked.Index?
      && frame !in s.capture.submitted && newHandle !in s.pool.table
    case Trigger(_) => s.building.Claimed?
    case Submit => s.building.Built? && C.Enabled(s.capture, C.Record(BuiltRequest(s.building)))
    case WorkerReturn => s.capture.worker.Working? && Two(s.capture.worker.req) && !s.returned
    case Capture(step) =>
      && C.Enabled(s.capture, step)
      && match step
         case Record(req) => req.outputs == 1 && Free(s)
         case FlushTake(_) => Free(s)
         case OfflineTake => Free(s)
         case WorkerErase(kind) =>
           s.returned <==> Two(s.capture.worker.req) && kind != C.RequestError
         case _ => true
  }

  /** No two-output request is being made. */
  predicate Free(s: System) { s.building.Nobody? && s.pool.picked.Nothing? }

  function BuiltRequest(b: Building): C.Request
    requires b.Built?
  {
    C.Request(b.frame, 2, b.status)
  }

  function Apply(s: System, step: Step): System
    requires Enabled(s, step)
  {
    match step
    case Pick => s.(pool := P.PickSlot(s.pool))
    case Claim(frame, size, newHandle, allocOk) =>
      var pool := P.ClaimSlot(s.pool, frame, size, newHandle, allocOk);
      var i := s.pool.picked.i;
      if P.Grab(s.pool.slots[i], s.pool.table, size, newHandle, allocOk).ok then
        s.(pool := pool, index := s.index[frame := i], building := Claimed(frame))
      else s.(pool := pool)
    case Trigger(ok) =>
      var f := s.building.frame;
      s.(pool := if ok then s.pool else P.ReturnSlot(s.pool, f, IndexOf(s, f)),
         building := Built(f, ok))
    case Submit =>
      s.(capture := C.Apply(s.capture, C.Record(BuiltRequest(s.building))), building := Nobody)
    case WorkerReturn =>
      var f := s.capture.worker.req.frame;
      s.(pool := P.ReturnSlot(s.pool, f, IndexOf(s, f)), returned := true)
    case Capture(step) =>
      var gone := GivenUp(s, step);
      s.(capture := C.Apply(s.capture, step), pool := s.pool.(held := s.pool.held - gone),
         returned := s.returned && !step.WorkerErase?)
  }

  /** The frames that a step of the capture protocol gives up without returning their slots. */
  function GivenUp(s: System, step: C.Step): set<Frame>
    requires C.Enabled(s.capture, step)
  {
    match step
    case WorkerErase(kind) => if s.returned then {} else TwoOf([s.capture.worker.req])
    case FlushErase => TwoOf([s.capture.client.taken[0]])
    case OfflinePartition(_, _) => TwoOf(s.capture.client.taken)
    case _ => {}
  }

  function TwoOf(reqs: seq<C.Request>): set<Frame> {
    set r | r in reqs && Two(r) :: r.frame
  }

  ghost predicate Next(s: System, t: System) {
    exists step :: Enabled(s, step) && t == Apply(s, step)
  }

  ghost predicate Reachable(s: System) { Runs.Reachable(s, Init, Next) }

  // ---------------------------------------------------------------- who should hold a slot

  function OfWorker(s: System): seq<C.Request> {
    if s.capture.worker.Working? && !s.returned then [s.capture.worker.req] else []
  }

  function OfClient(c: C.Client): seq<C.Request> {
    match c
    case Submitting(req) => [req]
    case FlushWait(taken, _) => taken
    case FlushAnswer(taken, erased, _) => if erased && taken != [] then taken[1..] else taken
    case OfflineWait(taken) => taken
    case OfflineTaken(taken) => taken
    case _ => []
  }

  function OfBuilding(b: Building): set<Frame> {
    if b.Claimed? || (b.Built? && b.status) then {b.frame} else {}
  }

  /** The outstanding two-output requests with status true whose slot the worker has not returned,
      and the one being made. */
  function Holders(s: System): set<Frame> {
    TwoOf(OfWorker(s)) + TwoOf(s.capture.queue) + TwoOf(OfClient(s.capture.client))
    + OfBuilding(s.building)
  }

  ghost predicate Parts(s: System) {
    O.Inv(s.capture) && P.Inv(s.pool) && C.Reachable(s.capture) && P.Reachable(s.pool)
  }

  /** The holders hold what they have claimed. */
  ghost predicate Holding(s: System) {
    && s.pool.held.Keys == Holders(s)
    && forall f :: f in s.pool.held ==> f in s.index && s.index[f] == s.pool.held[f]
  }

  ghost predicate Making(s: System) {
    && (!s.building.Nobody? ==> s.capture.client.Idle? && s.pool.picked.Nothing?
                                && s.building.frame !in s.capture.submitted)
    && (s.returned ==> s.capture.worker.Working? && Two(s.capture.worker.req))
  }

  ghost predicate Inv(s: System) { Parts(s) && Holding(s) && Making(s) }

  // ---------------------------------------------------------------- sets of requests

  lemma {:induction false} TwoOfConcat(a: seq<C.Request>, b: seq<C.Request>)
    ensures TwoOf(a + b) == TwoOf(a) + TwoOf(b)
  {
    forall f ensures f in TwoOf(a + b) <==> f in TwoOf(a) || f in TwoOf(b) {
      if f in TwoOf(a) {
        var r :| r in a && Two(r) && r.frame == f;
        assert r in a + b;
      }
      if f in TwoOf(b) {
        var r :| r in b && Two(r) && r.frame == f;
        assert r in a + b;
      }
    }
  }

  lemma {:induction false} TwoOfFrames(reqs: seq<C.Request>, f: Frame)
    requires f in TwoOf(reqs)
    ensures f in C.Frames(reqs)
  {
    var r :| r in reqs && Two(r) && r.frame == f;
    var i :| 0 <= i < |reqs| && reqs[i] == r;
    O.FramesMember(reqs, i);
  }

  lemma {:induction false} TwoOfNone()
    ensures TwoOf([]) == {}
  {
  }

  lemma {:induction false} TwoOfOne(r: C.Request)
    ensures TwoOf([r]) == if Two(r) then {r.frame} else {}
  {
  }

  /** A holder that is not being made is owed by the worker, the queue or the client. */
  lemma {:induction false} HolderIsOwed(s: System, f: Frame)
    requires f in TwoOf(OfWorker(s)) + TwoOf(s.capture.queue) + TwoOf(OfClient(s.capture.client))
    ensures || f in C.WorkerOwes(s.capture.worker) || f in C.Frames(s.capture.queue)
            || f in C.ClientOwes(s.capture.client)
  {
    if f in TwoOf(OfWorker(s)) {
      TwoOfFrames(OfWorker(s), f);
      TwoOfOne(s.capture.worker.req);
    } else if f in TwoOf(s.capture.queue) {
      TwoOfFrames(s.capture.queue, f);
    } else {
      TwoOfFrames(OfClient(s.capture.client), f);
    }
  }

  /** So it has been submitted. */
  lemma {:induction false} HolderIsSubmitted(s: System, f: Frame)
    requires A.Accounting(s.capture)
    requires f in TwoOf(OfWorker(s)) + TwoOf(s.capture.queue) + TwoOf(OfClient(s.capture.client))
    ensures f in s.capture.submitted
  {
    var c := s.capture;
    HolderIsOwed(s, f);
    assert A.Balanced(c, f);
    A.CountMember(c.submitted, f);
    A.CountMember(C.Pending(c), f);
    assert f in C.Pending(c);
  }

  /** And owed only once. */
  lemma {:induction false} OwedInOnePlace(c: C.State, f: Frame)
    requires A.Accounting(c)
    ensures !(f in C.WorkerOwes(c.worker) && f in C.Frames(c.queue))
    ensures !(f in C.WorkerOwes(c.worker) && f in C.ClientOwes(c.client))
    ensures !(f in C.Frames(c.queue) && f in C.ClientOwes(c.client))
  {
    assert A.Balanced(c, f);
    A.OwedOnce(c, f);
    A.CountMember(C.WorkerOwes(c.worker), f);
    A.CountMember(C.Frames(c.queue), f);
    A.CountMember(C.ClientOwes(c.client), f);
  }

  // ---------------------------------------------------------------- steps of the capture

  /** No frame that is being made is outstanding. */
  lemma {:induction false} BuildingApart(s: System)
    requires A.Accounting(s.capture) && Making(s)
    ensures forall f :: f in OfBuilding(s.building) ==>
              f !in TwoOf(OfWorker(s)) + TwoOf(s.capture.queue) + TwoOf(OfClient(s.capture.client))
  {
    forall f | f in OfBuilding(s.building)
      ensures f !in TwoOf(OfWorker(s)) + TwoOf(s.capture.queue) + TwoOf(OfClient(s.capture.client))
    {
      if f in TwoOf(OfWorker(s)) + TwoOf(s.capture.queue) + TwoOf(OfClient(s.capture.client)) {
        HolderIsSubmitted(s, f);
      }
    }
  }

  /** The worker's request has its slot alone. */
  lemma {:induction false} WorkerApart(s: System)
    requires A.Accounting(s.capture) && Making(s) && s.capture.worker.Working?
    ensures var f := s.capture.worker.req.frame;
            && f !in TwoOf(s.capture.queue) && f !in TwoOf(OfClient(s.capture.client))
            && f !in OfBuilding(s.building)
  {
    var f := s.capture.worker.req.frame;
    OwedInOnePlace(s.capture, f);
    if f in TwoOf(s.capture.queue) { TwoOfFrames(s.capture.queue, f); }
    if f in TwoOf(OfClient(s.capture.client)) {
      TwoOfFrames(OfClient(s.capture.client), f);
      ClientFrames(s.capture.client, f);
    }
    WorkerSubmitted(s);
  }

  lemma {:induction false} ClientFrames(c: C.Client, f: Frame)
    requires f in C.Frames(OfClient(c))
    ensures f in C.ClientOwes(c)
  {
  }

  lemma {:induction false} WorkerSubmitted(s: System)
    requires A.Accounting(s.capture) && Making(s) && s.capture.worker.Working?
    ensures s.capture.worker.req.frame in s.capture.submitted
  {
    var c, f := s.capture, s.capture.worker.req.frame;
    assert A.Balanced(c, f);
    A.CountMember(c.submitted, f);
    A.CountMember(C.Pending(c), f);
    assert f in C.WorkerOwes(c.worker);
    assert f in C.Pending(c);
  }

  /** What the client has taken has its slots apart from the others. */
  lemma {:induction false} ClientApart(s: System, f: Frame)
    requires A.Accounting(s.capture) && Making(s) && f in TwoOf(OfClient(s.capture.client))
    ensures f !in TwoOf(OfWorker(s)) && f !in TwoOf(s.capture.queue) && f !in OfBuilding(s.building)
  {
    TwoOfFrames(OfClient(s.capture.client), f);
    ClientFrames(s.capture.client, f);
    OwedInOnePlace(s.capture, f);
    if f in TwoOf(s.capture.queue) { TwoOfFrames(s.capture.queue, f); }
    if f in TwoOf(OfWorker(s)) { TwoOfOne(s.capture.worker.req); }
    BuildingApart(s);
  }

  /** Each step of the capture takes exactly what it gives up from the holders. */
  lemma {:induction false} CaptureHolders(s: System, step: C.Step)
    requires A.Accounting(s.capture) && Making(s) && Enabled(s, Capture(step))
    ensures Holders(Apply(s, Capture(step))) == Holders(s) - GivenUp(s, step)
  {
    match step
    case Record(req) => RecordHolders(s, req);
    case Enqueue => EnqueueHolders(s);
    case WorkerTake => TakeHolders(s);
    case WorkerErase(kind) => EraseHolders(s, kind);
    case FlushErase => FlushEraseHolders(s);
    case OfflinePartition(_, _) => PartitionHolders(s, step);
    case FlushTake(_) => DrainHolders(s, step);
    case OfflineTake => DrainHolders(s, step);
    case _ => QuietHolders(s, step);
  }

  lemma {:induction false} RecordHolders(s: System, req: C.Request)
    requires Enabled(s, Capture(C.Record(req)))
    ensures Holders(Apply(s, Capture(C.Record(req)))) == Holders(s)
  {
    TwoOfOne(req);
    TwoOfNone();
  }

  lemma {:induction false} EnqueueHolders(s: System)
    requires Enabled(s, Capture(C.Enqueue))
    ensures Holders(Apply(s, Capture(C.Enqueue))) == Holders(s)
  {
    TwoOfConcat(s.capture.queue, [s.capture.client.req]);
    TwoOfNone();
  }

  lemma {:induction false} TakeHolders(s: System)
    requires A.Accounting(s.capture) && Making(s) && Enabled(s, Capture(C.WorkerTake))
    ensures Holders(Apply(s, Capture(C.WorkerTake))) == Holders(s)
  {
    var q := s.capture.queue;
    TwoOfConcat([q[0]], q[1..]);
    assert q == [q[0]] + q[1..];
    TwoOfNone();
  }

  lemma {:induction false} EraseHolders(s: System, kind: C.Kind)
    requires A.Accounting(s.capture) && Making(s) && Enabled(s, Capture(C.WorkerErase(kind)))
    ensures Holders(Apply(s, Capture(C.WorkerErase(kind))))
         == Holders(s) - GivenUp(s, C.WorkerErase(kind))
  {
    EraseParts(s, kind);
    WorkerApart(s);
    TwoOfOne(s.capture.worker.req);
    TwoOfNone();
  }

  lemma {:induction false} EraseParts(s: System, kind: C.Kind)
    requires Enabled(s, Capture(C.WorkerErase(kind)))
    ensures var t := Apply(s, Capture(C.WorkerErase(kind)));
            && OfWorker(t) == [] && t.capture.queue == s.capture.queue
            && t.building == s.building && t.capture.client == s.capture.client
            && OfWorker(s) == if s.returned then [] else [s.capture.worker.req]
  {
  }

  lemma {:induction false} FlushEraseHolders(s: System)
    requires A.Accounting(s.capture) && Making(s) && Enabled(s, Capture(C.FlushErase))
    ensures Holders(Apply(s, Capture(C.FlushErase))) == Holders(s) - GivenUp(s, C.FlushErase)
  {
    FlushEraseParts(s);
    HeadApart(s);
  }

  lemma {:induction false} FlushEraseParts(s: System)
    requires Enabled(s, Capture(C.FlushErase))
    ensures var t, taken := Apply(s, Capture(C.FlushErase)), s.capture.client.taken;
            && OfWorker(t) == OfWorker(s) && t.capture.queue == s.capture.queue
            && t.building == s.building
            && OfClient(s.capture.client) == taken && OfClient(t.capture.client) == taken[1..]
  {
  }

  lemma {:induction false} HeadApart(s: System)
    requires A.Accounting(s.capture) && Making(s) && C.Enabled(s.capture, C.FlushErase)
    ensures var taken := s.capture.client.taken;
            && TwoOf(taken) == TwoOf([taken[0]]) + TwoOf(taken[1..])
            && forall f :: f in TwoOf([taken[0]]) ==>
                 && f !in TwoOf(OfWorker(s)) && f !in TwoOf(s.capture.queue)
                 && f !in OfBuilding(s.building) && f !in TwoOf(taken[1..])
  {
    var taken := s.capture.client.taken;
    TwoOfConcat([taken[0]], taken[1..]);
    assert taken == [taken[0]] + taken[1..];
    TwoOfOne(taken[0]);
    var f := taken[0].frame;
    if Two(taken[0]) {
      ClientApart(s, f);
      A.HeadIsApart(s.capture);
      if f in TwoOf(taken[1..]) { TwoOfFrames(taken[1..], f); }
    }
  }

  lemma {:induction false} PartitionHolders(s: System, step: C.Step)
    requires A.Accounting(s.capture) && Making(s) && Enabled(s, Capture(step))
    requires step.OfflinePartition?
    ensures Holders(Apply(s, Capture(step))) == Holders(s) - GivenUp(s, step)
  {
    PartitionParts(s, step);
    forall f | f in TwoOf(s.capture.client.taken)
      ensures f !in TwoOf(OfWorker(s)) && f !in TwoOf(s.capture.queue) && f !in OfBuilding(s.building)
    {
      ClientApart(s, f);
    }
    TwoOfNone();
  }

  lemma {:induction false} PartitionParts(s: System, step: C.Step)
    requires Enabled(s, Capture(step)) && step.OfflinePartition?
    ensures var t := Apply(s, Capture(step));
            && OfWorker(t) == OfWorker(s) && t.capture.queue == s.capture.queue
            && t.building == s.building && OfClient(t.capture.client) == []
            && OfClient(s.capture.client) == s.capture.client.taken
  {
  }

  lemma {:induction false} DrainHolders(s: System, step: C.Step)
    requires Enabled(s, Capture(step)) && (step.FlushTake? || step.OfflineTake?)
    ensures Holders(Apply(s, Capture(step))) == Holders(s)
  {
    TwoOfNone();
  }

  predicate Quiet(step: C.Step) {
    && !step.Record? && !step.Enqueue? && !step.WorkerTake? && !step.WorkerErase?
    && !step.FlushErase? && !step.OfflinePartition? && !step.FlushTake? && !step.OfflineTake?
  }

  predicate SameParts(s: System, t: System) {
    && OfWorker(t) == OfWorker(s) && t.capture.queue == s.capture.queue
    && t.building == s.building && OfClient(t.capture.client) == OfClient(s.capture.client)
  }

  lemma {:induction false} QuietHolders(s: System, step: C.Step)
    requires Making(s) && Enabled(s, Capture(step)) && Quiet(step)
    ensures Holders(Apply(s, Capture(step))) == Holders(s) && GivenUp(s, step) == {}
  {
    if step.FlushDeliver? || step.FlushEnd? || step.Join? {
      QuietFlush(s, step);
    } else if step.FlushWake? || step.FlushTimeout? || step.OfflineWake? || step.OfflineTimeout? {
      QuietWait(s, step);
    } else if step.ReportEarly? || step.ReportLate? {
      QuietReport(s, step);
    } else {
      QuietWorker(s, step);
    }
  }

  lemma {:induction false} QuietFlush(s: System, step: C.Step)
    requires Enabled(s, Capture(step)) && (step.FlushDeliver? || step.FlushEnd? || step.Join?)
    ensures SameParts(s, Apply(s, Capture(step)))
  {
  }

  lemma {:induction false} QuietWait(s: System, step: C.Step)
    requires Enabled(s, Capture(step))
    requires step.FlushWake? || step.FlushTimeout? || step.OfflineWake? || step.OfflineTimeout?
    ensures SameParts(s, Apply(s, Capture(step)))
  {
  }

  lemma {:induction false} QuietReport(s: System, step: C.Step)
    requires Enabled(s, Capture(step)) && (step.ReportEarly? || step.ReportLate?)
    ensures SameParts(s, Apply(s, Capture(step)))
  {
  }

  lemma {:induction false} QuietWorker(s: System, step: C.Step)
    requires Enabled(s, Capture(step))
    requires step.WorkerDeliver? || step.WorkerSignal? || step.WorkerExit?
    ensures SameParts(s, Apply(s, Capture(step)))
  {
  }

  // ---------------------------------------------------------------- every run

  /** Every call of setGrallocBufferStatus finds its request holding the slot that it returns. */
  lemma {:induction false} GuardHolds(s: System, step: Step)
    requires A.Accounting(s.capture) && Holding(s) && Making(s) && Enabled(s, step)
    requires step == Trigger(false) || step.WorkerReturn?
    ensures var f := Returning(s, step);
            && f in s.pool.held && s.pool.held[f] == IndexOf(s, f)
            && Apply(s, step).pool == P.Apply(s.pool, P.Return(f))
            && Holders(Apply(s, step)) == Holders(s) - {f}
  {
    if step.WorkerReturn? { WorkerGuard(s); } else { TriggerGuard(s); }
  }

  /** Whose slot a step returns. */
  function Returning(s: System, step: Step): Frame
    requires Enabled(s, step) && (step == Trigger(false) || step.WorkerReturn?)
  {
    if step.WorkerReturn? then s.capture.worker.req.frame else s.building.frame
  }

  lemma {:induction false} WorkerGuard(s: System)
    requires A.Accounting(s.capture) && Holding(s) && Making(s) && Enabled(s, WorkerReturn)
    ensures var f := s.capture.worker.req.frame;
            && f in s.pool.held && s.pool.held[f] == IndexOf(s, f)
            && Holders(Apply(s, WorkerReturn)) == Holders(s) - {f}
  {
    WorkerApart(s);
    TwoOfOne(s.capture.worker.req);
    TwoOfNone();
    var t := Apply(s, WorkerReturn);
    assert OfWorker(s) == [s.capture.worker.req] && OfWorker(t) == [];
    assert t.capture == s.capture && t.building == s.building;
  }

  lemma {:induction false} TriggerGuard(s: System)
    requires A.Accounting(s.capture) && Holding(s) && Making(s) && Enabled(s, Trigger(false))
    ensures var f := s.building.frame;
            && f in s.pool.held && s.pool.held[f] == IndexOf(s, f)
            && Holders(Apply(s, Trigger(false))) == Holders(s) - {f}
  {
    BuildingApart(s);
    var t := Apply(s, Trigger(false));
    assert t.capture == s.capture && OfWorker(t) == OfWorker(s) && OfBuilding(t.building) == {};
  }

  /** A claim is made for a request that holds none. */
  lemma {:induction false} ClaimIsFresh(s: System, step: Step)
    requires Inv(s) && Enabled(s, step) && step.Claim?
    ensures step.frame !in s.pool.held
    ensures P.Enabled(s.pool, P.Claim(step.frame, step.size, step.newHandle, step.allocOk))
  {
    var f := step.frame;
    if f in s.pool.held { HolderIsSubmitted(s, f); }
  }

  lemma {:induction false} PoolNext(p: P.Pool, step: P.Step)
    requires P.Inv(p) && P.Reachable(p) && P.Enabled(p, step)
    ensures P.Inv(P.Apply(p, step)) && P.Reachable(P.Apply(p, step))
  {
    P.InvStep(p, step);
    assert P.Next(p, P.Apply(p, step));
    Runs.RunOn(p, P.Apply(p, step), P.Init, P.Next);
  }

  lemma {:induction false} CaptureNext(c: C.State, step: C.Step)
    requires O.Inv(c) && C.Reachable(c) && C.Enabled(c, step)
    ensures O.Inv(C.Apply(c, step)) && C.Reachable(C.Apply(c, step))
  {
    O.InvStep(c, step);
    assert C.Next(c, C.Apply(c, step));
    Runs.RunOn(c, C.Apply(c, step), C.Init, C.Next);
  }

  lemma {:induction false} InvPick(s: System)
    requires Inv(s) && Enabled(s, Pick)
    ensures Inv(Apply(s, Pick))
  {
    PoolNext(s.pool, P.Pick);
    var t := Apply(s, Pick);
    assert t.pool.held == s.pool.held && SameParts(s, t) && t.index == s.index;
  }

  lemma {:induction false} InvTrigger(s: System)
    requires Inv(s) && Enabled(s, Trigger(true))
    ensures Inv(Apply(s, Trigger(true)))
  {
    var t := Apply(s, Trigger(true));
    assert t.pool == s.pool && t.capture == s.capture && t.index == s.index;
    assert OfWorker(t) == OfWorker(s) && OfBuilding(t.building) == OfBuilding(s.building);
    assert Holders(t) == Holders(s);
    assert Holding(t) && Making(t) && Parts(t);
  }

  lemma {:induction false} InvClaim(s: System, step: Step)
    requires Inv(s) && Enabled(s, step) && step.Claim?
    ensures Inv(Apply(s, step))
  {
    ClaimIsFresh(s, step);
    PoolNext(s.pool, P.Claim(step.frame, step.size, step.newHandle, step.allocOk));
    ClaimHolding(s, step);
    ClaimParts(s, step);
  }

  lemma {:induction false} ClaimParts(s: System, step: Step)
    requires Enabled(s, step) && step.Claim? && step.frame !in s.pool.held
    ensures var t := Apply(s, step);
            && t.capture == s.capture
            && t.pool == P.Apply(s.pool, P.Claim(step.frame, step.size, step.newHandle,
                                                 step.allocOk))
  {
  }

  lemma {:induction false} ClaimHolding(s: System, step: Step)
    requires Holding(s) && Making(s) && Enabled(s, step) && step.Claim?
    requires step.frame !in s.pool.held
    ensures Holding(Apply(s, step)) && Making(Apply(s, step))
  {
    var t := Apply(s, step);
    assert t.capture == s.capture && OfWorker(t) == OfWorker(s);
    if t.building.Claimed? {
      assert Holders(t) == Holders(s) + {step.frame};
      assert t.pool.held == s.pool.held[step.frame := s.pool.picked.i];
    } else {
      assert t.pool.held == s.pool.held;
    }
  }

  lemma {:induction false} InvReturn(s: System, step: Step)
    requires Inv(s) && Enabled(s, step) && (step == Trigger(false) || step.WorkerReturn?)
    ensures Inv(Apply(s, step))
  {
    GuardHolds(s, step);
    PoolNext(s.pool, P.Return(Returning(s, step)));
    ReturnRest(s, step);
  }

  lemma {:induction false} ReturnRest(s: System, step: Step)
    requires Making(s) && Enabled(s, step) && (step == Trigger(false) || step.WorkerReturn?)
    ensures var t := Apply(s, step);
            && t.capture == s.capture && t.index == s.index && Making(t)
            && t.pool.held == s.pool.held - {Returning(s, step)}
  {
  }

  lemma {:induction false} InvSubmit(s: System)
    requires Inv(s) && Enabled(s, Submit)
    ensures Inv(Apply(s, Submit))
  {
    CaptureNext(s.capture, C.Record(BuiltRequest(s.building)));
    SubmitHolding(s);
  }

  lemma {:induction false} SubmitHolding(s: System)
    requires Holding(s) && Making(s) && Enabled(s, Submit)
    ensures Holding(Apply(s, Submit)) && Making(Apply(s, Submit))
  {
    var t, req := Apply(s, Submit), BuiltRequest(s.building);
    TwoOfOne(req);
    TwoOfNone();
    assert OfWorker(t) == OfWorker(s) && t.capture.queue == s.capture.queue;
    assert OfClient(t.capture.client) == [req] && OfClient(s.capture.client) == [];
  }

  lemma {:induction false} InvCapture(s: System, step: C.Step)
    requires Inv(s) && Enabled(s, Capture(step))
    ensures Inv(Apply(s, Capture(step)))
  {
    CaptureNext(s.capture, step);
    CaptureHolders(s, step);
    PoolNext(s.pool, P.Abandon(GivenUp(s, step)));
    CaptureParts(s, step);
    CaptureKeepsRest(s, step);
  }

  lemma {:induction false} CaptureParts(s: System, step: C.Step)
    requires Enabled(s, Capture(step))
    ensures var t := Apply(s, Capture(step));
            && t.capture == C.Apply(s.capture, step) && t.index == s.index
            && t.pool == P.Apply(s.pool, P.Abandon(GivenUp(s, step)))
            && t.pool.held == s.pool.held - GivenUp(s, step)
  {
  }

  lemma {:induction false} CaptureKeepsRest(s: System, step: C.Step)
    requires Making(s) && Enabled(s, Capture(step))
    ensures Making(Apply(s, Capture(step)))
  {
    if !s.building.Nobody? { IdleStays(s.capture, step); }
    if s.returned && !step.WorkerErase? { WorkingStays(s.capture, step); }
  }

  /** While a request is being made the client starts no call. */
  lemma {:induction false} IdleStays(c: C.State, step: C.Step)
    requires c.client.Idle? && C.Enabled(c, step)
    requires !step.Record? && !step.FlushTake? && !step.OfflineTake?
    ensures C.Apply(c, step).client.Idle? && C.Apply(c, step).submitted == c.submitted
  {
  }

  lemma {:induction false} WorkingStays(c: C.State, step: C.Step)
    requires c.worker.Working? && C.Enabled(c, step) && !step.WorkerErase?
    ensures var w := C.Apply(c, step).worker; w.Working? && w.req == c.worker.req
  {
  }

  lemma {:induction false} InvStep(s: System, step: Step)
    requires Inv(s) && Enabled(s, step)
    ensures Inv(Apply(s, step))
  {
    match step
    case Pick => InvPick(s);
    case Claim(_, _, _, _) => InvClaim(s, step);
    case Trigger(ok) => if ok { InvTrigger(s); } else { InvReturn(s, step); }
    case Submit => InvSubmit(s);
    case WorkerReturn => InvReturn(s, step);
    case Capture(step) => InvCapture(s, step);
  }

  lemma {:induction false} InvReachable(s: System)
    requires Reachable(s)
    ensures Inv(s)
  {
    Runs.InitReachable(C.Init, C.Next);
    Runs.InitReachable(P.Init, P.Next);
    O.InvInit();
    TwoOfNone();
    forall a, b | Inv(a) && Next(a, b) ensures Inv(b) {
      var step :| Enabled(a, step) && b == Apply(a, step);
      InvStep(a, step);
    }
    Runs.Invariant(s, Init, Next, Inv);
  }

  // ---------------------------------------------------------------- the promises

  /** In every run: each call of setGrallocBufferStatus is made for a request that holds a slot,
      with the index of that slot, which is dequeued. */
  lemma {:induction false} ReturnsMeetTheGuard(s: System, step: Step)
    requires Reachable(s) && Enabled(s, step) && (step == Trigger(false) || step.WorkerReturn?)
    ensures var f := Returning(s, step);
            && f in s.pool.held && s.pool.held[f] == IndexOf(s, f)
            && s.pool.slots[IndexOf(s, f)].status == P.Dequeued
  {
    InvReachable(s);
    GuardHolds(s, step);
  }

  /** The holders are exactly the outstanding two-output requests with status true that the worker
      has not yet returned the slot of, and the one being made. */
  lemma {:induction false} HoldersExactly(s: System, f: Frame)
    requires Reachable(s)
    ensures f in s.pool.held <==> f in Holders(s)
    ensures f in s.pool.held ==> s.pool.held[f] == IndexOf(s, f)
  {
    InvReachable(s);
  }

  /** Two of them hold different slots, each dequeued. */
  lemma {:induction false} OutstandingNeverShare(s: System, f: Frame, g: Frame)
    requires Reachable(s) && f in Holders(s) && g in Holders(s) && f != g
    ensures IndexOf(s, f) != IndexOf(s, g)
    ensures s.pool.slots[IndexOf(s, f)].status == P.Dequeued
    ensures s.pool.slots[IndexOf(s, f)].handle != s.pool.slots[IndexOf(s, g)].handle
  {
    HoldersExactly(s, f);
    HoldersExactly(s, g);
    InvReachable(s);
    P.SlotsNeverShared(s.pool, f, g);
  }

  /** Once a submitted request holds no slot it never does again: with the guard, its slot is
      returned at most once. */
  lemma {:induction false} ReturnedAtMostOnce(s: System, f: Frame, step: Step)
    requires Reachable(s) && Enabled(s, step) && f in s.capture.submitted && f !in s.pool.held
    ensures f !in Apply(s, step).pool.held
    ensures step == Trigger(false) || step.WorkerReturn? ==> Returning(s, step) != f
  {
    InvReachable(s);
    if step == Trigger(false) || step.WorkerReturn? {
      GuardHolds(s, step);
    } else {
      NoneHeldAnew(s, step, f);
    }
  }

  lemma {:induction false} NoneHeldAnew(s: System, step: Step, f: Frame)
    requires Enabled(s, step) && f in s.capture.submitted && f !in s.pool.held
    ensures f !in Apply(s, step).pool.held
  {
  }

  /** Every run of the system is a run of the capture protocol and one of the pool. */
  lemma {:induction false} BothRun(s: System)
    requires Reachable(s)
    ensures C.Reachable(s.capture) && P.Reachable(s.pool)
  {
    InvReachable(s);
  }
}
