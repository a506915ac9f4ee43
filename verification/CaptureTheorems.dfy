/** The promises of the capture pipeline, for every reachable state of the protocol. */
module CaptureTheorems {
  import Runs
  import opened CaptureProtocol
  import opened CaptureProofs
  import opened CaptureOrder

  // ---------------------------------------------------------------- every frame once

  /** Every accepted request is answered once, pending once, handed over once or lost once; and
      nothing else is ever answered. */
  lemma {:induction false} ExactlyOnce(s: State, f: Frame)
    requires Reachable(s)
    ensures Count(Answered(s.answers), f) + Count(Pending(s), f)
            + Count(s.handedOver, f) + Count(s.lost, f)
            == if f in s.submitted then 1 else 0
  {
    InvReachable(s);
    assert Balanced(s, f);
    CountMember(s.submitted, f);
  }

  /** A switch keeps some request for an offline session that fails to initialise. */
  ghost predicate FailedSwitch(s: State, t: State) {
    exists step :: Enabled(s, step) && t == Apply(s, step) && Fails(s, step)
  }

  predicate Fails(s: State, step: Step)
    requires Enabled(s, step)
  {
    step.OfflinePartition? && !step.init && Split(s.client.taken, step.keep, true) != []
  }

  /** Every accepted request is answered, pending or handed over, once, exactly when no such
      switch has happened in the run. */
  lemma {:induction false} NoneLostExactly(run: seq<State>, s: State)
    requires Runs.Run(run, Init, Next) && run[|run| - 1] == s
    ensures (forall f ::
               Count(Answered(s.answers), f) + Count(Pending(s), f) + Count(s.handedOver, f)
               == if f in s.submitted then 1 else 0)
       <==> forall i, j :: 0 <= i && j == i + 1 < |run| ==> !FailedSwitch(run[i], run[j])
  {
    assert Reachable(s);
    LostInRun(run);
    if s.lost == [] {
      forall f
        ensures Count(Answered(s.answers), f) + Count(Pending(s), f) + Count(s.handedOver, f)
                == if f in s.submitted then 1 else 0
      {
        ExactlyOnce(s, f);
      }
    } else {
      var f := s.lost[0];
      ExactlyOnce(s, f);
      CountMember(s.lost, f);
    }
  }

  lemma {:induction false} LostInRun(run: seq<State>)
    requires Runs.Run(run, Init, Next)
    ensures run[|run| - 1].lost == []
       <==> forall i, j :: 0 <= i && j == i + 1 < |run| ==> !FailedSwitch(run[i], run[j])
    decreases |run|
  {
    var n := |run| - 1;
    if n > 0 {
      var init := run[..n];
      assert Runs.Run(init, Init, Next);
      LostInRun(init);
      assert Next(run[n - 1], run[n]);
      LostByStep(run[n - 1], run[n]);
      if run[n].lost == [] {
        forall i, j | 0 <= i && j == i + 1 < |run| ensures !FailedSwitch(run[i], run[j]) {
          if j < n { assert init[i] == run[i] && init[j] == run[j]; }
        }
      } else if run[n - 1].lost != [] {
        var i, j :| 0 <= i && j == i + 1 < |init| && FailedSwitch(init[i], init[j]);
        assert run[i] == init[i] && run[j] == init[j];
      }
    }
  }

  lemma {:induction false} LostByStep(s: State, t: State)
    requires Next(s, t)
    ensures t.lost == [] <==> s.lost == [] && !FailedSwitch(s, t)
  {
    forall step | Enabled(s, step) && t == Apply(s, step)
      ensures t.lost == [] <==> s.lost == [] && !Fails(s, step)
    {
      if step.OfflinePartition? {
        PartitionMoves(s, step);
        FramesNone(Split(s.client.taken, step.keep, true));
      } else {
        NobodyGoes(s, step);
      }
    }
  }

  // ---------------------------------------------------------------- the record

  /** The frame is pending but its record is gone: its report is being delivered or outstanding,
      or an offline switch cleared the record. */
  predicate Unrecorded(s: State, f: Frame) {
    || f in Reported(s)
    || (s.worker.Delivering? && s.worker.req.frame == f)
    || (s.worker.Working? && !s.worker.recorded && s.worker.req.frame == f)
    || (s.client.FlushAnswer? && s.client.erased && s.client.taken != []
        && s.client.taken[0].frame == f)
  }

  /** mInflightFrames is exactly the pending frames, less those whose record is gone, and the lost
      ones that no later switch has cleared. */
  lemma {:induction false} InflightExactly(s: State, f: Frame)
    requires Reachable(s)
    ensures f in s.inflight <==> (f in Pending(s) && !Unrecorded(s, f)) || f in s.stuck
    ensures !(f in Pending(s) && f in s.stuck)
  {
    InvReachable(s);
    assert Balanced(s, f);
    RecordedExactly(s, f);
    CountMember(Pending(s), f);
    CountMember(s.lost, f);
  }

  lemma {:induction false} RecordedExactly(s: State, f: Frame)
    requires Balanced(s, f)
    ensures f in Recorded(s) <==> f in Pending(s) && !Unrecorded(s, f)
  {
    OnePlace(s, f);
    if s.client.FlushAnswer? && s.client.taken != [] {
      var taken := s.client.taken;
      OwedOnce(s, f);
      CountCons(taken[0].frame, Frames(taken[1..]), f);
      CountMember(Frames(taken[1..]), f);
    }
  }

  /** A pending frame is owed in one place. */
  lemma {:induction false} OnePlace(s: State, f: Frame)
    requires Balanced(s, f)
    ensures var w, q, c := WorkerOwes(s.worker), Frames(s.queue), ClientOwes(s.client);
            && (f in Pending(s) <==> f in w || f in q || f in c || f in Reported(s))
            && !(f in w && f in q) && !(f in w && f in c) && !(f in q && f in c)
            && (f in Reported(s) ==> f !in w && f !in q && f !in c)
  {
    var w, q, c := WorkerOwes(s.worker), Frames(s.queue), ClientOwes(s.client);
    CountConcat(Owed(s), q + c, f);
    CountConcat(q, c, f);
    CountConcat(Flat(s.early) + w, Flat(s.late), f);
    CountConcat(Flat(s.early), w, f);
    CountMember(w, f);
    CountMember(q, f);
    CountMember(c, f);
    CountMember(Flat(s.early), f);
    CountMember(Flat(s.late), f);
  }

  /** The record holds pending frames only, exactly when no lost frame is left in it. */
  lemma {:induction false} RecordIsPendingExactly(s: State)
    requires Reachable(s)
    ensures (forall f :: f in s.inflight <==> f in Pending(s) && !Unrecorded(s, f))
       <==> s.stuck == []
  {
    forall f
      ensures f in s.inflight <==> (f in Pending(s) && !Unrecorded(s, f)) || f in s.stuck
      ensures !(f in Pending(s) && f in s.stuck)
    {
      InflightExactly(s, f);
    }
    if s.stuck != [] {
      assert s.stuck[0] in s.stuck;
      assert s.stuck[0] in s.inflight;
    }
  }

  /** A failed switch that keeps a request leaves it in the record, until a later one succeeds. */
  lemma {:induction false} StuckByStep(s: State, step: Step)
    requires Enabled(s, step)
    ensures Apply(s, step).stuck == []
       <==> if step.OfflinePartition? && step.init then true else s.stuck == [] && !Fails(s, step)
  {
    if step.OfflinePartition? { FramesNone(Split(s.client.taken, step.keep, true)); }
  }

  lemma {:induction false} SomeElement(fs: seq<Frame>)
    ensures fs != [] ==> Elements(fs) != {}
  {
    if fs != [] { assert fs[0] in Elements(fs); }
  }

  /** When configureStreams finds no frame in flight, nothing is queued and nothing stuck. The
      frames still without an answer are those of outstanding reports and one whose record the
      worker has erased to report it, or that an offline switch left behind: there are none
      exactly when no report is outstanding and the worker owes nothing. */
  lemma {:induction false} ConfigureFindsNoRequest(s: State)
    requires Reachable(s) && s.client.Idle? && s.inflight == {}
    ensures s.queue == [] && s.stuck == [] && Pending(s) == Owed(s)
    ensures s.worker.Working? ==> !s.worker.recorded
    ensures Pending(s) == []
       <==> Reported(s) == [] && !s.worker.Working? && !s.worker.Delivering?
  {
    InvReachable(s);
    assert Elements(Frames(s.queue)) <= Recorded(s);
    SomeElement(Frames(s.queue));
    SomeElement(s.stuck);
    assert Owed(s) + ([] + []) == Owed(s);
  }

  /** With a lost frame in the record every configuration is refused. */
  lemma {:induction false} StuckRefusesConfigure(s: State)
    requires Reachable(s) && s.stuck != []
    ensures s.inflight != {}
  {
    InflightExactly(s, s.stuck[0]);
  }

  /** After close the only frames without an answer are those of outstanding reports and the lost
      ones, and the record holds those of the lost that no switch has cleared. */
  lemma {:induction false} CloseLeavesExactly(s: State, f: Frame)
    requires Reachable(s) && s.client.Closed?
    ensures Pending(s) == Reported(s) && s.inflight == Elements(s.stuck)
    ensures f in s.submitted ==>
              (Count(Answered(s.answers), f) + Count(s.handedOver, f) == 1
               <==> f !in Reported(s) && f !in s.lost)
  {
    InvReachable(s);
    var e, l := Flat(s.early), Flat(s.late);
    assert e + [] + l + ([] + []) == e + l;
    ExactlyOnce(s, f);
    CountMember(Pending(s), f);
    CountMember(s.lost, f);
  }

  /** So nothing is left at all exactly when every report has been made and nothing is stuck. */
  lemma {:induction false} CloseLeavesNothingExactly(s: State)
    requires Reachable(s) && s.client.Closed?
    ensures Pending(s) == [] && s.inflight == {} <==> Reported(s) == [] && s.stuck == []
  {
    CloseLeavesExactly(s, 0);
    SomeElement(s.stuck);
  }

  // ---------------------------------------------------------------- the order

  /** The answers come out in submission order exactly when none has been given while an older
      frame was owed: by an outstanding report, or, for a flush or a report, by the worker. */
  lemma {:induction false} OrderExactly(s: State)
    requires Reachable(s)
    ensures InOrder(s) <==> s.inversion.NoInversion?
  {
    InvReachable(s);
    if s.inversion.Overtaken? {
      InversionBreaksOrder(s, s.inversion.older, s.inversion.younger);
    }
  }

  /** Which answers those are. */
  lemma {:induction false} OvertakesExactly(s: State, step: Step)
    requires Reachable(s) && s.inversion.NoInversion? && Enabled(s, step)
    ensures Apply(s, step).inversion.Overtaken? <==>
              match step
              case WorkerDeliver => Flat(s.early) != []
              case FlushDeliver => Reported(s) != [] || WorkerOwes(s.worker) != []
              case ReportEarly(k) => s.early[k] != [] && Flat(s.early[..k]) != []
              case ReportLate(k) =>
                && s.late[k] != []
                && (Flat(s.early) != [] || Flat(s.late[..k]) != [] || WorkerOwes(s.worker) != [])
              case _ => false
  {
    InversionStep(s, step);
    match step
    case ReportEarly(k) => FramesNone(s.early[k]);
    case ReportLate(k) => FramesNone(s.late[k]);
    case _ =>
  }

  lemma {:induction false} InversionBreaksOrder(s: State, o: Frame, y: Frame)
    requires Balance(s) && Inverted(s, o, y)
    ensures !InOrder(s)
  {
    var w := Stayed(s);
    var k :| 0 <= k < |Answered(s.answers)| && Answered(s.answers)[k] == y
             && o !in Answered(s.answers)[..k];
    if InOrder(s) {
      assert w[k] == y && w[..k] == Answered(s.answers)[..k];
      assert Balanced(s, o) && Balanced(s, y);
      OlderComesFirst(s.submitted, s.handedOver + s.lost, o, y, k);
    }
  }

  /** In the accepted frames that stayed online, a frame stands before every younger one. */
  lemma {:induction false} OlderComesFirst(fs: seq<Frame>, gone: seq<Frame>,
                                           a: Frame, b: Frame, k: nat)
    requires Before(fs, a, b) && Count(fs, a) <= 1 && Count(fs, b) <= 1 && a !in gone
    requires k < |Without(fs, gone)| && Without(fs, gone)[k] == b
    ensures a in Without(fs, gone)[..k]
  {
    var w := Without(fs, gone);
    WithoutMember(fs, gone, a);
    var i, j :| 0 <= i < j < |fs| && fs[i] == a && fs[j] == b;
    assert fs[i] in fs;
    var m :| 0 <= m < |w| && w[m] == a;
    if m < k {
      assert w[..k][m] == a;
    } else if m == k {
      UniqueIndex(fs, i, j);
    } else {
      WithoutOrder(fs, gone, k, m);
      var x, y :| 0 <= x < y < |fs| && fs[x] == b && fs[y] == a;
      UniqueIndex(fs, x, j);
      UniqueIndex(fs, y, i);
    }
  }

  /** With every wait ended by its signal, and no request submitted while a dropped one is still
      unreported, the answers are a prefix of the accepted frames that stayed, in order. */
  lemma {:induction false} PromptRunsKeepOrder(s: State)
    requires Reachable(s) && !s.timedOut && !s.hasty
    ensures Answered(s.answers) <= Stayed(s)
  {
    InvReachable(s);
    assert InOrder(s);
  }

  /** The worker answers nothing after a device error, and there is at most one. */
  lemma {:induction false} DeviceErrorStopsWorker(s: State, i: nat)
    requires Reachable(s) && i < |s.answers| && s.answers[i].kind == DeviceError
    ensures s.worker.Stopped? || (s.worker.Delivered? && s.worker.stop)
    ensures forall j :: i < j < |s.answers| ==> s.answers[j].kind == RequestError
    ensures forall j :: 0 <= j < |s.answers| && s.answers[j].kind == DeviceError ==> j == i
  {
    InvReachable(s);
  }

  // ---------------------------------------------------------------- progress

  function WorkerRank(w: Worker): nat {
    match w
    case Stopped => 0
    case Ready => 1
    case Delivered(_) => 2
    case Delivering(_, _) => 3
    case Working(_, _) => 4
  }

  function ClientRank(c: Client): nat {
    match c
    case Idle => 0
    case Closed => 0
    case Joining => 1
    case Submitting(_) => 5
    case FlushWait(taken, _) => 4 + 2 * |taken|
    case FlushAnswer(taken, erased, _) => 3 + 2 * |taken| - (if erased then 1 else 0)
    case OfflineWait(_) => 4
    case OfflineTaken(_) => 3
  }

  /** A bound on the steps that can still happen before a new client call. */
  function Rank(s: State): nat {
    WorkerRank(s.worker) + 4 * |s.queue| + ClientRank(s.client) + |s.early| + |s.late|
  }

  predicate StartsCall(step: Step) { step.Record? || step.FlushTake? || step.OfflineTake? }

  predicate IsTimeout(step: Step) { step.FlushTimeout? || step.OfflineTimeout? }

  /** Between client calls the protocol only runs down: no call can go on for ever. */
  lemma {:induction false} RankDecreases(s: State, step: Step)
    requires Enabled(s, step) && !StartsCall(step)
    ensures Rank(Apply(s, step)) < Rank(s)
  {
    match step
    case Enqueue => CallRank(s, step);
    case FlushErase => CallRank(s, step);
    case FlushDeliver => CallRank(s, step);
    case FlushEnd => CallRank(s, step);
    case Join => CallRank(s, step);
    case FlushWake => WaitRank(s, step);
    case FlushTimeout => WaitRank(s, step);
    case OfflineWake => WaitRank(s, step);
    case OfflineTimeout => WaitRank(s, step);
    case OfflinePartition(_, _) => WaitRank(s, step);
    case _ => ThreadRank(s, step);
  }

  lemma {:induction false} CallRank(s: State, step: Step)
    requires Enabled(s, step)
    requires step.Enqueue? || step.FlushErase? || step.FlushDeliver? || step.FlushEnd? || step.Join?
    ensures Rank(Apply(s, step)) < Rank(s)
  {
  }

  lemma {:induction false} WaitRank(s: State, step: Step)
    requires Enabled(s, step)
    requires || step.FlushWake? || step.FlushTimeout? || step.OfflineWake? || step.OfflineTimeout?
             || step.OfflinePartition?
    ensures Rank(Apply(s, step)) < Rank(s)
  {
  }

  lemma {:induction false} ThreadRank(s: State, step: Step)
    requires Enabled(s, step)
    requires || step.WorkerTake? || step.WorkerErase? || step.WorkerDeliver? || step.WorkerSignal?
             || step.WorkerExit? || step.ReportEarly? || step.ReportLate?
    ensures Rank(Apply(s, step)) < Rank(s)
  {
  }

  /** A flush, close, offline switch or submission in progress is never stuck, even if no wait
      ever times out and no report is made. */
  lemma {:induction false} CallsNeverStick(s: State)
    requires Reachable(s) && !s.client.Idle? && !s.client.Closed?
    ensures exists step :: Enabled(s, step) && !StartsCall(step) && !IsTimeout(step)
              && !step.ReportEarly? && !step.ReportLate?
  {
    InvReachable(s);
    var step := ProgressStep(s);
    assert Enabled(s, step) && !StartsCall(step) && !IsTimeout(step);
  }

  function ProgressStep(s: State): (step: Step)
    requires Shape(s) && !s.client.Idle? && !s.client.Closed?
    ensures Enabled(s, step) && !StartsCall(step) && !IsTimeout(step)
    ensures !step.ReportEarly? && !step.ReportLate?
  {
    match s.client
    case Submitting(_) => Enqueue
    case FlushAnswer(taken, erased, _) =>
      if taken == [] then FlushEnd else if erased then FlushDeliver else FlushErase
    case OfflineTaken(_) => OfflinePartition({}, true)
    case c =>
      match s.worker
      case Working(req, _) => WorkerErase(if req.status then Good else RequestError)
      case Delivering(_, _) => WorkerDeliver
      case Delivered(_) => WorkerSignal
      case Ready =>
        if c.Joining? then WorkerExit else if c.FlushWait? then FlushWake else OfflineWake
      case Stopped =>
        if c.Joining? then Join else if c.FlushWait? then FlushWake else OfflineWake
  }

  // ---------------------------------------------------------------- runs worth knowing

  /** One more step of a run. */
  lemma {:induction false} RunOn(s: State, step: Step)
    requires Reachable(s) && Enabled(s, step)
    ensures Reachable(Apply(s, step))
  {
    assert Next(s, Apply(s, step));
    Runs.RunOn(s, Apply(s, step), Init, Next);
  }

  lemma {:induction false} InitReachable()
    ensures Reachable(Init)
  {
    Runs.InitReachable(Init, Next);
  }

  /** The first state with frame f submitted and queued after a state with an idle client. */
  lemma {:induction false} Submit(s: State, f: Frame) returns (t: State)
    requires Reachable(s) && s.client.Idle? && f !in s.submitted
    ensures Reachable(t)
    ensures t == s.(inflight := s.inflight + {f}, submitted := s.submitted + [f],
                    queue := s.queue + [Request(f, 1, true)],
                    hasty := s.hasty || Reported(s) != [])
  {
    var req := Request(f, 1, true);
    RunOn(s, Record(req));
    var a := Apply(s, Record(req));
    RunOn(a, Enqueue);
    t := Apply(a, Enqueue);
  }

  /** Frame 1 is under work. */
  lemma {:induction false} OneUnderWork() returns (s: State)
    ensures Reachable(s)
    ensures s == Init.(inflight := {1}, submitted := [1],
                       worker := Working(Request(1, 1, true), true))
  {
    InitReachable();
    var a := Submit(Init, 1);
    RunOn(a, WorkerTake);
    s := Apply(a, WorkerTake);
  }

  /** configureStreams can pass while the last result is still being delivered: the emptiness
      of the record does not mean that every frame has been answered. */
  lemma {:induction false} ConfigureDuringDelivery() returns (s: State)
    ensures Reachable(s) && s.client.Idle? && s.inflight == {} && Pending(s) == [1]
  {
    var a := OneUnderWork();
    RunOn(a, WorkerErase(Good));
    s := Apply(a, WorkerErase(Good));
    assert Frames(s.queue) == [];
  }

  /** Frame 2 has been taken by a flush whose wait timed out while frame 1 is under work. */
  lemma {:induction false} FlushTimedOut() returns (s: State)
    ensures Reachable(s) && s.submitted == [1, 2] && s.answers == [] && s.queue == []
    ensures s.worker == Working(Request(1, 1, true), true) && s.early == [] && s.late == []
    ensures s.client == FlushAnswer([Request(2, 1, true)], false, false)
    ensures s.handedOver == [] && s.lost == []
  {
    var a := OneUnderWork();
    var b := Submit(a, 2);
    RunOn(b, FlushTake(false));
    var c := Apply(b, FlushTake(false));
    RunOn(c, FlushTimeout);
    s := Apply(c, FlushTimeout);
  }

  /** The flush has answered frame 2, and the worker still owes frame 1. */
  lemma {:induction false} FlushReportedFirst() returns (s: State)
    ensures Reachable(s) && s.submitted == [1, 2] && s.queue == []
    ensures s.answers == [Answer(2, RequestError)] && s.early == [] && s.late == []
    ensures s.worker == Working(Request(1, 1, true), true)
    ensures s.client == FlushAnswer([], false, false) && s.handedOver == [] && s.lost == []
  {
    var a := FlushTimedOut();
    RunOn(a, FlushErase);
    var b := Apply(a, FlushErase);
    RunOn(b, FlushDeliver);
    s := Apply(b, FlushDeliver);
  }

  /** A flush whose wait times out can answer the younger frame 2 before frame 1. */
  lemma {:induction false} TimedOutFlushReorders() returns (s: State)
    ensures Reachable(s) && Stayed(s) == [1, 2] && Answered(s.answers) == [2, 1]
  {
    var a := FlushReportedFirst();
    RunOn(a, WorkerErase(Good));
    var b := Apply(a, WorkerErase(Good));
    RunOn(b, WorkerDeliver);
    s := Apply(b, WorkerDeliver);
    AnsweredSnoc([], Answer(2, RequestError));
    AnsweredSnoc([Answer(2, RequestError)], Answer(1, Good));
    assert s.answers == [Answer(2, RequestError)] + [Answer(1, Good)];
    assert s.handedOver + s.lost == [];
    WithoutAbsent([1, 2], []);
  }

  /** A switch has taken frame 1 from the queue. */
  lemma {:induction false} OneTaken() returns (s: State)
    ensures Reachable(s)
    ensures s == Init.(inflight := {1}, submitted := [1],
                       client := OfflineTaken([Request(1, 1, true)]))
  {
    InitReachable();
    var a := Submit(Init, 1);
    assert a.queue == [Request(1, 1, true)] && a.submitted == [1];
    RunOn(a, OfflineTake);
    s := Apply(a, OfflineTake);
  }

  /** configureStreams can pass while a switch has yet to report the frame it dropped: it has
      released the interface lock before that. */
  lemma {:induction false} ConfigureDuringReport() returns (s: State)
    ensures Reachable(s) && s.client.Idle? && s.inflight == {} && Pending(s) == [1]
    ensures s == Init.(submitted := [1], late := [[Request(1, 1, true)]])
  {
    var a := OneTaken();
    RunOn(a, OfflinePartition({}, true));
    s := Apply(a, OfflinePartition({}, true));
    var req := Request(1, 1, true);
    assert Split([req], {}, false) == [req] + Split([], {}, false);
    assert Split([req], {}, true) == [] + Split([], {}, true);
    FlatOne([req]);
    assert Frames([req]) == [1] + Frames([]);
    assert Split([req], {}, false) == [req];
    assert s.late == [[req]] && s.handedOver == [];
    assert Pending(s) == [] + [] + [1] + ([] + []);
  }

  /** Then a new frame 2 can be answered before frame 1, with no wait timed out. */
  lemma {:induction false} LateReportReorders() returns (s: State)
    ensures Reachable(s) && !s.timedOut && s.submitted == [1, 2] && s.handedOver == []
    ensures Answered(s.answers) == [2] && Pending(s) == [1]
  {
    var a := ConfigureDuringReport();
    var b := Submit(a, 2);
    RunOn(b, WorkerTake);
    var c := Apply(b, WorkerTake);
    RunOn(c, WorkerErase(Good));
    var d := Apply(c, WorkerErase(Good));
    RunOn(d, WorkerDeliver);
    s := Apply(d, WorkerDeliver);
    AnsweredSnoc([], Answer(2, Good));
    var req := Request(1, 1, true);
    assert s.early == [[req]] && s.late == [];
    FlatOne([req]);
    assert Frames([req]) == [1] + Frames([]);
  }

  /** A switch whose offline session fails to initialise loses frame 1, which stays in the record
      of the session even when that is closed. */
  lemma {:induction false} FailedSwitchLoses() returns (s: State)
    ensures Reachable(s) && s.client.Closed? && s.lost == [1] && s.inflight == {1}
    ensures Pending(s) == [] && s.answers == [] && s.handedOver == []
  {
    var a := OneTaken();
    var step := OfflinePartition({1}, false);
    var req := Request(1, 1, true);
    assert Split([req], {1}, false) == [] + Split([], {1}, false);
    assert Split([req], {1}, true) == [req] + Split([], {1}, true);
    assert Frames([req]) == [1] + Frames([]);
    RunOn(a, step);
    var b := Apply(a, step);
    assert b == Init.(inflight := {1}, submitted := [1], lost := [1], stuck := [1], late := [[]]);
    s := CloseIdle(b);
    FlatOne([]);
    assert s.late == [[]];
  }

  /** A close with nothing queued and an idle worker. */
  lemma {:induction false} CloseIdle(s: State) returns (t: State)
    requires Reachable(s) && s.client.Idle? && s.worker.Ready? && s.queue == []
    ensures Reachable(t) && t == s.(client := Closed, exiting := true, worker := Stopped)
  {
    RunOn(s, FlushTake(true));
    var a := Apply(s, FlushTake(true));
    RunOn(a, FlushEnd);
    var b := Apply(a, FlushEnd);
    RunOn(b, WorkerExit);
    var c := Apply(b, WorkerExit);
    RunOn(c, Join);
    t := Apply(c, Join);
  }
}
