/** What every run of the capture protocol keeps: the accounting of frames. */
module CaptureProofs {
  import opened CaptureProtocol

  // ---------------------------------------------------------------- sequences

  lemma {:induction false} FramesConcat(a: seq<Request>, b: seq<Request>)
    ensures Frames(a + b) == Frames(a) + Frames(b)
  {
    if a == [] {
      assert a + b == b;
    } else {
      FramesConcat(a[1..], b);
      assert (a + b)[1..] == a[1..] + b;
    }
  }

  lemma {:induction false} AnsweredConcat(a: seq<Answer>, b: seq<Answer>)
    ensures Answered(a + b) == Answered(a) + Answered(b)
  {
    if a == [] {
      assert a + b == b;
    } else {
      AnsweredConcat(a[1..], b);
      assert (a + b)[1..] == a[1..] + b;
    }
  }

  lemma {:induction false} AnsweredErrors(reqs: seq<Request>)
    ensures Answered(Errors(reqs)) == Frames(reqs)
  {
    if reqs != [] {
      AnsweredErrors(reqs[1..]);
      assert Errors(reqs)[1..] == Errors(reqs[1..]);
    }
  }

  lemma {:induction false} CountConcat(a: seq<Frame>, b: seq<Frame>, f: Frame)
    ensures Count(a + b, f) == Count(a, f) + Count(b, f)
  {
    if a == [] {
      assert a + b == b;
    } else {
      CountConcat(a[1..], b, f);
      assert (a + b)[1..] == a[1..] + b;
    }
  }

  lemma {:induction false} CountCons(x: Frame, fs: seq<Frame>, f: Frame)
    ensures Count([x] + fs, f) == (if x == f then 1 else 0) + Count(fs, f)
  {
    assert ([x] + fs)[1..] == fs;
  }

  lemma {:induction false} CountOne(x: Frame, f: Frame)
    ensures Count([x], f) == if x == f then 1 else 0
  {
    assert [x][1..] == [];
  }

  /** Adding one element at the end. */
  lemma {:induction false} CountSnoc(fs: seq<Frame>, x: Frame, f: Frame)
    ensures Count(fs + [x], f) == Count(fs, f) + (if x == f then 1 else 0)
  {
    CountConcat(fs, [x], f);
    CountOne(x, f);
  }

  lemma {:induction false} FramesSnoc(reqs: seq<Request>, req: Request)
    ensures Frames(reqs + [req]) == Frames(reqs) + [req.frame]
  {
    FramesConcat(reqs, [req]);
    assert Frames([req]) == [req.frame] + Frames([]);
  }

  lemma {:induction false} AnsweredSnoc(answers: seq<Answer>, a: Answer)
    ensures Answered(answers + [a]) == Answered(answers) + [a.frame]
  {
    AnsweredConcat(answers, [a]);
    assert Answered([a]) == [a.frame] + Answered([]);
  }

  lemma {:induction false} CountMember(fs: seq<Frame>, f: Frame)
    ensures f in fs <==> Count(fs, f) > 0
  {
    if fs != [] {
      CountMember(fs[1..], f);
      assert fs == [fs[0]] + fs[1..];
    }
  }

  lemma {:induction false} SplitCount(reqs: seq<Request>, keep: set<Frame>, f: Frame)
    ensures Count(Frames(Split(reqs, keep, true)), f) + Count(Frames(Split(reqs, keep, false)), f)
         == Count(Frames(reqs), f)
  {
    if reqs != [] {
      var rest := reqs[1..];
      SplitCount(rest, keep, f);
      SplitHead(reqs, keep, true);
      SplitHead(reqs, keep, false);
      CountCons(reqs[0].frame, Frames(Split(rest, keep, reqs[0].frame in keep)), f);
      CountCons(reqs[0].frame, Frames(rest), f);
      var gone := Frames(Split(rest, keep, reqs[0].frame !in keep));
      assert [] + gone == gone;
    }
  }

  lemma {:induction false} SplitHead(reqs: seq<Request>, keep: set<Frame>, inside: bool)
    requires reqs != []
    ensures Frames(Split(reqs, keep, inside))
         == (if (reqs[0].frame in keep) == inside then [reqs[0].frame] else [])
            + Frames(Split(reqs[1..], keep, inside))
  {
    var rest := Split(reqs[1..], keep, inside);
    if (reqs[0].frame in keep) == inside {
      assert ([reqs[0]] + rest)[1..] == rest;
    } else {
      assert [] + rest == rest;
    }
  }

  lemma {:induction false} FlatConcat(a: seq<Report>, b: seq<Report>)
    ensures Flat(a + b) == Flat(a) + Flat(b)
  {
    if a == [] {
      assert a + b == b;
    } else {
      var rest := a[1..];
      FlatConcat(rest, b);
      assert (a + b)[1..] == rest + b && (a + b)[0] == a[0];
      Reassociate(Frames(a[0]), Flat(rest), Flat(b));
    }
  }

  lemma {:induction false} Reassociate(a: seq<Frame>, b: seq<Frame>, c: seq<Frame>)
    ensures (a + b) + c == a + (b + c)
  {
  }

  lemma {:induction false} FlatOne(report: Report)
    ensures Flat([report]) == Frames(report)
  {
    assert [report][1..] == [];
  }

  /** A report and what stands around it. */
  lemma {:induction false} FlatAt(reports: seq<Report>, k: nat)
    requires k < |reports|
    ensures Flat(reports) == Flat(reports[..k]) + (Frames(reports[k]) + Flat(reports[k + 1..]))
    ensures Flat(reports[..k] + reports[k + 1..]) == Flat(reports[..k]) + Flat(reports[k + 1..])
  {
    FlatConcat(reports[..k], reports[k..]);
    assert reports == reports[..k] + reports[k..];
    assert reports[k..][1..] == reports[k + 1..];
    FlatConcat(reports[..k], reports[k + 1..]);
  }

  // ---------------------------------------------------------------- what a step does to Pending

  /** The pending frames younger than those that the step answers. */
  function Behind(s: State, step: Step): seq<Frame>
    requires Enabled(s, step) && Delivers(step)
  {
    match step
    case ReportEarly(k) =>
      Flat(s.early[k + 1..]) + WorkerOwes(s.worker) + Flat(s.late)
      + (Frames(s.queue) + ClientOwes(s.client))
    case ReportLate(k) => Flat(s.late[k + 1..]) + (Frames(s.queue) + ClientOwes(s.client))
    case FlushDeliver => Frames(s.client.taken[1..])
    case _ => Flat(s.late) + (Frames(s.queue) + ClientOwes(s.client))
  }

  /** An answer takes its frames out of the pending ones, and changes nothing else of them. */
  lemma {:induction false} PendingGives(s: State, step: Step)
    requires Shape(s) && Enabled(s, step) && Delivers(step)
    ensures Pending(s) == Ahead(s, step) + Given(s, step) + Behind(s, step)
    ensures Pending(Apply(s, step)) == Ahead(s, step) + Behind(s, step)
  {
    match step
    case ReportEarly(k) => EarlyGives(s, k);
    case ReportLate(k) => LateGives(s, k);
    case FlushDeliver => FlushGives(s);
    case WorkerDeliver => WorkerGives(s);
  }

  lemma {:induction false} EarlyGives(s: State, k: nat)
    requires Enabled(s, ReportEarly(k))
    ensures Pending(s)
         == Ahead(s, ReportEarly(k)) + Given(s, ReportEarly(k)) + Behind(s, ReportEarly(k))
    ensures Pending(Apply(s, ReportEarly(k)))
         == Ahead(s, ReportEarly(k)) + Behind(s, ReportEarly(k))
  {
    FlatAt(s.early, k);
    Five(Flat(s.early[..k]), Frames(s.early[k]), Flat(s.early[k + 1..]), WorkerOwes(s.worker),
         Flat(s.late), Frames(s.queue) + ClientOwes(s.client));
  }

  lemma {:induction false} Five(a: seq<Frame>, g: seq<Frame>, b: seq<Frame>, w: seq<Frame>,
                                l: seq<Frame>, q: seq<Frame>)
    ensures (a + (g + b)) + w + l + q == a + g + (b + w + l + q)
    ensures (a + b) + w + l + q == a + (b + w + l + q)
  {
  }

  lemma {:induction false} LateGives(s: State, k: nat)
    requires Enabled(s, ReportLate(k))
    ensures Pending(s)
         == Ahead(s, ReportLate(k)) + Given(s, ReportLate(k)) + Behind(s, ReportLate(k))
    ensures Pending(Apply(s, ReportLate(k)))
         == Ahead(s, ReportLate(k)) + Behind(s, ReportLate(k))
  {
    FlatAt(s.late, k);
    Four(Flat(s.early) + WorkerOwes(s.worker), Flat(s.late[..k]), Frames(s.late[k]),
         Flat(s.late[k + 1..]), Frames(s.queue) + ClientOwes(s.client));
  }

  lemma {:induction false} Four(e: seq<Frame>, a: seq<Frame>, g: seq<Frame>, b: seq<Frame>,
                                q: seq<Frame>)
    ensures e + (a + (g + b)) + q == e + a + g + (b + q)
    ensures e + (a + b) + q == e + a + (b + q)
  {
  }

  lemma {:induction false} WorkerGives(s: State)
    requires Enabled(s, WorkerDeliver)
    ensures Pending(s)
         == Ahead(s, WorkerDeliver) + Given(s, WorkerDeliver) + Behind(s, WorkerDeliver)
    ensures Pending(Apply(s, WorkerDeliver))
         == Ahead(s, WorkerDeliver) + Behind(s, WorkerDeliver)
  {
    WorkerDone(s);
    Three(Flat(s.early), WorkerOwes(s.worker), Flat(s.late),
          Frames(s.queue) + ClientOwes(s.client));
  }

  lemma {:induction false} WorkerDone(s: State)
    requires Enabled(s, WorkerDeliver)
    ensures var t := Apply(s, WorkerDeliver);
            && t.early == s.early && t.late == s.late && WorkerOwes(t.worker) == []
            && t.queue == s.queue && t.client == s.client
  {
  }

  lemma {:induction false} Three(e: seq<Frame>, w: seq<Frame>, l: seq<Frame>, q: seq<Frame>)
    ensures e + w + l + q == e + w + (l + q)
    ensures e + [] + l + q == e + (l + q)
  {
  }

  lemma {:induction false} FlushGives(s: State)
    requires Shape(s) && Enabled(s, FlushDeliver)
    ensures Pending(s)
         == Ahead(s, FlushDeliver) + Given(s, FlushDeliver) + Behind(s, FlushDeliver)
    ensures Pending(Apply(s, FlushDeliver))
         == Ahead(s, FlushDeliver) + Behind(s, FlushDeliver)
  {
    FlushOwes(s);
    Front(Owed(s), s.client.taken[0].frame, Frames(s.client.taken[1..]));
  }

  lemma {:induction false} FlushOwes(s: State)
    requires Shape(s) && Enabled(s, FlushDeliver)
    ensures var t, rest := Apply(s, FlushDeliver), Frames(s.client.taken[1..]);
            && Frames(s.queue) == Frames(t.queue) == [] && Owed(t) == Owed(s)
            && ClientOwes(s.client) == [s.client.taken[0].frame] + rest
            && ClientOwes(t.client) == rest
  {
  }

  lemma {:induction false} Front(o: seq<Frame>, f: Frame, rest: seq<Frame>)
    ensures o + ([] + ([f] + rest)) == o + [f] + rest
    ensures o + ([] + rest) == o + rest
  {
  }

  /** Every other step but submission and partition leaves the pending frames as they are. */
  lemma {:induction false} PendingSame(s: State, step: Step)
    requires Enabled(s, step) && !Delivers(step) && !step.Record? && !step.OfflinePartition?
    ensures var t := Apply(s, step);
            && Pending(t) == Pending(s) && t.answers == s.answers && t.submitted == s.submitted
            && t.handedOver == s.handedOver && t.lost == s.lost && t.inversion == s.inversion
  {
    match step
    case Enqueue => EnqueueSame(s);
    case WorkerTake => TakeSame(s);
    case FlushTake(_) => DrainSame(s, step);
    case OfflineTake => DrainSame(s, step);
    case _ => QuietSame(s, step);
  }

  lemma {:induction false} EnqueueSame(s: State)
    requires Enabled(s, Enqueue)
    ensures Pending(Apply(s, Enqueue)) == Pending(s)
  {
    FramesSnoc(s.queue, s.client.req);
    var q := Frames(s.queue) + [s.client.req.frame];
    assert q + [] == q;
  }

  lemma {:induction false} TakeSame(s: State)
    requires Enabled(s, WorkerTake)
    ensures Pending(Apply(s, WorkerTake)) == Pending(s)
  {
    FlatConcat(s.early, s.late);
    var e, l, x, q := Flat(s.early), Flat(s.late), [s.queue[0].frame], Frames(s.queue[1..]);
    var c := ClientOwes(s.client);
    assert e + [] + l + (x + q + c) == (e + l) + x + [] + (q + c);
  }

  lemma {:induction false} DrainSame(s: State, step: Step)
    requires Enabled(s, step) && (step.FlushTake? || step.OfflineTake?)
    ensures Pending(Apply(s, step)) == Pending(s)
  {
    var q := Frames(s.queue);
    assert q + [] == [] + q;
  }

  predicate MovesNoFrame(step: Step) {
    || step.WorkerErase? || step.WorkerSignal? || step.WorkerExit? || step.FlushWake?
    || step.FlushTimeout? || step.FlushErase? || step.FlushEnd? || step.Join?
    || step.OfflineWake? || step.OfflineTimeout?
  }

  lemma {:induction false} QuietSame(s: State, step: Step)
    requires Enabled(s, step) && MovesNoFrame(step)
    ensures var t := Apply(s, step);
            && t.early == s.early && t.late == s.late && t.queue == s.queue
            && WorkerOwes(t.worker) == WorkerOwes(s.worker)
            && ClientOwes(t.client) == ClientOwes(s.client)
  {
    if step.WorkerErase? || step.WorkerSignal? || step.WorkerExit? {
      WorkerQuiet(s, step);
    } else {
      ClientQuiet(s, step);
    }
  }

  lemma {:induction false} WorkerQuiet(s: State, step: Step)
    requires Enabled(s, step) && (step.WorkerErase? || step.WorkerSignal? || step.WorkerExit?)
    ensures var t := Apply(s, step);
            && t.early == s.early && t.late == s.late && t.queue == s.queue
            && WorkerOwes(t.worker) == WorkerOwes(s.worker) && t.client == s.client
  {
  }

  lemma {:induction false} ClientQuiet(s: State, step: Step)
    requires Enabled(s, step) && MovesNoFrame(step)
    requires !step.WorkerErase? && !step.WorkerSignal? && !step.WorkerExit?
    ensures var t := Apply(s, step);
            && t.early == s.early && t.late == s.late && t.queue == s.queue
            && t.worker == s.worker && ClientOwes(t.client) == ClientOwes(s.client)
  {
  }

  lemma {:induction false} PendingRecord(s: State, req: Request)
    requires Enabled(s, Record(req))
    ensures Pending(Apply(s, Record(req))) == Pending(s) + [req.frame]
  {
    var t, o, q := Apply(s, Record(req)), Owed(s), Frames(s.queue);
    assert Owed(t) == o && Frames(t.queue) == q && ClientOwes(t.client) == [req.frame];
    assert ClientOwes(s.client) == [];
    assert o + (q + [req.frame]) == o + (q + []) + [req.frame];
  }

  lemma {:induction false} PendingPartition(s: State, step: Step)
    requires Shape(s) && Enabled(s, step) && step.OfflinePartition?
    ensures Pending(s) == Owed(s) + Frames(s.client.taken)
    ensures Pending(Apply(s, step)) == Owed(s) + Frames(Split(s.client.taken, step.keep, false))
  {
    var taken := Frames(s.client.taken);
    assert [] + taken == taken;
    var dropped := Split(s.client.taken, step.keep, false);
    FlatConcat(s.late, [dropped]);
    FlatOne(dropped);
    var e, l, d := Flat(s.early) + WorkerOwes(s.worker), Flat(s.late), Frames(dropped);
    assert e + (l + d) + ([] + []) == e + l + d;
  }

  // ---------------------------------------------------------------- the accounting

  /** f is accepted at most once, and if so it is answered, pending, handed over or lost, once. */
  ghost predicate Balanced(s: State, f: Frame) {
    Count(Answered(s.answers), f) + Count(Pending(s), f)
    + Count(s.handedOver, f) + Count(s.lost, f)
    == Count(s.submitted, f) <= 1
  }

  ghost predicate Balance(s: State) {
    forall f :: Balanced(s, f)
  }

  /** The in-flight record holds exactly the pending frames whose report has not begun, and the
      lost ones that no later switch has cleared from it. */
  ghost predicate Records(s: State) {
    s.inflight == Recorded(s) + Elements(s.stuck)
  }

  ghost predicate Shape(s: State) {
    && (Draining(s.client) ==> s.queue == [])
    && (s.client.FlushAnswer? && s.client.erased ==> s.client.taken != [])
    && (s.exiting <==> s.client.Joining? || s.client.Closed?)
    && (s.client.Closed? ==> s.worker.Stopped?)
    && (forall f :: f in s.stuck ==> f in s.lost)
  }

  ghost predicate Accounting(s: State) {
    Balance(s) && Records(s) && Shape(s)
  }

  lemma {:induction false} BalanceRecord(s: State, req: Request, f: Frame)
    requires Balanced(s, f) && Enabled(s, Record(req))
    ensures Balanced(Apply(s, Record(req)), f)
  {
    PendingRecord(s, req);
    CountSnoc(s.submitted, req.frame, f);
    CountSnoc(Pending(s), req.frame, f);
    CountMember(s.submitted, f);
  }

  /** What a delivery adds to the answers. */
  lemma {:induction false} AnswersGiven(s: State, step: Step)
    requires Enabled(s, step) && Delivers(step)
    ensures Answered(Apply(s, step).answers) == Answered(s.answers) + Given(s, step)
  {
    match step
    case ReportEarly(k) =>
      AnsweredConcat(s.answers, Errors(s.early[k]));
      AnsweredErrors(s.early[k]);
    case ReportLate(k) =>
      AnsweredConcat(s.answers, Errors(s.late[k]));
      AnsweredErrors(s.late[k]);
    case FlushDeliver => AnsweredSnoc(s.answers, Answer(s.client.taken[0].frame, RequestError));
    case WorkerDeliver => AnsweredSnoc(s.answers, Answer(s.worker.req.frame, s.worker.kind));
  }

  lemma {:induction false} DeliveryKeeps(s: State, step: Step)
    requires Enabled(s, step) && Delivers(step)
    ensures var t := Apply(s, step);
            t.submitted == s.submitted && t.handedOver == s.handedOver && t.lost == s.lost
  {
  }

  lemma {:induction false} BalanceDelivery(s: State, step: Step, f: Frame)
    requires Shape(s) && Balanced(s, f) && Enabled(s, step) && Delivers(step)
    ensures Balanced(Apply(s, step), f)
  {
    PendingGives(s, step);
    AnswersGiven(s, step);
    DeliveryKeeps(s, step);
    var ahead, given, behind := Ahead(s, step), Given(s, step), Behind(s, step);
    CountConcat(ahead + given, behind, f);
    CountConcat(ahead, given, f);
    CountConcat(ahead, behind, f);
    CountConcat(Answered(s.answers), given, f);
  }

  lemma {:induction false} PartitionMoves(s: State, step: Step)
    requires Enabled(s, step) && step.OfflinePartition?
    ensures var t, kept := Apply(s, step), Frames(Split(s.client.taken, step.keep, true));
            && t.answers == s.answers && t.submitted == s.submitted && t.queue == s.queue
            && t.handedOver == (if step.init then s.handedOver + kept else s.handedOver)
            && t.lost == (if step.init then s.lost else s.lost + kept)
            && WorkerOwes(t.worker) == WorkerOwes(s.worker) && t.inversion == s.inversion
  {
  }

  lemma {:induction false} BalancePartition(s: State, step: Step, f: Frame)
    requires Shape(s) && Balanced(s, f) && Enabled(s, step) && step.OfflinePartition?
    ensures Balanced(Apply(s, step), f)
  {
    var taken := s.client.taken;
    var kept, dropped := Split(taken, step.keep, true), Split(taken, step.keep, false);
    PendingPartition(s, step);
    PartitionMoves(s, step);
    SplitCount(taken, step.keep, f);
    CountConcat(Owed(s), Frames(taken), f);
    CountConcat(Owed(s), Frames(dropped), f);
    CountConcat(s.handedOver, Frames(kept), f);
    CountConcat(s.lost, Frames(kept), f);
  }

  /** No step loses track of a frame or duplicates it. */
  lemma {:induction false} BalanceStep(s: State, step: Step, f: Frame)
    requires Shape(s) && Balanced(s, f) && Enabled(s, step)
    ensures Balanced(Apply(s, step), f)
  {
    if step.Record? {
      BalanceRecord(s, step.req, f);
    } else if step.OfflinePartition? {
      BalancePartition(s, step, f);
    } else if Delivers(step) {
      BalanceDelivery(s, step, f);
    } else {
      PendingSame(s, step);
    }
  }

  lemma {:induction false} ShapeStep(s: State, step: Step)
    requires Shape(s) && Enabled(s, step)
    ensures Shape(Apply(s, step))
  {
  }

  // ---------------------------------------------------------------- the record

  /** A frame is owed in one place only, and not if it is lost. */
  lemma {:induction false} OwedOnce(s: State, f: Frame)
    requires Balanced(s, f)
    ensures Count(WorkerOwes(s.worker), f) + Count(Frames(s.queue), f)
            + Count(ClientOwes(s.client), f) + Count(s.lost, f) <= 1
  {
    var q, c := Frames(s.queue), ClientOwes(s.client);
    CountConcat(Owed(s), q + c, f);
    CountConcat(q, c, f);
    CountConcat(Flat(s.early) + WorkerOwes(s.worker), Flat(s.late), f);
    CountConcat(Flat(s.early), WorkerOwes(s.worker), f);
  }

  lemma {:induction false} RecordsErase(s: State, kind: Kind)
    requires Accounting(s) && Enabled(s, WorkerErase(kind))
    ensures Records(Apply(s, WorkerErase(kind)))
  {
    var f := s.worker.req.frame;
    assert Balanced(s, f);
    OwedOnce(s, f);
    CountMember(Frames(s.queue), f);
    CountMember(ClientOwes(s.client), f);
    CountMember(s.lost, f);
    CountOne(f, f);
    if s.client.FlushAnswer? && s.client.taken != [] {
      assert ClientOwes(s.client) == [s.client.taken[0].frame] + Frames(s.client.taken[1..]);
    }
  }

  lemma {:induction false} RecordsFlushErase(s: State)
    requires Accounting(s) && Enabled(s, FlushErase)
    ensures Records(Apply(s, FlushErase))
  {
    HeadIsApart(s);
  }

  /** The frame that a flush reports next is owed nowhere else. */
  lemma {:induction false} HeadIsApart(s: State)
    requires Accounting(s) && s.client.FlushAnswer? && s.client.taken != []
    ensures var f := s.client.taken[0].frame;
            && f !in WorkerOwes(s.worker) && f !in Frames(s.queue) && f !in s.stuck
            && f !in Frames(s.client.taken[1..])
  {
    var f := s.client.taken[0].frame;
    assert Balanced(s, f);
    OwedOnce(s, f);
    CountMember(WorkerOwes(s.worker), f);
    CountMember(Frames(s.queue), f);
    CountMember(s.lost, f);
    CountMember(Frames(s.client.taken[1..]), f);
    CountCons(f, Frames(s.client.taken[1..]), f);
  }

  lemma {:induction false} RecordsEnqueue(s: State)
    requires Records(s) && Enabled(s, Enqueue)
    ensures Records(Apply(s, Enqueue))
  {
    FramesSnoc(s.queue, s.client.req);
    var old_, new_ := Frames(s.queue), Frames(s.queue + [s.client.req]);
    assert Elements(new_) == Elements(old_) + {s.client.req.frame};
  }

  lemma {:induction false} RecordsTake(s: State)
    requires Records(s) && Enabled(s, WorkerTake)
    ensures Records(Apply(s, WorkerTake))
  {
    assert Elements(Frames(s.queue)) == {s.queue[0].frame} + Elements(Frames(s.queue[1..]));
  }

  /** A switch clears the record, or, if its session fails, takes out what it drops: the kept
      frames stay in it. */
  lemma {:induction false} RecordsPartition(s: State, step: Step)
    requires Accounting(s) && Enabled(s, step) && step.OfflinePartition?
    ensures Records(Apply(s, step))
  {
    if !step.init {
      var taken := s.client.taken;
      var kept, dropped := Split(taken, step.keep, true), Split(taken, step.keep, false);
      forall f
        ensures f in Frames(dropped) ==> f !in WorkerOwes(s.worker) && f !in s.stuck
        ensures f in Frames(taken) <==> f in Frames(kept) || f in Frames(dropped)
        ensures !(f in Frames(kept) && f in Frames(dropped))
      {
        SplitApart(s, step.keep, f);
      }
      var byWorker :=
        if s.worker.Working? && s.worker.recorded then {s.worker.req.frame} else {};
      TakenOut(byWorker, Frames(taken), Frames(kept), Frames(dropped), s.stuck);
    }
  }

  lemma {:induction false} SplitApart(s: State, keep: set<Frame>, f: Frame)
    requires Accounting(s) && s.client.OfflineTaken?
    ensures var taken := s.client.taken;
            var kept, dropped := Frames(Split(taken, keep, true)), Frames(Split(taken, keep, false));
            && (f in dropped ==> f !in WorkerOwes(s.worker) && f !in s.stuck)
            && (f in Frames(taken) <==> f in kept || f in dropped)
            && !(f in kept && f in dropped)
  {
    var taken := s.client.taken;
    assert Balanced(s, f);
    OwedOnce(s, f);
    SplitCount(taken, keep, f);
    CountMember(Frames(taken), f);
    CountMember(Frames(Split(taken, keep, true)), f);
    CountMember(Frames(Split(taken, keep, false)), f);
    CountMember(WorkerOwes(s.worker), f);
    CountMember(s.lost, f);
  }

  lemma {:induction false} TakenOut(byWorker: set<Frame>, taken: seq<Frame>, kept: seq<Frame>,
                                    dropped: seq<Frame>, stuck: seq<Frame>)
    requires forall f :: f in dropped ==> f !in byWorker && f !in stuck
    requires forall f :: f in taken <==> f in kept || f in dropped
    requires forall f :: !(f in kept && f in dropped)
    ensures byWorker + Elements([]) + Elements(taken) + Elements(stuck) - Elements(dropped)
         == byWorker + Elements([]) + Elements([]) + Elements(stuck + kept)
  {
  }

  lemma {:induction false} RecordsStep(s: State, step: Step)
    requires Accounting(s) && Enabled(s, step)
    ensures Records(Apply(s, step))
  {
    match step
    case Enqueue => RecordsEnqueue(s);
    case WorkerTake => RecordsTake(s);
    case WorkerErase(kind) => RecordsErase(s, kind);
    case FlushErase => RecordsFlushErase(s);
    case OfflinePartition(_, _) => RecordsPartition(s, step);
    case _ => RecordsSame(s, step);
  }

  lemma {:induction false} RecordsSame(s: State, step: Step)
    requires Records(s) && Shape(s) && Enabled(s, step)
    requires !step.Enqueue? && !step.WorkerTake? && !step.WorkerErase? && !step.FlushErase?
    requires !step.OfflinePartition?
    ensures Records(Apply(s, step))
  {
    if step.Record? || step.FlushTake? || step.OfflineTake? {
      RecordsCall(s, step);
    } else if step.FlushDeliver? || step.FlushEnd? || step.FlushWake? || step.FlushTimeout? {
      RecordsFlush(s, step);
    } else {
      RecordsOther(s, step);
    }
  }

  lemma {:induction false} RecordsCall(s: State, step: Step)
    requires Records(s) && Enabled(s, step)
    requires step.Record? || step.FlushTake? || step.OfflineTake?
    ensures Records(Apply(s, step))
  {
  }

  lemma {:induction false} RecordsFlush(s: State, step: Step)
    requires Records(s) && Enabled(s, step)
    requires step.FlushDeliver? || step.FlushEnd? || step.FlushWake? || step.FlushTimeout?
    ensures Records(Apply(s, step))
  {
  }

  lemma {:induction false} RecordsOther(s: State, step: Step)
    requires Records(s) && Enabled(s, step)
    requires || step.WorkerDeliver? || step.WorkerSignal? || step.WorkerExit? || step.Join?
             || step.OfflineWake? || step.OfflineTimeout? || step.ReportEarly? || step.ReportLate?
    ensures Records(Apply(s, step))
  {
  }

  lemma {:induction false} AccountingStep(s: State, step: Step)
    requires Accounting(s) && Enabled(s, step)
    ensures Accounting(Apply(s, step))
  {
    forall f ensures Balanced(Apply(s, step), f) { BalanceStep(s, step, f); }
    RecordsStep(s, step);
    ShapeStep(s, step);
  }
}
