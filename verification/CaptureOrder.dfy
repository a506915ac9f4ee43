/** The order of the answers, and the facts about every reachable state. */
module CaptureOrder {
  import Runs
  import opened CaptureProtocol
  import opened CaptureProofs

  // ---------------------------------------------------------------- sequences

  lemma {:induction false} WithoutConcat(a: seq<Frame>, b: seq<Frame>, gone: seq<Frame>)
    ensures Without(a + b, gone) == Without(a, gone) + Without(b, gone)
    decreases |b|
  {
    if b == [] {
      assert a + b == a;
    } else {
      var init := b[..|b| - 1];
      assert (a + b)[..|a + b| - 1] == a + init;
      WithoutConcat(a, init, gone);
    }
  }

  lemma {:induction false} WithoutOne(f: Frame, gone: seq<Frame>)
    ensures Without([f], gone) == if f in gone then [] else [f]
  {
    assert [f][..0] == [];
  }

  lemma {:induction false} WithoutTwice(fs: seq<Frame>, g: seq<Frame>, h: seq<Frame>)
    ensures Without(fs, g + h) == Without(Without(fs, g), h)
  {
    if fs != [] {
      var init, last := fs[..|fs| - 1], fs[|fs| - 1];
      WithoutTwice(init, g, h);
      WithoutConcat(Without(init, g), if last in g then [] else [last], h);
      WithoutOne(last, h);
    }
  }

  lemma {:induction false} WithoutAbsent(fs: seq<Frame>, gone: seq<Frame>)
    requires forall f :: f in fs ==> f !in gone
    ensures Without(fs, gone) == fs
  {
    if fs != [] {
      WithoutAbsent(fs[..|fs| - 1], gone);
      assert fs == fs[..|fs| - 1] + [fs[|fs| - 1]];
    }
  }

  lemma {:induction false} WithoutMember(fs: seq<Frame>, gone: seq<Frame>, f: Frame)
    ensures f in Without(fs, gone) <==> f in fs && f !in gone
  {
    if fs != [] {
      WithoutMember(fs[..|fs| - 1], gone, f);
      assert fs == fs[..|fs| - 1] + [fs[|fs| - 1]];
    }
  }

  /** Leaving frames out does not reorder the rest. */
  lemma {:induction false} WithoutOrder(fs: seq<Frame>, gone: seq<Frame>, i: nat, j: nat)
    requires i < j < |Without(fs, gone)|
    ensures Before(fs, Without(fs, gone)[i], Without(fs, gone)[j])
  {
    var init, last := fs[..|fs| - 1], fs[|fs| - 1];
    var w := Without(init, gone);
    if j < |w| {
      WithoutOrder(init, gone, i, j);
      var a, b :| 0 <= a < b < |init| && init[a] == w[i] && init[b] == w[j];
      assert fs[a] == w[i] && fs[b] == w[j];
    } else {
      WithoutMember(init, gone, w[i]);
      assert w[i] in w;
      var a :| 0 <= a < |init| && init[a] == w[i];
      assert fs[a] == w[i] && fs[|fs| - 1] == last;
    }
  }

  /** Taking the kept requests out of the list leaves the dropped ones, in order. */
  lemma {:induction false} WithoutKept(reqs: seq<Request>, keep: set<Frame>, gone: seq<Frame>)
    requires forall i :: 0 <= i < |reqs| ==> (reqs[i].frame in gone <==> reqs[i].frame in keep)
    ensures Without(Frames(reqs), gone) == Frames(Split(reqs, keep, false))
  {
    if reqs != [] {
      WithoutConcat([reqs[0].frame], Frames(reqs[1..]), gone);
      WithoutOne(reqs[0].frame, gone);
      WithoutKept(reqs[1..], keep, gone);
      SplitHead(reqs, keep, false);
      assert reqs[0].frame in gone <==> reqs[0].frame in keep;
    }
  }

  lemma {:induction false} SplitMember(reqs: seq<Request>, keep: set<Frame>, f: Frame)
    ensures f in Frames(Split(reqs, keep, true)) <==> f in Frames(reqs) && f in keep
  {
    if reqs != [] {
      SplitMember(reqs[1..], keep, f);
      SplitHead(reqs, keep, true);
    }
  }

  lemma {:induction false} FramesMember(reqs: seq<Request>, i: nat)
    requires i < |reqs|
    ensures reqs[i].frame in Frames(reqs)
  {
    if i > 0 { FramesMember(reqs[1..], i - 1); }
  }

  lemma {:induction false} UniqueIndex(fs: seq<Frame>, i: nat, j: nat)
    requires i < |fs| && j < |fs| && fs[i] == fs[j] && Count(fs, fs[i]) <= 1
    ensures i == j
  {
    var rest := fs[1..];
    CountMember(rest, fs[i]);
    if i > 0 && j > 0 {
      UniqueIndex(rest, i - 1, j - 1);
    } else if i > 0 {
      FirstIsOnly(fs, i);
    } else if j > 0 {
      FirstIsOnly(fs, j);
    }
  }

  lemma {:induction false} FirstIsOnly(fs: seq<Frame>, i: nat)
    requires 0 < i < |fs| && fs[i] == fs[0]
    ensures Count(fs, fs[0]) >= 2
  {
    CountMember(fs[1..], fs[0]);
    assert fs[1..][i - 1] == fs[0];
  }

  lemma {:induction false} WithoutNothingNew(fs: seq<Frame>, g: seq<Frame>, h: seq<Frame>)
    requires forall f :: f in g <==> f in h
    ensures Without(fs, g) == Without(fs, h)
  {
    if fs != [] { WithoutNothingNew(fs[..|fs| - 1], g, h); }
  }

  /** Only the frames of empty reports are none. */
  lemma {:induction false} FlatNone(reports: seq<Report>)
    ensures Flat(reports) == [] <==> forall i :: 0 <= i < |reports| ==> reports[i] == []
  {
    if reports != [] {
      FlatNone(reports[1..]);
      assert forall i :: 0 < i < |reports| ==> reports[i] == reports[1..][i - 1];
      assert forall i :: 0 <= i < |reports[1..]| ==> reports[1..][i] == reports[i + 1];
    }
  }

  // ---------------------------------------------------------------- the order

  /** The answers so far, then what is owed, are the accepted frames in submission order. */
  ghost predicate InOrder(s: State) {
    Answered(s.answers) + Pending(s) == Stayed(s)
  }

  /** o was submitted before y, yet y is answered and o was not before it. */
  ghost predicate Inverted(s: State, o: Frame, y: Frame) {
    && Before(s.submitted, o, y)
    && o !in s.handedOver + s.lost && y !in s.handedOver + s.lost
    && (o in Answered(s.answers) || o in Owed(s))
    && exists k :: 0 <= k < |Answered(s.answers)| && Answered(s.answers)[k] == y
                   && o !in Answered(s.answers)[..k]
  }

  ghost predicate Ordered(s: State) {
    match s.inversion
    case NoInversion => InOrder(s)
    case Overtaken(o, y) => Inverted(s, o, y)
  }

  /** What each step does to the sequences that InOrder compares. */
  lemma {:induction false} InOrderStep(s: State, step: Step)
    requires Accounting(s) && InOrder(s) && Enabled(s, step)
    requires s.inversion.NoInversion? && Apply(s, step).inversion.NoInversion?
    ensures InOrder(Apply(s, step))
  {
    if step.Record? {
      InOrderRecord(s, step.req);
    } else if step.OfflinePartition? {
      InOrderPartition(s, step);
    } else if Delivers(step) {
      InOrderDelivery(s, step);
    } else {
      PendingSame(s, step);
    }
  }

  lemma {:induction false} InOrderRecord(s: State, req: Request)
    requires Balance(s) && InOrder(s) && Enabled(s, Record(req))
    ensures InOrder(Apply(s, Record(req)))
  {
    var gone := s.handedOver + s.lost;
    WithoutConcat(s.submitted, [req.frame], gone);
    WithoutOne(req.frame, gone);
    assert Balanced(s, req.frame);
    CountMember(s.submitted, req.frame);
    CountMember(s.handedOver, req.frame);
    CountMember(s.lost, req.frame);
    PendingRecord(s, req);
    Reassociate(Answered(s.answers), Pending(s), [req.frame]);
  }

  /** An answer that overtakes nothing keeps the order. */
  lemma {:induction false} InOrderDelivery(s: State, step: Step)
    requires Shape(s) && InOrder(s) && Enabled(s, step) && Delivers(step)
    requires Ahead(s, step) == [] || Given(s, step) == []
    ensures InOrder(Apply(s, step))
  {
    PendingGives(s, step);
    AnswersGiven(s, step);
    DeliveryKeeps(s, step);
    OneIsEmpty(Answered(s.answers), Ahead(s, step), Given(s, step), Behind(s, step));
  }

  lemma {:induction false} OneIsEmpty(was: seq<Frame>, ahead: seq<Frame>, given: seq<Frame>,
                                      behind: seq<Frame>)
    requires ahead == [] || given == []
    ensures was + (ahead + given + behind) == was + given + (ahead + behind)
  {
  }

  lemma {:induction false} InOrderPartition(s: State, step: Step)
    requires Accounting(s) && InOrder(s) && Enabled(s, step) && step.OfflinePartition?
    ensures InOrder(Apply(s, step))
  {
    var t := Apply(s, step);
    var kept := Frames(Split(s.client.taken, step.keep, true));
    PendingPartition(s, step);
    PartitionMoves(s, step);
    PartitionedWithout(s, step.keep);
    WithoutTwice(s.submitted, s.handedOver + s.lost, kept);
    WithoutNothingNew(s.submitted, s.handedOver + s.lost + kept, t.handedOver + t.lost);
    Reassociate(Answered(s.answers), Owed(s), Frames(s.client.taken));
    Reassociate(Answered(s.answers), Owed(s), Frames(Split(s.client.taken, step.keep, false)));
  }

  lemma {:induction false} PartitionedWithout(s: State, keep: set<Frame>)
    requires Balance(s) && Shape(s) && s.client.OfflineTaken?
    ensures var rest := Answered(s.answers) + Owed(s);
            Without(rest + Frames(s.client.taken), Frames(Split(s.client.taken, keep, true)))
            == rest + Frames(Split(s.client.taken, keep, false))
  {
    var taken := s.client.taken;
    var kept := Frames(Split(taken, keep, true));
    var rest := Answered(s.answers) + Owed(s);
    WithoutConcat(rest, Frames(taken), kept);
    forall f | f in rest ensures f !in kept { TakenOnce(s, keep, f); }
    WithoutAbsent(rest, kept);
    forall i | 0 <= i < |taken|
      ensures taken[i].frame in kept <==> taken[i].frame in keep
    {
      FramesMember(taken, i);
      SplitMember(taken, keep, taken[i].frame);
    }
    WithoutKept(taken, keep, kept);
  }

  /** What the client has taken is neither answered nor owed by anyone else. */
  lemma {:induction false} TakenOnce(s: State, keep: set<Frame>, f: Frame)
    requires Balance(s) && s.client.OfflineTaken?
    requires f in Answered(s.answers) || f in Owed(s)
    ensures f !in Frames(Split(s.client.taken, keep, true))
  {
    assert Balanced(s, f);
    var q, c := Frames(s.queue), Frames(s.client.taken);
    CountConcat(Owed(s), q + c, f);
    CountConcat(q, c, f);
    CountMember(Answered(s.answers), f);
    CountMember(Owed(s), f);
    CountMember(c, f);
    SplitMember(s.client.taken, keep, f);
  }

  // ---------------------------------------------------------------- overtaking

  /** An answer past an older pending frame inverts the two. */
  lemma {:induction false} OvertakeInverts(s: State, step: Step)
    requires Accounting(s) && InOrder(s) && Enabled(s, step) && Delivers(step)
    requires Ahead(s, step) != [] && Given(s, step) != []
    ensures Inverted(Apply(s, step), Ahead(s, step)[0], Given(s, step)[0])
  {
    var t, w := Apply(s, step), Stayed(s);
    var was, ahead, given := Answered(s.answers), Ahead(s, step), Given(s, step);
    PendingGives(s, step);
    AnswersGiven(s, step);
    DeliveryKeeps(s, step);
    var i, j := |was|, |was| + |ahead|;
    InTheMiddle(was, ahead, given, Behind(s, step));
    var gone := s.handedOver + s.lost;
    WithoutOrder(s.submitted, gone, i, j);
    WithoutMember(s.submitted, gone, ahead[0]);
    WithoutMember(s.submitted, gone, given[0]);
    AheadIsOwed(s, step);
    assert Balanced(s, ahead[0]);
    CountMember(was, ahead[0]);
    CountMember(Pending(s), ahead[0]);
    assert ahead[0] in Pending(s);
    assert Answered(t.answers)[i] == given[0] && Answered(t.answers)[..i] == was;
  }

  lemma {:induction false} InTheMiddle(was: seq<Frame>, ahead: seq<Frame>, given: seq<Frame>,
                                       behind: seq<Frame>)
    requires ahead != [] && given != []
    ensures var w := was + (ahead + given + behind);
            w[|was|] == ahead[0] && w[|was| + |ahead|] == given[0]
  {
  }

  /** What stands ahead of an answer is owed by a report or the worker, and still is after it. */
  lemma {:induction false} AheadIsOwed(s: State, step: Step)
    requires Enabled(s, step) && Delivers(step) && Ahead(s, step) != []
    ensures Ahead(s, step)[0] in Owed(Apply(s, step))
  {
    var t := Apply(s, step);
    match step
    case ReportEarly(k) =>
      FlatAt(s.early, k);
      assert Flat(t.early) == Flat(s.early[..k]) + Flat(s.early[k + 1..]);
    case ReportLate(k) =>
      FlatAt(s.late, k);
      assert Flat(t.late) == Flat(s.late[..k]) + Flat(s.late[k + 1..]);
    case _ =>
  }

  /** The answers and the accepted frames only ever grow at the end. */
  lemma {:induction false} HistoryExtends(s: State, step: Step)
    requires Enabled(s, step)
    ensures s.answers <= Apply(s, step).answers && s.submitted <= Apply(s, step).submitted
    ensures Answered(s.answers) <= Answered(Apply(s, step).answers)
  {
    if Delivers(step) { AnswersGiven(s, step); }
  }

  /** What is owed stays owed until it is answered. */
  lemma {:induction false} StillKnown(s: State, step: Step, f: Frame)
    requires Shape(s) && Enabled(s, step) && (f in Answered(s.answers) || f in Owed(s))
    ensures var t := Apply(s, step); f in Answered(t.answers) || f in Owed(t)
  {
    if f !in Owed(s) {
      HistoryExtends(s, step);
    } else {
      match step
      case ReportEarly(k) => EarlyOrOwed(s, k, f);
      case ReportLate(k) => LateOrOwed(s, k, f);
      case WorkerDeliver => GivenOrOwed(s, f);
      case WorkerTake => OwedAfterTake(s, f);
      case OfflinePartition(_, _) => OwedAfterPartition(s, step, f);
      case _ => OwedSame(s, step);
    }
  }

  lemma {:induction false} OwedAfterTake(s: State, f: Frame)
    requires Enabled(s, WorkerTake) && f in Owed(s)
    ensures f in Owed(Apply(s, WorkerTake))
  {
    FlatConcat(s.early, s.late);
  }

  lemma {:induction false} EarlyOrOwed(s: State, k: nat, f: Frame)
    requires Enabled(s, ReportEarly(k)) && f in Owed(s)
    ensures var t := Apply(s, ReportEarly(k)); f in Answered(t.answers) || f in Owed(t)
  {
    AnswersGiven(s, ReportEarly(k));
    FlatAt(s.early, k);
  }

  lemma {:induction false} LateOrOwed(s: State, k: nat, f: Frame)
    requires Enabled(s, ReportLate(k)) && f in Owed(s)
    ensures var t := Apply(s, ReportLate(k)); f in Answered(t.answers) || f in Owed(t)
  {
    AnswersGiven(s, ReportLate(k));
    FlatAt(s.late, k);
  }

  lemma {:induction false} GivenOrOwed(s: State, f: Frame)
    requires Enabled(s, WorkerDeliver) && f in Owed(s)
    ensures var t := Apply(s, WorkerDeliver); f in Answered(t.answers) || f in Owed(t)
  {
    AnswersGiven(s, WorkerDeliver);
  }

  lemma {:induction false} OwedAfterPartition(s: State, step: Step, f: Frame)
    requires Enabled(s, step) && step.OfflinePartition? && f in Owed(s)
    ensures f in Owed(Apply(s, step))
  {
    PartitionMoves(s, step);
    FlatConcat(s.late, [Split(s.client.taken, step.keep, false)]);
  }

  lemma {:induction false} OwedSame(s: State, step: Step)
    requires Enabled(s, step) && (step.FlushDeliver? || !Delivers(step))
    requires !step.WorkerTake? && !step.OfflinePartition?
    ensures Owed(Apply(s, step)) == Owed(s)
  {
    var t := Apply(s, step);
    assert t.early == s.early && t.late == s.late;
    assert WorkerOwes(t.worker) == WorkerOwes(s.worker);
  }

  lemma {:induction false} BeforeExtends(fs: seq<Frame>, gs: seq<Frame>, a: Frame, b: Frame)
    requires fs <= gs && Before(fs, a, b)
    ensures Before(gs, a, b)
  {
    var i, j :| 0 <= i < j < |fs| && fs[i] == a && fs[j] == b;
    assert gs[i] == a && gs[j] == b;
  }

  /** Once inverted, a pair stays inverted: answers are never withdrawn or reordered. */
  lemma {:induction false} InvertedStep(s: State, step: Step, o: Frame, y: Frame)
    requires Accounting(s) && Inverted(s, o, y) && Enabled(s, step)
    ensures Inverted(Apply(s, step), o, y)
  {
    var t := Apply(s, step);
    HistoryExtends(s, step);
    BeforeExtends(s.submitted, t.submitted, o, y);
    StillKnown(s, step, o);
    var k :| 0 <= k < |Answered(s.answers)| && Answered(s.answers)[k] == y
             && o !in Answered(s.answers)[..k];
    assert Answered(t.answers)[k] == y;
    assert Answered(t.answers)[..k] == Answered(s.answers)[..k];
    assert y in Answered(s.answers);
    NotGone(s, step, o);
    NotGone(s, step, y);
  }

  lemma {:induction false} NotGone(s: State, step: Step, f: Frame)
    requires Balance(s) && Enabled(s, step) && f !in s.handedOver + s.lost
    requires f in Answered(s.answers) || f in Owed(s)
    ensures var t := Apply(s, step); f !in t.handedOver + t.lost
  {
    if step.OfflinePartition? {
      PartitionMoves(s, step);
      TakenOnce(s, step.keep, f);
    } else {
      NobodyGoes(s, step);
    }
  }

  lemma {:induction false} NobodyGoes(s: State, step: Step)
    requires Enabled(s, step) && !step.OfflinePartition?
    ensures var t := Apply(s, step); t.handedOver == s.handedOver && t.lost == s.lost
  {
  }

  lemma {:induction false} OrderedStep(s: State, step: Step)
    requires Accounting(s) && Ordered(s) && Enabled(s, step)
    ensures Ordered(Apply(s, step))
  {
    InversionStep(s, step);
    match s.inversion
    case Overtaken(o, y) =>
      InvertedStep(s, step, o, y);
    case NoInversion =>
      if Delivers(step) && Ahead(s, step) != [] && Given(s, step) != [] {
        OvertakeInverts(s, step);
      } else {
        InOrderStep(s, step);
      }
  }

  /** An inversion is recorded exactly when the first answer goes past an older frame. */
  lemma {:induction false} InversionStep(s: State, step: Step)
    requires Enabled(s, step)
    ensures Apply(s, step).inversion
         == if Delivers(step) then Overtake(s.inversion, Ahead(s, step), Given(s, step))
            else s.inversion
  {
  }

  // ---------------------------------------------------------------- prompt runs

  /** No two of the reports have frames. */
  ghost predicate AtMostOne(reports: seq<Report>) {
    forall i, j :: 0 <= i < j < |reports| ==> reports[i] == [] || reports[j] == []
  }

  /** Without timed-out waits, and without submissions past an outstanding report, whoever answers
      a frame is the only one to owe any. */
  ghost predicate Alone(s: State) {
    && (Reported(s) != [] ==>
          s.queue == [] && WorkerOwes(s.worker) == [] && ClientOwes(s.client) == [])
    && AtMostOne(s.early + s.late)
    && (s.client.FlushAnswer? || s.client.OfflineTaken? ==> !Processing(s.worker))
  }

  ghost predicate Prompt(s: State) {
    !s.timedOut && !s.hasty ==> s.inversion.NoInversion? && Alone(s)
  }

  lemma {:induction false} ReportedFlat(s: State)
    ensures Reported(s) == Flat(s.early + s.late)
  {
    FlatConcat(s.early, s.late);
  }

  lemma {:induction false} FramesNone(reqs: seq<Request>)
    ensures Frames(reqs) == [] <==> reqs == []
  {
  }

  /** A report with frames has none ahead of it. */
  lemma {:induction false} FirstAhead(all: seq<Report>, k: nat)
    requires AtMostOne(all) && k < |all| && all[k] != []
    ensures Flat(all[..k]) == []
  {
    FlatNone(all[..k]);
  }

  /** Alone, an answer has nothing ahead of it. */
  lemma {:induction false} AloneIsFirst(s: State, step: Step)
    requires Shape(s) && Alone(s) && Enabled(s, step) && Delivers(step) && Given(s, step) != []
    ensures Ahead(s, step) == []
  {
    match step
    case ReportEarly(k) => AloneEarly(s, k);
    case ReportLate(k) => AloneLate(s, k);
    case _ =>
  }

  lemma {:induction false} AloneEarly(s: State, k: nat)
    requires Alone(s) && k < |s.early| && Frames(s.early[k]) != []
    ensures Flat(s.early[..k]) == []
  {
    FirstAhead(s.early + s.late, k);
    assert (s.early + s.late)[..k] == s.early[..k];
  }

  lemma {:induction false} AloneLate(s: State, k: nat)
    requires Alone(s) && k < |s.late| && Frames(s.late[k]) != []
    ensures Flat(s.early) + WorkerOwes(s.worker) + Flat(s.late[..k]) == []
  {
    var n := |s.early|;
    FirstAhead(s.early + s.late, n + k);
    assert (s.early + s.late)[..n + k] == s.early + s.late[..k];
    FlatConcat(s.early, s.late[..k]);
    FlatAt(s.late, k);
  }

  lemma {:induction false} OneFewer(all: seq<Report>, k: nat)
    requires AtMostOne(all) && k < |all|
    ensures var rest := all[..k] + all[k + 1..];
            AtMostOne(rest) && (Flat(rest) != [] ==> Flat(all) != [])
  {
    FlatAt(all, k);
  }

  lemma {:induction false} AloneAfterReport(s: State, step: Step)
    requires Alone(s) && Enabled(s, step) && (step.ReportEarly? || step.ReportLate?)
    ensures Alone(Apply(s, step))
  {
    var t := Apply(s, step);
    ReportedFlat(s);
    ReportedFlat(t);
    ReportTaken(s, step);
    OneFewer(s.early + s.late, if step.ReportEarly? then step.k else |s.early| + step.k);
  }

  /** One report fewer, and the rest as it was. */
  lemma {:induction false} ReportTaken(s: State, step: Step)
    requires Enabled(s, step) && (step.ReportEarly? || step.ReportLate?)
    ensures var t, all := Apply(s, step), s.early + s.late;
            var k := if step.ReportEarly? then step.k else |s.early| + step.k;
            && t.queue == s.queue && t.worker == s.worker && t.client == s.client
            && k < |all| && t.early + t.late == all[..k] + all[k + 1..]
  {
    if step.ReportEarly? { EarlyTaken(s, step.k); } else { LateTaken(s, step.k); }
  }

  lemma {:induction false} EarlyTaken(s: State, k: nat)
    requires Enabled(s, ReportEarly(k))
    ensures var t, all := Apply(s, ReportEarly(k)), s.early + s.late;
            && t.queue == s.queue && t.worker == s.worker && t.client == s.client
            && t.early + t.late == all[..k] + all[k + 1..]
  {
    EarlyStep(s, k);
    OutOfFirst(s.early, s.late, k);
  }

  lemma {:induction false} EarlyStep(s: State, k: nat)
    requires Enabled(s, ReportEarly(k))
    ensures var t := Apply(s, ReportEarly(k));
            && t.queue == s.queue && t.worker == s.worker && t.client == s.client
            && t.early == s.early[..k] + s.early[k + 1..] && t.late == s.late
  {
  }

  lemma {:induction false} LateTaken(s: State, k: nat)
    requires Enabled(s, ReportLate(k))
    ensures var t, all := Apply(s, ReportLate(k)), s.early + s.late;
            && t.queue == s.queue && t.worker == s.worker && t.client == s.client
            && t.early + t.late == all[..|s.early| + k] + all[|s.early| + k + 1..]
  {
    LateStep(s, k);
    OutOfSecond(s.early, s.late, k);
  }

  lemma {:induction false} LateStep(s: State, k: nat)
    requires Enabled(s, ReportLate(k))
    ensures var t := Apply(s, ReportLate(k));
            && t.queue == s.queue && t.worker == s.worker && t.client == s.client
            && t.early == s.early && t.late == s.late[..k] + s.late[k + 1..]
  {
  }

  lemma {:induction false} OutOfFirst(a: seq<Report>, b: seq<Report>, k: nat)
    requires k < |a|
    ensures a[..k] + a[k + 1..] + b == (a + b)[..k] + (a + b)[k + 1..]
  {
  }

  lemma {:induction false} OutOfSecond(a: seq<Report>, b: seq<Report>, k: nat)
    requires k < |b|
    ensures a + (b[..k] + b[k + 1..]) == (a + b)[..|a| + k] + (a + b)[|a| + k + 1..]
  {
  }

  lemma {:induction false} AloneAfterPartition(s: State, step: Step)
    requires Shape(s) && Alone(s) && Enabled(s, step) && step.OfflinePartition?
    ensures Alone(Apply(s, step))
  {
    var dropped := Split(s.client.taken, step.keep, false);
    ReportedFlat(s);
    ReportedFlat(Apply(s, step));
    PartitionReports(s, step);
    FramesNone(s.client.taken);
    OneMore(s.early + s.late, dropped);
  }

  lemma {:induction false} PartitionReports(s: State, step: Step)
    requires Enabled(s, step) && step.OfflinePartition?
    ensures var t := Apply(s, step);
            && t.early + t.late == s.early + s.late + [Split(s.client.taken, step.keep, false)]
            && WorkerOwes(t.worker) == WorkerOwes(s.worker) && t.queue == s.queue
            && t.client.Idle?
  {
  }

  lemma {:induction false} OneMore(all: seq<Report>, report: Report)
    requires AtMostOne(all) && (report != [] ==> Flat(all) == [])
    ensures AtMostOne(all + [report])
    ensures Flat(all + [report]) == Flat(all) + Frames(report)
  {
    FlatConcat(all, [report]);
    FlatOne(report);
    if report != [] { FlatNone(all); }
  }

  lemma {:induction false} AloneStep(s: State, step: Step)
    requires Shape(s) && Alone(s) && Enabled(s, step)
    requires !Apply(s, step).timedOut && !Apply(s, step).hasty
    ensures Alone(Apply(s, step))
  {
    match step
    case ReportEarly(_) => AloneAfterReport(s, step);
    case ReportLate(_) => AloneAfterReport(s, step);
    case OfflinePartition(_, _) => AloneAfterPartition(s, step);
    case WorkerTake =>
      FlatConcat(s.early, s.late);
      assert s.early + s.late + [] == s.early + s.late;
    case _ => AloneSame(s, step);
  }

  lemma {:induction false} ReportsSame(s: State, step: Step)
    requires Enabled(s, step)
    requires !step.ReportEarly? && !step.ReportLate? && !step.OfflinePartition? && !step.WorkerTake?
    ensures Apply(s, step).early == s.early && Apply(s, step).late == s.late
  {
  }

  lemma {:induction false} AloneSame(s: State, step: Step)
    requires Shape(s) && Alone(s) && Enabled(s, step)
    requires !Apply(s, step).timedOut && !Apply(s, step).hasty
    requires !step.ReportEarly? && !step.ReportLate? && !step.OfflinePartition? && !step.WorkerTake?
    ensures Alone(Apply(s, step))
  {
    ReportsSame(s, step);
    if step.WorkerErase? || step.WorkerDeliver? || step.WorkerSignal? || step.WorkerExit? {
      AloneWorker(s, step);
    } else if step.FlushDeliver? {
      FlushOwes(s);
    } else if step.FlushErase? || step.FlushEnd? || step.Join? {
      AloneFlush(s, step);
    } else {
      AloneClient(s, step);
    }
  }

  lemma {:induction false} AloneWorker(s: State, step: Step)
    requires Alone(s) && Enabled(s, step)
    requires step.WorkerErase? || step.WorkerDeliver? || step.WorkerSignal? || step.WorkerExit?
    ensures Alone(Apply(s, step))
  {
  }

  lemma {:induction false} AloneFlush(s: State, step: Step)
    requires Alone(s) && Enabled(s, step)
    requires step.FlushErase? || step.FlushEnd? || step.Join?
    ensures Alone(Apply(s, step))
  {
    QuietSame(s, step);
    FlushKeepsWorker(s, step);
    AloneFrom(s, Apply(s, step));
  }

  lemma {:induction false} FlushKeepsWorker(s: State, step: Step)
    requires Enabled(s, step) && (step.FlushErase? || step.FlushEnd? || step.Join?)
    ensures var t := Apply(s, step);
            t.worker == s.worker && !t.client.OfflineTaken?
            && (t.client.FlushAnswer? ==> s.client.FlushAnswer?)
  {
  }

  lemma {:induction false} AloneFrom(s: State, t: State)
    requires Alone(s) && t.early == s.early && t.late == s.late && t.queue == s.queue
    requires WorkerOwes(t.worker) == WorkerOwes(s.worker)
    requires ClientOwes(t.client) == ClientOwes(s.client)
    requires t.client.FlushAnswer? || t.client.OfflineTaken? ==> !Processing(t.worker)
    ensures Alone(t)
  {
  }

  lemma {:induction false} AloneClient(s: State, step: Step)
    requires Shape(s) && Alone(s) && Enabled(s, step)
    requires !Apply(s, step).timedOut && !Apply(s, step).hasty
    requires || step.Record? || step.Enqueue? || step.FlushTake? || step.FlushWake?
             || step.FlushTimeout? || step.OfflineTake? || step.OfflineWake? || step.OfflineTimeout?
    ensures Alone(Apply(s, step))
  {
    if step.Record? || step.Enqueue? {
      AloneSubmit(s, step);
    } else if step.FlushTake? || step.OfflineTake? {
      AloneDrain(s, step);
    } else {
      AloneWait(s, step);
    }
  }

  lemma {:induction false} AloneSubmit(s: State, step: Step)
    requires Alone(s) && Enabled(s, step) && (step.Record? || step.Enqueue?)
    requires !Apply(s, step).hasty
    ensures Alone(Apply(s, step))
  {
  }

  lemma {:induction false} AloneDrain(s: State, step: Step)
    requires Alone(s) && Enabled(s, step) && (step.FlushTake? || step.OfflineTake?)
    ensures Alone(Apply(s, step))
  {
  }

  lemma {:induction false} AloneWait(s: State, step: Step)
    requires Alone(s) && Enabled(s, step) && !Apply(s, step).timedOut
    requires step.FlushWake? || step.FlushTimeout? || step.OfflineWake? || step.OfflineTimeout?
    ensures Alone(Apply(s, step))
  {
  }

  lemma {:induction false} PromptStep(s: State, step: Step)
    requires Shape(s) && Prompt(s) && Enabled(s, step)
    ensures Prompt(Apply(s, step))
  {
    var t := Apply(s, step);
    HurryStays(s, step);
    if !t.timedOut && !t.hasty {
      AloneStep(s, step);
      InversionStep(s, step);
      if Delivers(step) && Given(s, step) != [] { AloneIsFirst(s, step); }
    }
  }

  lemma {:induction false} HurryStays(s: State, step: Step)
    requires Enabled(s, step)
    ensures s.timedOut ==> Apply(s, step).timedOut
    ensures s.hasty ==> Apply(s, step).hasty
  {
  }

  // ---------------------------------------------------------------- one device error

  /** After a device error the worker answers no more: what follows is reported by a flush or
      an offline switch, as request errors. */
  ghost predicate LastWord(s: State) {
    forall i {:trigger s.answers[i]} ::
      0 <= i < |s.answers| && s.answers[i].kind == DeviceError ==>
        && (s.worker.Stopped? || (s.worker.Delivered? && s.worker.stop))
        && forall j :: i < j < |s.answers| ==> s.answers[j].kind == RequestError
  }

  /** Errors(reqs) holds request errors only. */
  lemma {:induction false} ErrorsKind(reqs: seq<Request>)
    ensures forall i :: 0 <= i < |Errors(reqs)| ==> Errors(reqs)[i].kind == RequestError
  {
    if reqs != [] {
      ErrorsKind(reqs[1..]);
      forall i | 0 <= i < |Errors(reqs)| ensures Errors(reqs)[i].kind == RequestError {
        if i > 0 { assert Errors(reqs)[i] == Errors(reqs[1..])[i - 1]; }
      }
    }
  }

  /** The answers that a step gives. */
  function New(s: State, step: Step): seq<Answer>
    requires Enabled(s, step)
  {
    match step
    case ReportEarly(k) => Errors(s.early[k])
    case ReportLate(k) => Errors(s.late[k])
    case FlushDeliver => [Answer(s.client.taken[0].frame, RequestError)]
    case WorkerDeliver => [Answer(s.worker.req.frame, s.worker.kind)]
    case _ => []
  }

  lemma {:induction false} NewAnswers(s: State, step: Step)
    requires Enabled(s, step)
    ensures Apply(s, step).answers == s.answers + New(s, step)
    ensures step.WorkerDeliver? ==>
              Apply(s, step).worker == Delivered(New(s, step)[0].kind == DeviceError)
  {
  }

  lemma {:induction false} NewKinds(s: State, step: Step)
    requires Enabled(s, step) && !step.WorkerDeliver?
    ensures forall i :: 0 <= i < |New(s, step)| ==> New(s, step)[i].kind == RequestError
  {
    match step
    case ReportEarly(k) => ErrorsKind(s.early[k]);
    case ReportLate(k) => ErrorsKind(s.late[k]);
    case _ =>
  }

  lemma {:induction false} StaysStopped(s: State, step: Step)
    requires Enabled(s, step)
    requires s.worker.Stopped? || (s.worker.Delivered? && s.worker.stop)
    ensures !step.WorkerDeliver?
    ensures var w := Apply(s, step).worker; w.Stopped? || (w.Delivered? && w.stop)
  {
  }

  lemma {:induction false} LastWordStep(s: State, step: Step)
    requires LastWord(s) && Enabled(s, step)
    ensures LastWord(Apply(s, step))
  {
    var n := |s.answers|;
    NewAnswers(s, step);
    if !step.WorkerDeliver? { NewKinds(s, step); }
    if s.worker.Stopped? || (s.worker.Delivered? && s.worker.stop) { StaysStopped(s, step); }
    LastWordExtends(s, Apply(s, step), New(s, step), step.WorkerDeliver?);
  }

  lemma {:induction false} LastWordExtends(s: State, t: State, given: seq<Answer>, byWorker: bool)
    requires LastWord(s) && t.answers == s.answers + given
    requires byWorker ==> |given| == 1 && t.worker == Delivered(given[0].kind == DeviceError)
    requires !byWorker ==> forall i :: 0 <= i < |given| ==> given[i].kind == RequestError
    requires s.worker.Stopped? || (s.worker.Delivered? && s.worker.stop) ==>
               !byWorker && (t.worker.Stopped? || (t.worker.Delivered? && t.worker.stop))
    ensures LastWord(t)
  {
    forall i | 0 <= i < |t.answers| && t.answers[i].kind == DeviceError
      ensures t.worker.Stopped? || (t.worker.Delivered? && t.worker.stop)
      ensures forall j :: i < j < |t.answers| ==> t.answers[j].kind == RequestError
    {
      if i < |s.answers| { assert s.answers[i].kind == DeviceError; }
    }
  }

  // ---------------------------------------------------------------- reachable states

  ghost predicate Inv(s: State) {
    Accounting(s) && Ordered(s) && Prompt(s) && LastWord(s)
  }

  lemma {:induction false} InvInit()
    ensures Inv(Init)
  {
    assert Pending(Init) == [] && Init.early + Init.late == [];
  }

  lemma {:induction false} InvStep(s: State, step: Step)
    requires Inv(s) && Enabled(s, step)
    ensures Inv(Apply(s, step))
  {
    AccountingStep(s, step);
    OrderedStep(s, step);
    PromptStep(s, step);
    LastWordStep(s, step);
  }

  lemma {:induction false} InvReachable(s: State)
    requires Reachable(s)
    ensures Inv(s)
  {
    InvInit();
    forall a, b | Inv(a) && Next(a, b) ensures Inv(b) {
      var step :| Enabled(a, step) && b == Apply(a, step);
      InvStep(a, step);
    }
    Runs.Invariant(s, Init, Next, Inv);
  }
}
