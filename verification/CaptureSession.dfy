/** The session and its output thread as code: each method below is one call, or one critical
    section, and moves the protocol of CaptureProtocol by the steps it names. */
module CaptureSession {
  import Runs
  import opened CaptureProtocol
  import opened CaptureProofs
  import opened CaptureOrder
  import opened CaptureTheorems

  datatype Option<T> = None | Some(value: T)

  predicate IsWorkerStep(step: Step) {
    || step.WorkerTake? || step.WorkerErase? || step.WorkerDeliver?
    || step.WorkerSignal? || step.WorkerExit?
  }

  predicate IsReport(step: Step) { step.ReportEarly? || step.ReportLate? }

  /** What the worker and the binder threads with a report may have done while a call holds
      mInterfaceLock: they never touch what the call owns, and only take from the queue. */
  ghost predicate OthersMoved(s: State, t: State) {
    && t.client == s.client && t.submitted == s.submitted && t.handedOver == s.handedOver
    && t.lost == s.lost && t.stuck == s.stuck && t.exiting == s.exiting
    && s.answers <= t.answers && (s.queue == [] ==> t.queue == [])
  }

  /** What all the other threads may have done while the worker holds no lock. */
  ghost predicate ClientsMoved(s: State, t: State) {
    && s.answers <= t.answers && s.submitted <= t.submitted
    && (if s.worker.Working? then t.worker.Working? && t.worker.req == s.worker.req
        else t.worker == s.worker)
  }

  /** Each of the requests has been answered with a request error. */
  ghost predicate AllFailed(answers: seq<Answer>, reqs: seq<Request>) {
    forall req :: req in reqs ==> Answer(req.frame, RequestError) in answers
  }

  lemma {:induction false} OneMoreFailed(before: seq<Answer>, now: seq<Answer>, reqs: seq<Request>,
                                         i: nat)
    requires before <= now && i < |reqs| && AllFailed(before, reqs[..i])
    requires Answer(reqs[i].frame, RequestError) in now
    ensures AllFailed(now, reqs[..i + 1])
  {
    assert forall a :: a in before ==> a in now;
    assert reqs[..i + 1] == reqs[..i] + [reqs[i]];
  }

  /** An answered frame is neither pending nor in the record. */
  lemma {:induction false} AnsweredIsDone(s: State, a: Answer)
    requires Reachable(s) && a in s.answers
    ensures Count(Answered(s.answers), a.frame) == 1
    ensures a.frame !in Pending(s) && a.frame !in s.inflight
  {
    AnswerCounts(s.answers, a);
    ExactlyOnce(s, a.frame);
    CountMember(Answered(s.answers), a.frame);
    CountMember(Pending(s), a.frame);
    InvReachable(s);
    CountMember(s.lost, a.frame);
    InflightExactly(s, a.frame);
  }

  /** A frame that is answered once has no answer of another kind. */
  lemma {:induction false} OnlyAnswer(answers: seq<Answer>, a: Answer)
    requires a in answers && Count(Answered(answers), a.frame) == 1
    ensures forall b :: b in answers && b.frame == a.frame ==> b == a
  {
    forall b | b in answers && b.frame == a.frame ensures b == a {
      OneAnswer(answers, a, b);
    }
  }

  lemma {:induction false} OneAnswer(answers: seq<Answer>, a: Answer, b: Answer)
    requires a in answers && b in answers && a.frame == b.frame
    requires Count(Answered(answers), a.frame) <= 1
    ensures a == b
  {
    var rest := answers[1..];
    CountMember(Answered(rest), a.frame);
    if a in rest { AnswerCounts(rest, a); }
    if b in rest { AnswerCounts(rest, b); }
    if a in rest && b in rest { OneAnswer(rest, a, b); }
  }

  lemma {:induction false} AnswerCounts(answers: seq<Answer>, a: Answer)
    requires a in answers
    ensures a.frame in Answered(answers)
  {
    if answers[0] != a { AnswerCounts(answers[1..], a); }
  }

  lemma {:induction false} OtherStepMoves(s: State, step: Step)
    requires Enabled(s, step) && (IsWorkerStep(step) || IsReport(step))
    ensures OthersMoved(s, Apply(s, step))
  {
  }

  lemma {:induction false} ClientStepMoves(s: State, step: Step)
    requires Enabled(s, step) && !IsWorkerStep(step)
    ensures ClientsMoved(s, Apply(s, step))
  {
    HistoryExtends(s, step);
    KeepsWorker(s, step);
  }

  lemma {:induction false} KeepsWorker(s: State, step: Step)
    requires Enabled(s, step) && !IsWorkerStep(step)
    ensures var t := Apply(s, step);
            if s.worker.Working? then t.worker.Working? && t.worker.req == s.worker.req
            else t.worker == s.worker
  {
  }

  /** The worker's frame when the record has been cleared. */
  function Cleared(w: Worker): Worker {
    if w.Working? then w.(recorded := false) else w
  }

  method AfterDivision(s: State, keep: set<Frame>, init: bool) returns (t: State)
    requires s.client.OfflineTaken?
    ensures Next(s, t) && t.client.Idle?
    ensures t.queue == s.queue && t.exiting == s.exiting && t.submitted == s.submitted
    ensures t.answers == s.answers
    ensures var dropped := Split(s.client.taken, keep, false);
            && t.early + t.late == s.early + s.late + [dropped]
            && t.worker == (if init then Cleared(s.worker) else s.worker)
            && t.inflight == if init then {} else s.inflight - Elements(Frames(dropped))
    ensures var kept := Frames(Split(s.client.taken, keep, true));
            && t.handedOver == (if init then s.handedOver + kept else s.handedOver)
            && t.lost == (if init then s.lost else s.lost + kept)
            && t.stuck == if init then [] else s.stuck + kept
  {
    var step := OfflinePartition(keep, init);
    assert Enabled(s, step);
    t := Apply(s, step);
  }

  method AfterReport(s: State, k: nat) returns (t: State)
    requires k < |s.early + s.late|
    ensures Next(s, t) && t.client == s.client
    ensures t.early + t.late == (s.early + s.late)[..k] + (s.early + s.late)[k + 1..]
    ensures t.answers == s.answers + Errors((s.early + s.late)[k])
    ensures t.inflight == s.inflight && t.submitted == s.submitted
  {
    var step := if k < |s.early| then ReportEarly(k) else ReportLate(k - |s.early|);
    ReportTaken(s, step);
    ReportMade(s, step);
    t := Apply(s, step);
  }

  lemma {:induction false} ReportMade(s: State, step: Step)
    requires Enabled(s, step) && IsReport(step)
    ensures var t := Apply(s, step);
            var k := if step.ReportEarly? then step.k else |s.early| + step.k;
            && t.answers == s.answers + Errors((s.early + s.late)[k])
            && t.inflight == s.inflight && t.submitted == s.submitted
  {
  }

  class Session {
    var mInflightFrames: set<Frame>
    var mRequestList: seq<Request>
    var mProcessingRequest: bool
    var mExitPending: bool
    var mClosed: bool
    var mWorker: Worker         // where the output thread stands in its loop
    var mReports: seq<Report>   // results that switches have returned and not yet delivered
    var state: State            // all threads together; what the others do is drawn from it

    ghost predicate Valid()
      reads this
    {
      && mInflightFrames == state.inflight
      && mRequestList == state.queue
      && mWorker == state.worker
      && mProcessingRequest == Processing(mWorker)
      && mExitPending == state.exiting
      && mClosed == state.client.Closed?
      && mReports == state.early + state.late
      && Reachable(state)
    }

    constructor ()
      ensures Valid() && state == Init
    {
      mInflightFrames, mRequestList, mReports := {}, [], [];
      mProcessingRequest, mExitPending, mClosed := false, false, false;
      mWorker := Ready;
      state := Init;
      new;
      InitReachable();
    }

    // -------------------------------------------------------------- the other threads

    /** Some step of another thread. */
    method Other(step: Step)
      requires Valid() && Enabled(state, step)
      modifies this
      ensures Valid() && state == Apply(old(state), step)
    {
      RunOn(state, step);
      Become(Apply(state, step));
    }

    method Become(next: State)
      requires Valid() && Reachable(next)
      modifies this
      ensures Valid() && state == next
    {
      state := next;
      mInflightFrames, mRequestList, mWorker := state.inflight, state.queue, state.worker;
      mProcessingRequest, mExitPending := Processing(state.worker), state.exiting;
      mClosed, mReports := state.client.Closed?, state.early + state.late;
    }

    /** Whatever the worker and the outstanding reports do between two critical sections of a
        call. */
    method Interference()
      requires Valid()
      modifies this
      ensures Valid() && OthersMoved(old(state), state)
    {
      var steps: nat := *;
      while steps > 0
        invariant Valid() && OthersMoved(old(state), state)
      {
        var step: Step := *;
        if (IsWorkerStep(step) || IsReport(step)) && Enabled(state, step) {
          OtherStepMoves(state, step);
          Other(step);
        }
        steps := steps - 1;
      }
    }

    /** Whatever all others do between two critical sections of the worker. */
    method ClientInterference()
      requires Valid()
      modifies this
      ensures Valid() && ClientsMoved(old(state), state)
    {
      var steps: nat := *;
      while steps > 0
        invariant Valid() && ClientsMoved(old(state), state)
      {
        var step: Step := *;
        if !IsWorkerStep(step) && Enabled(state, step) {
          ClientStepMoves(state, step);
          Other(step);
        }
        steps := steps - 1;
      }
    }

    // -------------------------------------------------------------- the client's submission

    /** The last step of processOneCaptureRequest that can still be refused is behind us: the
        frame enters the record, then the queue. */
    method RecordInflight(req: Request)
      requires Valid() && Enabled(state, Record(req))
      modifies this
      ensures Valid() && state == Apply(old(state), Record(req))
    {
      RunOn(state, Record(req));
      mInflightFrames := mInflightFrames + {req.frame};
      state := Apply(state, Record(req));
    }

    method SubmitRequest(req: Request)
      requires Valid() && state.client == Submitting(req)
      modifies this
      ensures Valid() && state == Apply(old(state), Enqueue)
    {
      RunOn(state, Enqueue);
      mRequestList := mRequestList + [req];
      state := Apply(state, Enqueue);
    }

    /** The check that configureStreams makes before it touches any stream. */
    method NoneInflight() returns (quiet: bool)
      requires Valid() && state.client.Idle?
      ensures quiet <==> state.stuck == []
                         && forall f :: f in Pending(state) ==> Unrecorded(state, f)
      ensures quiet ==> mRequestList == []
    {
      quiet := mInflightFrames == {};
      forall f
        ensures f in state.inflight
           <==> (f in Pending(state) && !Unrecorded(state, f)) || f in state.stuck
      {
        InflightExactly(state, f);
      }
      if quiet {
        ConfigureFindsNoRequest(state);
      } else if state.stuck == [] {
        RecordIsPendingExactly(state);
      }
    }

    // -------------------------------------------------------------- the worker's steps

    method WaitForNextRequest() returns (out: Option<Request>)
      requires Valid() && mWorker.Ready?
      modifies this
      ensures Valid()
      ensures old(mRequestList) == [] ==> out == None && state == old(state)
      ensures old(mRequestList) != [] ==>
                out == Some(old(mRequestList)[0]) && state == Apply(old(state), WorkerTake)
    {
      if mRequestList == [] { return None; }
      RunOn(state, WorkerTake);
      out := Some(mRequestList[0]);
      mRequestList := mRequestList[1..];
      mProcessingRequest := true;
      mWorker := Working(out.value, true);
      state := Apply(state, WorkerTake);
    }

    /** The two halves of a report: the record is erased, then the framework is called. */
    method EraseRecord(kind: Kind)
      requires Valid() && mWorker.Working? && CanAnswer(mWorker.req, kind)
      modifies this
      ensures Valid() && state == Apply(old(state), WorkerErase(kind))
    {
      RunOn(state, WorkerErase(kind));
      mInflightFrames := mInflightFrames - {mWorker.req.frame};
      mWorker := Delivering(mWorker.req, kind);
      state := Apply(state, WorkerErase(kind));
    }

    method CallBack()
      requires Valid() && mWorker.Delivering?
      modifies this
      ensures Valid() && state == Apply(old(state), WorkerDeliver)
      ensures mWorker == Delivered(old(mWorker).kind == DeviceError)
      ensures state.answers
           == old(state.answers) + [Answer(old(mWorker).req.frame, old(mWorker).kind)]
    {
      RunOn(state, WorkerDeliver);
      mWorker := Delivered(mWorker.kind == DeviceError);
      state := Apply(state, WorkerDeliver);
    }

    method SignalRequestDone()
      requires Valid() && mWorker.Delivered?
      modifies this
      ensures Valid()
      ensures state == old(state).(worker := if old(mWorker).stop then Stopped else Ready)
    {
      RunOn(state, WorkerSignal);
      mProcessingRequest := false;
      mWorker := if mWorker.stop then Stopped else Ready;
      state := Apply(state, WorkerSignal);
    }

    /** One turn of the output thread, all other threads moving between its critical sections.
        usable is how many of the request's buffers can be written; copied says that the copy
        into them succeeded. The answer is one result, one request error, or one device error,
        after which the thread is not called again. */
    method ThreadLoop(usable: nat, copied: bool) returns (again: bool)
      requires Valid() && mWorker.Ready?
      modifies this
      ensures Valid() && old(state.answers) <= state.answers
      ensures old(mRequestList) == [] ==> again && state == old(state)
      ensures old(mRequestList) != [] ==>
                var req := old(mRequestList)[0];
                && (Answer(req.frame, Good) in state.answers
                    <==> req.status && (req.outputs != 2 || (usable > 0 && copied)))
                && (Answer(req.frame, RequestError) in state.answers
                    <==> !req.status || (req.outputs == 2 && usable == 0))
                && (Answer(req.frame, DeviceError) in state.answers
                    <==> req.status && req.outputs == 2 && usable > 0 && !copied)
                && (again <==> Answer(req.frame, DeviceError) !in state.answers)
                && mWorker == (if again then Ready else Stopped) && !mProcessingRequest
                && Count(Answered(state.answers), req.frame) == 1
                && req.frame !in Pending(state) && req.frame !in mInflightFrames
    {
      var next := WaitForNextRequest();
      if next.None? { return true; }
      ClientInterference();
      var req, kind := next.value, Good;
      if !req.status {
        kind := RequestError;
      } else if req.outputs == 2 {
        if usable == 0 {
          kind := RequestError;
        } else if !copied {
          kind := DeviceError;
        }
      }
      AnswerRequest(kind);
      AnsweredIsDone(state, Answer(req.frame, kind));
      OnlyAnswer(state.answers, Answer(req.frame, kind));
      again := kind != DeviceError;
    }

    /** The request under work is answered: its record goes, the framework is called, and the end
        is signalled. */
    method AnswerRequest(kind: Kind)
      requires Valid() && mWorker.Working? && CanAnswer(mWorker.req, kind)
      modifies this
      ensures Valid() && old(state.answers) <= state.answers
      ensures mWorker == if kind == DeviceError then Stopped else Ready
      ensures Answer(old(mWorker).req.frame, kind) in state.answers
    {
      EraseRecord(kind);
      ClientInterference();
      FinishTurn(kind);
    }

    /** The callback and the signal. */
    method FinishTurn(kind: Kind)
      requires Valid() && mWorker.Delivering? && mWorker.kind == kind
      modifies this
      ensures Valid() && old(state.answers) <= state.answers
      ensures mWorker == if kind == DeviceError then Stopped else Ready
      ensures Answer(old(mWorker).req.frame, kind) in state.answers
    {
      ghost var before, a := state.answers, Answer(mWorker.req.frame, kind);
      CallBack();
      ClientInterference();
      SignalRequestDone();
      assert state.answers[|before|] == a;
    }

    // -------------------------------------------------------------- the client's flush

    /** The queue is taken in one go; then the flush waits for the worker, until its signal or
        the timeout. */
    method TakeQueue(closing: bool) returns (reqs: seq<Request>)
      requires Valid() && state.client.Idle?
      modifies this
      ensures Valid() && reqs == old(mRequestList) && mRequestList == []
      ensures state.client == FlushAnswer(reqs, false, closing)
      ensures OthersMoved(old(state), state.(client := old(state.client)))
    {
      RunOn(state, FlushTake(closing));
      reqs := mRequestList;
      mRequestList := [];
      state := Apply(state, FlushTake(closing));
      if mProcessingRequest {
        Interference();
        if mProcessingRequest {
          RunOn(state, FlushTimeout);
          state := Apply(state, FlushTimeout);
        } else {
          RunOn(state, FlushWake);
          state := Apply(state, FlushWake);
        }
      }
    }

    method AnswerAll(reqs: seq<Request>, closing: bool)
      requires Valid() && state.client == FlushAnswer(reqs, false, closing) && mRequestList == []
      modifies this
      ensures Valid() && state.client == FlushAnswer([], false, closing) && mRequestList == []
      ensures OthersMoved(old(state), state.(client := old(state.client)))
      ensures AllFailed(state.answers, reqs)
    {
      var i := 0;
      while i < |reqs|
        invariant 0 <= i <= |reqs| && mRequestList == []
        invariant Valid() && state.client == FlushAnswer(reqs[i..], false, closing)
        invariant OthersMoved(old(state), state.(client := old(state.client)))
        invariant AllFailed(state.answers, reqs[..i])
      {
        ghost var before := state.answers;
        Interference();
        ProcessCaptureRequestError(reqs[i]);
        OneMoreFailed(before, state.answers, reqs, i);
        i := i + 1;
      }
      assert reqs[..|reqs|] == reqs;
    }

    method FinishFlush(closing: bool)
      requires Valid() && state.client == FlushAnswer([], false, closing)
      modifies this
      ensures Valid() && state == Apply(old(state), FlushEnd)
    {
      RunOn(state, FlushEnd);
      if closing { mExitPending := true; }
      state := Apply(state, FlushEnd);
    }

    /** OutputThread.flush, the worker and the reports running all the while. Everything that was
        queued is answered as a request error, and nothing is left but what the worker and the
        outstanding reports owe. */
    method Flush(closing: bool)
      requires Valid() && state.client.Idle?
      modifies this
      ensures Valid() && mRequestList == []
      ensures state.client == if closing then Joining else Idle
      ensures state.submitted == old(state.submitted) && state.handedOver == old(state.handedOver)
      ensures state.lost == old(state.lost) && state.stuck == old(state.stuck)
      ensures old(state.answers) <= state.answers
      ensures AllFailed(state.answers, old(mRequestList))
      ensures Pending(state) == Owed(state)
    {
      var reqs := TakeQueue(closing);
      AnswerAll(reqs, closing);
      FinishFlush(closing);
      assert Owed(state) + ([] + []) == Owed(state);
    }

    /** The report of one flushed request, the others running between its two halves. */
    method ProcessCaptureRequestError(req: Request)
      requires Valid() && state.client.FlushAnswer? && state.client.taken != []
      requires req == state.client.taken[0] && !state.client.erased
      modifies this
      ensures Valid() && (old(mRequestList) == [] ==> mRequestList == [])
      ensures state.client == old(state.client).(taken := old(state.client.taken)[1..])
      ensures OthersMoved(old(state), state.(client := old(state.client)))
      ensures Answer(req.frame, RequestError) in state.answers
    {
      RunOn(state, FlushErase);
      mInflightFrames := mInflightFrames - {req.frame};
      state := Apply(state, FlushErase);
      Interference();
      RunOn(state, FlushDeliver);
      state := Apply(state, FlushDeliver);
      assert state.answers[|state.answers| - 1] == Answer(req.frame, RequestError);
    }

    // -------------------------------------------------------------- the offline switch

    /** OutputThread.switchToOffline: as a flush, but the requests are not answered. */
    method TakeForOffline() returns (reqs: seq<Request>)
      requires Valid() && state.client.Idle?
      modifies this
      ensures Valid() && reqs == old(mRequestList) && mRequestList == []
      ensures state.client == OfflineTaken(reqs)
      ensures OthersMoved(old(state), state.(client := old(state.client)))
    {
      RunOn(state, OfflineTake);
      reqs := mRequestList;
      mRequestList := [];
      state := Apply(state, OfflineTake);
      if mProcessingRequest {
        Interference();
        if mProcessingRequest {
          RunOn(state, OfflineTimeout);
          state := Apply(state, OfflineTimeout);
        } else {
          RunOn(state, OfflineWake);
          state := Apply(state, OfflineWake);
        }
      }
    }

    /** The switch as far as it holds the lock. The queued requests are divided; those dropped go
        into a report, their records erased. If the offline session initialises, the others are
        handed over and the record is cleared, whatever the worker may still be at; if not, they
        are lost, and stay in the record. Only what was owed before is still owed, and the
        report. */
    method SwitchToOffline(keep: set<Frame>, init: bool)
      requires Valid() && state.client.Idle?
      modifies this
      ensures Valid() && state.client.Idle? && mRequestList == []
      ensures state.submitted == old(state.submitted) && old(state.answers) <= state.answers
      ensures var kept := Frames(Split(old(mRequestList), keep, true));
              if init then
                && state.handedOver == old(state.handedOver) + kept
                && state.lost == old(state.lost) && mInflightFrames == {} && state.stuck == []
              else
                && state.handedOver == old(state.handedOver)
                && state.lost == old(state.lost) + kept && state.stuck == old(state.stuck) + kept
      ensures mReports != []
           && mReports[|mReports| - 1] == Split(old(mRequestList), keep, false)
      ensures Pending(state) == Owed(state)
    {
      var reqs := TakeForOffline();
      Divide(reqs, keep, init);
      assert Owed(state) + ([] + []) == Owed(state);
    }

    method Divide(reqs: seq<Request>, keep: set<Frame>, init: bool)
      requires Valid() && state.client == OfflineTaken(reqs)
      modifies this
      ensures Valid() && state.client.Idle? && state.queue == old(state.queue)
      ensures state.submitted == old(state.submitted) && state.answers == old(state.answers)
      ensures mReports == old(mReports) + [Split(reqs, keep, false)]
      ensures var kept := Frames(Split(reqs, keep, true));
              if init then
                && state.handedOver == old(state.handedOver) + kept
                && state.lost == old(state.lost) && mInflightFrames == {} && state.stuck == []
              else
                && state.handedOver == old(state.handedOver)
                && state.lost == old(state.lost) + kept && state.stuck == old(state.stuck) + kept
    {
      var next := AfterDivision(state, keep, init);
      Runs.RunOn(state, next, Init, Next);
      var dropped := Split(reqs, keep, false);
      if init {
        mInflightFrames := {};
        mWorker := Cleared(mWorker);
      } else {
        mInflightFrames := mInflightFrames - Elements(Frames(dropped));
      }
      mReports := mReports + [dropped];
      state := next;
    }

    /** Some time after that, without the lock: one report reaches the framework. */
    method DeliverReport(k: nat)
      requires Valid() && k < |mReports|
      modifies this
      ensures Valid() && state.client == old(state.client)
      ensures mReports == old(mReports)[..k] + old(mReports)[k + 1..]
      ensures state.answers == old(state.answers) + Errors(old(mReports)[k])
      ensures state.submitted == old(state.submitted) && mInflightFrames == old(mInflightFrames)
    {
      var next := AfterReport(state, k);
      Runs.RunOn(state, next, Init, Next);
      Become(next);
    }

    // -------------------------------------------------------------- closing

    method Join()
      requires Valid() && state.client.Joining? && mRequestList == []
      modifies this
      ensures Valid() && state.client.Joining? && mWorker.Stopped?
      ensures OthersMoved(old(state), state)
    {
      InvReachable(state);
      while !mWorker.Stopped?
        invariant Valid() && state.client.Joining? && mRequestList == [] && mExitPending
        invariant OthersMoved(old(state), state)
        decreases WorkerRank(mWorker)
      {
        WorkerStep();
      }
    }

    /** The worker's next step when it is asked to exit and has nothing queued. */
    method WorkerStep()
      requires Valid() && mExitPending && mRequestList == [] && !mWorker.Stopped?
      modifies this
      ensures Valid() && OthersMoved(old(state), state)
      ensures WorkerRank(mWorker) < WorkerRank(old(mWorker))
    {
      var kind :| mWorker.Working? ==> CanAnswer(mWorker.req, kind);
      var step :=
        match mWorker
        case Working(_, _) => WorkerErase(kind)
        case Delivering(_, _) => WorkerDeliver
        case Delivered(_) => WorkerSignal
        case _ => WorkerExit;
      OtherStepMoves(state, step);
      Other(step);
    }

    /** close: flush, ask the worker to exit, join it. Nothing is left in the pipeline but the
        outstanding reports, and nothing in the record but what a failed switch has left there,
        even if the flush's wait timed out. */
    method Close()
      requires Valid() && state.client.Idle?
      modifies this
      ensures Valid() && mClosed && mWorker.Stopped?
      ensures Pending(state) == Reported(state) && mInflightFrames == Elements(state.stuck)
      ensures state.lost == old(state.lost) && state.stuck == old(state.stuck)
      ensures state.submitted == old(state.submitted) && old(state.answers) <= state.answers
    {
      Flush(true);
      Join();
      RunOn(state, CaptureProtocol.Join);
      mClosed := true;
      state := Apply(state, CaptureProtocol.Join);
      CloseLeavesExactly(state, 0);
    }
  }
}
