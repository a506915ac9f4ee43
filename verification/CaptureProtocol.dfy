/** The capture pipeline of the device session as one concurrent protocol.

    Client calls are serialised by mInterfaceLock: they submit requests, flush, close or switch to
    offline. The output worker takes one request at a time and answers it. A switch to offline
    releases the lock before it reports the requests it has dropped, so that any number of such
    reports can be outstanding while other calls go on. Each step below is one critical section,
    or one callback into the framework; a run interleaves them freely.

    A step that reports a frame is split in two where the session erases the frame from its
    in-flight record before it calls the framework back. */
module CaptureProtocol {
  import Runs

  type Frame = nat

  /** outputs is 1 or 2; status is false when the capture already failed at submission. */
  datatype Request = Request(frame: Frame, outputs: nat, status: bool)

  datatype Kind = Good | RequestError | DeviceError

  datatype Answer = Answer(frame: Frame, kind: Kind)

  datatype Worker =
    | Ready                                  // mProcessingRequest is false
    | Working(req: Request, recorded: bool)  // popped; recorded: still in mInflightFrames
    | Delivering(req: Request, kind: Kind)   // record erased, callback not made yet
    | Delivered(stop: bool)                  // answered, signalRequestDone not reached yet
    | Stopped                                // threadLoop has returned for good

  /** The call that holds mInterfaceLock. */
  datatype Client =
    | Idle
    | Submitting(req: Request)                               // recorded, not queued yet
    | FlushWait(taken: seq<Request>, closing: bool)          // blocked on mRequestDoneCond
    | FlushAnswer(taken: seq<Request>, erased: bool, closing: bool)
    | Joining                                                // requestExit made, in join
    | OfflineWait(taken: seq<Request>)                       // blocked on mRequestDoneCond
    | OfflineTaken(taken: seq<Request>)
    | Closed                                                 // mClosed is true

  /** What one switch has dropped and its binder thread has yet to report. */
  type Report = seq<Request>

  /** early and late are the outstanding reports, in the order of their switches; the early ones
      are older than the frame that the worker has taken. That division, submitted, answers,
      handedOver, lost, stuck, inversion, timedOut and hasty record the history of the run; the
      other fields are the session's own.

      lost: kept by a switch whose offline session failed to initialise. stuck: those of them that
      no later switch has cleared from the record. timedOut: some wait ended by its timeout.
      hasty: a request was submitted while a dropped one was still unreported. */
  datatype State = State(
    inflight: set<Frame>,
    queue: seq<Request>,
    worker: Worker,
    client: Client,
    exiting: bool,
    early: seq<Report>,
    late: seq<Report>,
    submitted: seq<Frame>,
    answers: seq<Answer>,
    handedOver: seq<Frame>,
    lost: seq<Frame>,
    stuck: seq<Frame>,
    inversion: Inversion,
    timedOut: bool,
    hasty: bool)

  /** The first pair answered the wrong way round: older was submitted before younger. */
  datatype Inversion = NoInversion | Overtaken(older: Frame, younger: Frame)

  datatype Step =
    | Record(req: Request)
    | Enqueue
    | WorkerTake
    | WorkerErase(kind: Kind)
    | WorkerDeliver
    | WorkerSignal
    | WorkerExit
    | FlushTake(closing: bool)
    | FlushWake
    | FlushTimeout
    | FlushErase
    | FlushDeliver
    | FlushEnd
    | Join
    | OfflineTake
    | OfflineWake
    | OfflineTimeout
    | OfflinePartition(keep: set<Frame>, init: bool)  // init: the offline session initialises
    | ReportEarly(k: nat)                             // a report reaches the framework
    | ReportLate(k: nat)

  const Init := State({}, [], Ready, Idle, false, [], [], [], [], [], [], [], NoInversion,
                      false, false)

  // ---------------------------------------------------------------- steps

  /** mProcessingRequest. */
  predicate Processing(w: Worker) { w.Working? || w.Delivering? || w.Delivered? }

  /** The answers that threadLoop can give, native_handle_create not failing: a request that
      failed at submission is reported at once, and only the two-output path can find no
      usable buffer or see a copy fail. */
  predicate CanAnswer(req: Request, kind: Kind) {
    match kind
    case Good => req.status
    case RequestError => !req.status || req.outputs == 2
    case DeviceError => req.status && req.outputs == 2
  }

  predicate Enabled(s: State, step: Step) {
    match step
    case Record(req) => s.client.Idle? && 1 <= req.outputs <= 2 && req.frame !in s.submitted
    case Enqueue => s.client.Submitting?
    case WorkerTake => s.worker.Ready? && s.queue != []
    case WorkerErase(kind) => s.worker.Working? && CanAnswer(s.worker.req, kind)
    case WorkerDeliver => s.worker.Delivering?
    case WorkerSignal => s.worker.Delivered?
    case WorkerExit => s.worker.Ready? && s.exiting
    case FlushTake(_) => s.client.Idle?
    case FlushWake => s.client.FlushWait? && !Processing(s.worker)
    case FlushTimeout => s.client.FlushWait?
    case FlushErase => s.client.FlushAnswer? && s.client.taken != [] && !s.client.erased
    case FlushDeliver => s.client.FlushAnswer? && s.client.taken != [] && s.client.erased
    case FlushEnd => s.client.FlushAnswer? && s.client.taken == []
    case Join => s.client.Joining? && s.worker.Stopped?
    case OfflineTake => s.client.Idle?
    case OfflineWake => s.client.OfflineWait? && !Processing(s.worker)
    case OfflineTimeout => s.client.OfflineWait?
    case OfflinePartition(_, _) => s.client.OfflineTaken?
    case ReportEarly(k) => k < |s.early|
    case ReportLate(k) => k < |s.late|
  }

  function Apply(s: State, step: Step): State
    requires Enabled(s, step)
  {
    match step
    case Record(req) =>
      s.(inflight := s.inflight + {req.frame}, client := Submitting(req),
         submitted := s.submitted + [req.frame],
         hasty := s.hasty || Reported(s) != [])
    case Enqueue =>
      s.(queue := s.queue + [s.client.req], client := Idle)
    case WorkerTake =>
      s.(queue := s.queue[1..], worker := Working(s.queue[0], true),
         early := s.early + s.late, late := [])
    case WorkerErase(kind) =>
      s.(inflight := s.inflight - {s.worker.req.frame}, worker := Delivering(s.worker.req, kind))
    case WorkerDeliver =>
      s.(answers := s.answers + [Answer(s.worker.req.frame, s.worker.kind)],
         worker := Delivered(s.worker.kind == DeviceError),
         inversion := Overtake(s.inversion, Ahead(s, step), Given(s, step)))
    case WorkerSignal =>
      s.(worker := if s.worker.stop then Stopped else Ready)
    case WorkerExit =>
      s.(worker := Stopped)
    case FlushTake(closing) =>
      s.(queue := [],
         client := if Processing(s.worker) then FlushWait(s.queue, closing)
                   else FlushAnswer(s.queue, false, closing))
    case FlushWake =>
      s.(client := FlushAnswer(s.client.taken, false, s.client.closing))
    case FlushTimeout =>
      s.(client := FlushAnswer(s.client.taken, false, s.client.closing), timedOut := true)
    case FlushErase =>
      s.(inflight := s.inflight - {s.client.taken[0].frame}, client := s.client.(erased := true))
    case FlushDeliver =>
      s.(answers := s.answers + [Answer(s.client.taken[0].frame, RequestError)],
         client := s.client.(taken := s.client.taken[1..], erased := false),
         inversion := Overtake(s.inversion, Ahead(s, step), Given(s, step)))
    case FlushEnd =>
      if s.client.closing then s.(client := Joining, exiting := true) else s.(client := Idle)
    case Join =>
      s.(client := Closed)
    case OfflineTake =>
      s.(queue := [],
         client := if Processing(s.worker) then OfflineWait(s.queue) else OfflineTaken(s.queue))
    case OfflineWake =>
      s.(client := OfflineTaken(s.client.taken))
    case OfflineTimeout =>
      s.(client := OfflineTaken(s.client.taken), timedOut := true)
    case OfflinePartition(keep, init) =>
      var dropped := Split(s.client.taken, keep, false);
      var kept := Frames(Split(s.client.taken, keep, true));
      var t := s.(client := Idle, late := s.late + [dropped]);
      if init then
        t.(inflight := {}, stuck := [], handedOver := s.handedOver + kept,
           worker := if s.worker.Working? then s.worker.(recorded := false) else s.worker)
      else
        t.(inflight := s.inflight - Elements(Frames(dropped)),
           stuck := s.stuck + kept, lost := s.lost + kept)
    case ReportEarly(k) =>
      s.(answers := s.answers + Errors(s.early[k]), early := s.early[..k] + s.early[k + 1..],
         inversion := Overtake(s.inversion, Ahead(s, step), Given(s, step)))
    case ReportLate(k) =>
      s.(answers := s.answers + Errors(s.late[k]), late := s.late[..k] + s.late[k + 1..],
         inversion := Overtake(s.inversion, Ahead(s, step), Given(s, step)))
  }

  /** The requests of reqs that stay (keep them: inside) or go, in order. */
  function Split(reqs: seq<Request>, keep: set<Frame>, inside: bool): seq<Request> {
    if reqs == [] then []
    else (if (reqs[0].frame in keep) == inside then [reqs[0]] else [])
         + Split(reqs[1..], keep, inside)
  }

  function Errors(reqs: seq<Request>): seq<Answer> {
    if reqs == [] then [] else [Answer(reqs[0].frame, RequestError)] + Errors(reqs[1..])
  }

  ghost predicate Next(s: State, t: State) {
    exists step :: Enabled(s, step) && t == Apply(s, step)
  }

  ghost predicate Reachable(s: State) { Runs.Reachable(s, Init, Next) }

  // ---------------------------------------------------------------- what is owed

  function Frames(reqs: seq<Request>): seq<Frame> {
    if reqs == [] then [] else [reqs[0].frame] + Frames(reqs[1..])
  }

  function Answered(answers: seq<Answer>): seq<Frame> {
    if answers == [] then [] else [answers[0].frame] + Answered(answers[1..])
  }

  /** The frames of all the reports. */
  function Flat(reports: seq<Report>): seq<Frame> {
    if reports == [] then [] else Frames(reports[0]) + Flat(reports[1..])
  }

  /** The frames of the outstanding reports. */
  function Reported(s: State): seq<Frame> { Flat(s.early) + Flat(s.late) }

  function WorkerOwes(w: Worker): seq<Frame> {
    if w.Working? || w.Delivering? then [w.req.frame] else []
  }

  /** What the client has taken out of the queue and not answered, or not queued yet. */
  function ClientOwes(c: Client): seq<Frame> {
    match c
    case Submitting(req) => [req.frame]
    case FlushWait(taken, _) => Frames(taken)
    case FlushAnswer(taken, _, _) => Frames(taken)
    case OfflineWait(taken) => Frames(taken)
    case OfflineTaken(taken) => Frames(taken)
    case _ => []
  }

  /** What is owed by earlier calls than the present one, and by the worker. */
  function Owed(s: State): seq<Frame> {
    Flat(s.early) + WorkerOwes(s.worker) + Flat(s.late)
  }

  /** The frames without an answer, oldest first. The queue and what a flush has taken are
      never both non-empty, and a request being submitted is the youngest. */
  function Pending(s: State): seq<Frame> {
    Owed(s) + (Frames(s.queue) + ClientOwes(s.client))
  }

  /** The client has emptied the queue and holds mInterfaceLock, so nothing enters it. */
  predicate Draining(c: Client) { !c.Idle? && !c.Submitting? }

  // ---------------------------------------------------------------- answers and their order

  predicate Delivers(step: Step) {
    step.WorkerDeliver? || step.FlushDeliver? || step.ReportEarly? || step.ReportLate?
  }

  /** The frames that the step answers. */
  function Given(s: State, step: Step): seq<Frame>
    requires Enabled(s, step) && Delivers(step)
  {
    match step
    case ReportEarly(k) => Frames(s.early[k])
    case ReportLate(k) => Frames(s.late[k])
    case FlushDeliver => [s.client.taken[0].frame]
    case _ => WorkerOwes(s.worker)
  }

  /** The pending frames older than those: for the worker those of the early reports, for a flush
      whatever the worker and the reports owe, for a report those before it. */
  function Ahead(s: State, step: Step): seq<Frame>
    requires Enabled(s, step) && Delivers(step)
  {
    match step
    case ReportEarly(k) => Flat(s.early[..k])
    case ReportLate(k) => Flat(s.early) + WorkerOwes(s.worker) + Flat(s.late[..k])
    case FlushDeliver => Owed(s)
    case _ => Flat(s.early)
  }

  /** History only: the first time that frames are answered past older ones. */
  function Overtake(inversion: Inversion, ahead: seq<Frame>, given: seq<Frame>): Inversion {
    if inversion.NoInversion? && ahead != [] && given != [] then Overtaken(ahead[0], given[0])
    else inversion
  }

  // ---------------------------------------------------------------- the in-flight record

  /** The frames that mInflightFrames must hold, given who owes what. */
  function Recorded(s: State): set<Frame> {
    var byWorker := if s.worker.Working? && s.worker.recorded then {s.worker.req.frame} else {};
    var byClient :=
      match s.client
      case FlushAnswer(taken, erased, _) =>
        if erased && taken != [] then Elements(Frames(taken[1..])) else Elements(Frames(taken))
      case c => Elements(ClientOwes(c));
    byWorker + Elements(Frames(s.queue)) + byClient
  }

  function Elements(fs: seq<Frame>): set<Frame> { set f | f in fs }

  // ---------------------------------------------------------------- sequences of frames

  /** The frames of fs that are not in gone, in order. */
  function Without(fs: seq<Frame>, gone: seq<Frame>): seq<Frame> {
    if fs == [] then []
    else Without(fs[..|fs| - 1], gone) + (if fs[|fs| - 1] in gone then [] else [fs[|fs| - 1]])
  }

  /** The frames that stayed with the device session and were not lost. */
  function Stayed(s: State): seq<Frame> { Without(s.submitted, s.handedOver + s.lost) }

  /** How often f occurs in fs. */
  function Count(fs: seq<Frame>, f: Frame): nat {
    if fs == [] then 0 else (if fs[0] == f then 1 else 0) + Count(fs[1..], f)
  }

  /** a is submitted before b. */
  ghost predicate Before(fs: seq<Frame>, a: Frame, b: Frame) {
    exists i, j :: 0 <= i < j < |fs| && fs[i] == a && fs[j] == b
  }
}
