/** switchToOffline: the requests the output thread gives back are either failed whole, or kept
    for the offline session without the buffers of the streams that stay behind. */
module OfflineSwitch {
  import CaptureProtocol
  import CaptureProofs

  type StreamId = int
  type BufferId = nat

  /** A negative fence is no fence. */
  datatype Buffer = Buffer(stream: StreamId, id: BufferId, acquireFence: int)

  datatype Request = Request(frame: nat, shutterTs: int, buffers: seq<Buffer>)

  datatype ErrorCode = ERROR_REQUEST | ERROR_BUFFER

  datatype Msg =
    | Shutter(frame: nat, timestamp: int)
    | Error(frame: nat, stream: StreamId, code: ErrorCode)

  /** A buffer of a result; its status is always ERROR here. */
  datatype OutBuffer = OutBuffer(stream: StreamId, id: BufferId, releaseFence: int)

  /** final: the one result with partialResult 1; otherwise it only returns a buffer. */
  datatype Result = Result(frame: nat, final: bool, buffers: seq<OutBuffer>)

  datatype Outcome = Outcome(msgs: seq<Msg>, results: seq<Result>, kept: seq<Request>)

  // ---------------------------------------------------------------- the code

  method CanDropRequest(offlineStreams: seq<StreamId>, req: Request) returns (drop: bool)
    ensures drop <==> forall b :: b in req.buffers ==> b.stream !in offlineStreams
  {
    for i := 0 to |req.buffers|
      invariant forall k :: 0 <= k < i ==> req.buffers[k].stream !in offlineStreams
    {
      for j := 0 to |offlineStreams|
        invariant req.buffers[i].stream !in offlineStreams[..j]
      {
        if req.buffers[i].stream == offlineStreams[j] { return false; }
      }
    }
    drop := true;
  }

  /** processCaptureRequestError with the two output vectors given. inflight is
      mInflightFrames. */
  method FailRequest(req: Request, msgs: seq<Msg>, results: seq<Result>, inflight: set<nat>)
    returns (outMsgs: seq<Msg>, outResults: seq<Result>, left: set<nat>)
    ensures outMsgs == msgs + Failure(req).0 && outResults == results + Failure(req).1
    ensures left == inflight - {req.frame}
  {
    outMsgs := msgs + [Shutter(req.frame, req.shutterTs)];
    outMsgs := outMsgs + [Error(req.frame, -1, ERROR_REQUEST)];
    var buffers := [];
    for i := 0 to |req.buffers|
      invariant |buffers| == i
      invariant forall k :: 0 <= k < i ==> buffers[k] == Failed(req.buffers[k])
    {
      var b := req.buffers[i];
      var releaseFence := if b.acquireFence >= 0 then b.acquireFence else -1;
      buffers := buffers + [OutBuffer(b.stream, b.id, releaseFence)];
    }
    assert buffers == AllFailed(req.buffers);
    left := inflight - {req.frame};
    outResults := results + [Result(req.frame, true, buffers)];
  }

  /** The buffers of a kept request: those of other streams are returned with an error. */
  method ReturnBuffers(offlineStreams: seq<StreamId>, req: Request, msgs: seq<Msg>,
                       results: seq<Result>)
    returns (outMsgs: seq<Msg>, outResults: seq<Result>, offlineBuffers: seq<Buffer>)
    ensures outMsgs == msgs + Returned(req, offlineStreams, req.buffers).0
    ensures outResults == results + Returned(req, offlineStreams, req.buffers).1
    ensures offlineBuffers == Offline(req.buffers, offlineStreams)
  {
    outMsgs, outResults, offlineBuffers := msgs, results, [];
    for j := 0 to |req.buffers|
      invariant outMsgs == msgs + Returned(req, offlineStreams, req.buffers[..j]).0
      invariant outResults == results + Returned(req, offlineStreams, req.buffers[..j]).1
      invariant offlineBuffers == Offline(req.buffers[..j], offlineStreams)
    {
      assert req.buffers[..j + 1][..j] == req.buffers[..j];
      var b := req.buffers[j];
      var dropBuffer := true;
      for k := 0 to |offlineStreams|
        invariant dropBuffer && b.stream !in offlineStreams[..k]
      {
        if b.stream == offlineStreams[k] {
          dropBuffer := false;
          break;
        }
      }
      if dropBuffer {
        outMsgs := outMsgs + [Error(req.frame, b.stream, ERROR_BUFFER)];
        outResults := outResults + [Result(req.frame, false, [Failed(b)])];
      } else {
        offlineBuffers := offlineBuffers + [b];
      }
    }
    assert req.buffers[..|req.buffers|] == req.buffers;
  }

  /** Only the frames of requests that fail leave the in-flight record. */
  method Partition(remaining: seq<Request>, offlineStreams: seq<StreamId>, inflight: set<nat>)
    returns (msgs: seq<Msg>, results: seq<Result>, halReqs: seq<Request>, left: set<nat>)
    ensures Outcome(msgs, results, halReqs) == Partitioned(remaining, offlineStreams)
    ensures left == inflight - Failing(remaining, offlineStreams)
  {
    msgs, results, halReqs, left := [], [], [], inflight;
    for i := 0 to |remaining|
      invariant Outcome(msgs, results, halReqs) == Partitioned(remaining[..i], offlineStreams)
      invariant left == inflight - Failing(remaining[..i], offlineStreams)
    {
      PartitionedSnoc(remaining[..i], remaining[i], offlineStreams);
      FailingMore(remaining[..i], remaining[i], offlineStreams);
      assert remaining[..i + 1] == remaining[..i] + [remaining[i]];
      var kept;
      msgs, results, kept, left := DivideRequest(remaining[i], offlineStreams, msgs, results, left);
      halReqs := halReqs + kept;
    }
    assert remaining[..|remaining|] == remaining;
  }

  /** The loop's body: the request fails, or is kept. */
  method DivideRequest(req: Request, offlineStreams: seq<StreamId>, msgs: seq<Msg>,
                       results: seq<Result>, inflight: set<nat>)
    returns (outMsgs: seq<Msg>, outResults: seq<Result>, kept: seq<Request>, left: set<nat>)
    ensures var l := One(req, offlineStreams);
            outMsgs == msgs + l.msgs && outResults == results + l.results && kept == l.kept
    ensures left == inflight - if Droppable(req, offlineStreams) then {req.frame} else {}
  {
    var dropReq := CanDropRequest(offlineStreams, req);
    if dropReq {
      outMsgs, outResults, left := FailRequest(req, msgs, results, inflight);
      kept := [];
    } else {
      left := inflight;
      outMsgs := msgs + [Shutter(req.frame, req.shutterTs)];
      var offlineBuffers;
      outMsgs, outResults, offlineBuffers := ReturnBuffers(offlineStreams, req, outMsgs, results);
      kept := [req.(buffers := offlineBuffers)];
    }
  }

  // ---------------------------------------------------------------- what it computes

  predicate Droppable(req: Request, offline: seq<StreamId>) {
    forall b :: b in req.buffers ==> b.stream !in offline
  }

  /** The frames that fail whole. */
  function Failing(reqs: seq<Request>, offline: seq<StreamId>): set<nat> {
    set r | r in reqs && Droppable(r, offline) :: r.frame
  }

  function Failed(b: Buffer): OutBuffer {
    OutBuffer(b.stream, b.id, if b.acquireFence >= 0 then b.acquireFence else -1)
  }

  function AllFailed(bufs: seq<Buffer>): seq<OutBuffer> {
    seq(|bufs|, i requires 0 <= i < |bufs| => Failed(bufs[i]))
  }

  function Failure(req: Request): (seq<Msg>, seq<Result>) {
    ([Shutter(req.frame, req.shutterTs), Error(req.frame, -1, ERROR_REQUEST)],
     [Result(req.frame, true, AllFailed(req.buffers))])
  }

  /** The buffers of online streams are given back one by one. */
  function Returned(req: Request, offline: seq<StreamId>, bufs: seq<Buffer>)
    : (seq<Msg>, seq<Result>)
  {
    if bufs == [] then ([], [])
    else
      var (msgs, results) := Returned(req, offline, bufs[..|bufs| - 1]);
      var b := bufs[|bufs| - 1];
      if b.stream in offline then (msgs, results)
      else (msgs + [Error(req.frame, b.stream, ERROR_BUFFER)],
            results + [Result(req.frame, false, [Failed(b)])])
  }

  function Offline(bufs: seq<Buffer>, offline: seq<StreamId>): seq<Buffer> {
    if bufs == [] then []
    else
      var b := bufs[|bufs| - 1];
      Offline(bufs[..|bufs| - 1], offline) + if b.stream in offline then [b] else []
  }

  /** What becomes of one request. */
  function One(req: Request, offline: seq<StreamId>): Outcome {
    if Droppable(req, offline) then Outcome(Failure(req).0, Failure(req).1, [])
    else
      var (msgs, results) := Returned(req, offline, req.buffers);
      Outcome([ShutterOf(req)] + msgs, results, [req.(buffers := Offline(req.buffers, offline))])
  }

  function ShutterOf(req: Request): Msg { Shutter(req.frame, req.shutterTs) }

  function Partitioned(reqs: seq<Request>, offline: seq<StreamId>): Outcome {
    if reqs == [] then Outcome([], [], [])
    else
      var o := Partitioned(reqs[..|reqs| - 1], offline);
      var l := One(reqs[|reqs| - 1], offline);
      Outcome(o.msgs + l.msgs, o.results + l.results, o.kept + l.kept)
  }

  lemma {:induction false} PartitionedSnoc(reqs: seq<Request>, req: Request,
                                           offline: seq<StreamId>)
    ensures var o, l := Partitioned(reqs, offline), One(req, offline);
            Partitioned(reqs + [req], offline)
            == Outcome(o.msgs + l.msgs, o.results + l.results, o.kept + l.kept)
  {
    assert (reqs + [req])[..|reqs|] == reqs;
  }

  // ---------------------------------------------------------------- no buffer is lost

  /** A buffer as the framework knows it, with the fence to wait for before it is used again:
      the acquire fence of a request, -1 if it has none, or the release fence of a result. */
  datatype Key = Key(frame: nat, stream: StreamId, id: BufferId, fence: int)

  function InBuffers(frame: nat, bufs: seq<Buffer>, k: Key): nat {
    if bufs == [] then 0
    else
      var b := bufs[|bufs| - 1];
      var fence := if b.acquireFence < 0 then -1 else b.acquireFence;
      InBuffers(frame, bufs[..|bufs| - 1], k)
      + if Key(frame, b.stream, b.id, fence) == k then 1 else 0
  }

  /** How often the buffer occurs in the requests. */
  function InRequests(reqs: seq<Request>, k: Key): nat {
    if reqs == [] then 0
    else
      var req := reqs[|reqs| - 1];
      InRequests(reqs[..|reqs| - 1], k) + InBuffers(req.frame, req.buffers, k)
  }

  function InOutBuffers(frame: nat, bufs: seq<OutBuffer>, k: Key): nat {
    if bufs == [] then 0
    else
      var b := bufs[|bufs| - 1];
      InOutBuffers(frame, bufs[..|bufs| - 1], k)
      + if Key(frame, b.stream, b.id, b.releaseFence) == k then 1 else 0
  }

  /** How often it is returned. */
  function InResults(results: seq<Result>, k: Key): nat {
    if results == [] then 0
    else
      var r := results[|results| - 1];
      InResults(results[..|results| - 1], k) + InOutBuffers(r.frame, r.buffers, k)
  }

  lemma {:induction false} InResultsConcat(a: seq<Result>, b: seq<Result>, k: Key)
    ensures InResults(a + b, k) == InResults(a, k) + InResults(b, k)
    decreases |b|
  {
    if b == [] {
      assert a + b == a;
    } else {
      InResultsConcat(a, b[..|b| - 1], k);
      assert (a + b)[..|a + b| - 1] == a + b[..|b| - 1];
    }
  }

  lemma {:induction false} FailedWhole(frame: nat, bufs: seq<Buffer>, k: Key)
    ensures InOutBuffers(frame, AllFailed(bufs), k) == InBuffers(frame, bufs, k)
    decreases |bufs|
  {
    if bufs != [] {
      var rest := bufs[..|bufs| - 1];
      FailedWhole(frame, rest, k);
      assert AllFailed(bufs)[..|rest|] == AllFailed(rest);
    }
  }

  lemma {:induction false} ReturnedOrOffline(req: Request, offline: seq<StreamId>,
                                             bufs: seq<Buffer>, k: Key)
    ensures InResults(Returned(req, offline, bufs).1, k)
            + InBuffers(req.frame, Offline(bufs, offline), k)
         == InBuffers(req.frame, bufs, k)
    decreases |bufs|
  {
    if bufs != [] {
      var rest, b := bufs[..|bufs| - 1], bufs[|bufs| - 1];
      ReturnedOrOffline(req, offline, rest, k);
      if b.stream in offline {
        var kept := Offline(rest, offline);
        assert (kept + [b])[..|kept|] == kept;
      } else {
        var results := Returned(req, offline, rest).1;
        var r := Result(req.frame, false, [Failed(b)]);
        assert (results + [r])[..|results|] == results;
        assert InOutBuffers(req.frame, [Failed(b)], k)
            == if Key(req.frame, b.stream, b.id, Failed(b).releaseFence) == k then 1 else 0 by {
          assert [Failed(b)][..0] == [];
        }
        assert Offline(bufs, offline) == Offline(rest, offline);
      }
    }
  }

  lemma {:induction false} InRequestsConcat(a: seq<Request>, b: seq<Request>, k: Key)
    requires |b| <= 1
    ensures InRequests(a + b, k) == InRequests(a, k) + InRequests(b, k)
  {
    if b == [] {
      assert a + b == a;
    } else {
      assert (a + b)[..|a|] == a && b[..0] == [];
    }
  }

  lemma {:induction false} OneConserved(req: Request, offline: seq<StreamId>, k: Key)
    ensures var o := One(req, offline);
            InResults(o.results, k) + InRequests(o.kept, k) == InBuffers(req.frame, req.buffers, k)
  {
    var o := One(req, offline);
    if Droppable(req, offline) {
      FailedWhole(req.frame, req.buffers, k);
      assert o.results[..0] == [];
    } else {
      ReturnedOrOffline(req, offline, req.buffers, k);
      assert o.kept[..0] == [];
    }
  }

  /** Every buffer of every request comes back in a result or goes on in a kept request, as
      often as it was there: none is lost and none is duplicated, and its fence is kept. */
  lemma {:induction false} Conserved(reqs: seq<Request>, offline: seq<StreamId>, k: Key)
    ensures var o := Partitioned(reqs, offline);
            InResults(o.results, k) + InRequests(o.kept, k) == InRequests(reqs, k)
    decreases |reqs|
  {
    if reqs != [] {
      var rest, req := reqs[..|reqs| - 1], reqs[|reqs| - 1];
      Conserved(rest, offline, k);
      OneConserved(req, offline, k);
      InResultsConcat(Partitioned(rest, offline).results, One(req, offline).results, k);
      InRequestsConcat(Partitioned(rest, offline).kept, One(req, offline).kept, k);
    }
  }

  // ---------------------------------------------------------------- what is kept

  /** The indices of the true flags, in order. */
  function Chosen(flags: seq<bool>): seq<nat> {
    if flags == [] then []
    else
      var last := |flags| - 1;
      Chosen(flags[..last]) + if flags[last] then [last] else []
  }

  lemma {:induction false} ChosenInOrder(flags: seq<bool>)
    ensures var c := Chosen(flags);
            && (forall i, j :: 0 <= i < j < |c| ==> c[i] < c[j])
            && (forall i :: i in c <==> 0 <= i < |flags| && flags[i])
    decreases |flags|
  {
    if flags != [] {
      var last := |flags| - 1;
      ChosenInOrder(flags[..last]);
      var c, before := Chosen(flags), Chosen(flags[..last]);
      forall i, j | 0 <= i < j < |c| ensures c[i] < c[j] {
        assert before[i] in before;
      }
    }
  }

  /** Which requests go on in the offline session. */
  function Goes(reqs: seq<Request>, offline: seq<StreamId>): seq<bool> {
    seq(|reqs|, i requires 0 <= i < |reqs| => !Droppable(reqs[i], offline))
  }

  function OfOffline(bufs: seq<Buffer>, offline: seq<StreamId>): seq<bool> {
    seq(|bufs|, i requires 0 <= i < |bufs| => bufs[i].stream in offline)
  }

  /** A kept request keeps exactly its buffers of offline streams, in order. */
  lemma {:induction false} OfflineBuffers(bufs: seq<Buffer>, offline: seq<StreamId>)
    ensures var kept, chosen := Offline(bufs, offline), Chosen(OfOffline(bufs, offline));
            && |kept| == |chosen|
            && forall k :: 0 <= k < |kept| ==> chosen[k] < |bufs| && kept[k] == bufs[chosen[k]]
    decreases |bufs|
  {
    if bufs != [] {
      var rest := bufs[..|bufs| - 1];
      OfflineBuffers(rest, offline);
      assert OfOffline(bufs, offline)[..|rest|] == OfOffline(rest, offline);
    }
  }

  /** The kept requests are exactly those with an offline buffer, in their order. */
  lemma {:induction false} KeptInOrder(reqs: seq<Request>, offline: seq<StreamId>)
    ensures var kept, chosen := Partitioned(reqs, offline).kept, Chosen(Goes(reqs, offline));
            && |kept| == |chosen|
            && forall k :: 0 <= k < |kept| ==>
                 && chosen[k] < |reqs|
                 && kept[k] == reqs[chosen[k]].(buffers := Offline(reqs[chosen[k]].buffers, offline))
    decreases |reqs|
  {
    if reqs != [] {
      var rest := reqs[..|reqs| - 1];
      KeptInOrder(rest, offline);
      assert Goes(reqs, offline)[..|rest|] == Goes(rest, offline);
    }
  }

  /** No kept request is empty, and it asks for offline streams only. */
  lemma {:induction false} KeptIsOffline(reqs: seq<Request>, offline: seq<StreamId>, k: nat)
    requires k < |Partitioned(reqs, offline).kept|
    ensures var req := Partitioned(reqs, offline).kept[k];
            req.buffers != [] && forall b :: b in req.buffers ==> b.stream in offline
  {
    KeptInOrder(reqs, offline);
    ChosenInOrder(Goes(reqs, offline));
    var chosen := Chosen(Goes(reqs, offline));
    assert chosen[k] in chosen;
    OfflineOnly(reqs[chosen[k]].buffers, offline);
  }

  lemma {:induction false} OfflineOnly(bufs: seq<Buffer>, offline: seq<StreamId>)
    ensures forall c :: c in Offline(bufs, offline) ==> c.stream in offline
    ensures (exists b :: b in bufs && b.stream in offline) ==> Offline(bufs, offline) != []
    decreases |bufs|
  {
    if bufs != [] {
      OfflineOnly(bufs[..|bufs| - 1], offline);
      assert bufs == bufs[..|bufs| - 1] + [bufs[|bufs| - 1]];
    }
  }

  // ---------------------------------------------------------------- what is reported

  function Shutters(msgs: seq<Msg>): seq<Msg> {
    if msgs == [] then []
    else
      var m := msgs[|msgs| - 1];
      Shutters(msgs[..|msgs| - 1]) + if m.Shutter? then [m] else []
  }

  function Errors(msgs: seq<Msg>): seq<Msg> {
    if msgs == [] then []
    else
      var m := msgs[|msgs| - 1];
      Errors(msgs[..|msgs| - 1]) + if m.Error? then [m] else []
  }

  lemma {:induction false} MsgsConcat(a: seq<Msg>, b: seq<Msg>)
    ensures Shutters(a + b) == Shutters(a) + Shutters(b)
    ensures Errors(a + b) == Errors(a) + Errors(b)
  {
    ShuttersConcat(a, b);
    ErrorsConcat(a, b);
  }

  lemma {:induction false} ShuttersConcat(a: seq<Msg>, b: seq<Msg>)
    ensures Shutters(a + b) == Shutters(a) + Shutters(b)
    decreases |b|
  {
    if b == [] {
      assert a + b == a;
    } else {
      ShuttersConcat(a, b[..|b| - 1]);
      assert (a + b)[..|a + b| - 1] == a + b[..|b| - 1];
    }
  }

  lemma {:induction false} ErrorsConcat(a: seq<Msg>, b: seq<Msg>)
    ensures Errors(a + b) == Errors(a) + Errors(b)
    decreases |b|
  {
    if b == [] {
      assert a + b == a;
    } else {
      ErrorsConcat(a, b[..|b| - 1]);
      assert (a + b)[..|a + b| - 1] == a + b[..|b| - 1];
    }
  }

  /** An error message tells what its result returns. */
  predicate Matches(m: Msg, r: Result) {
    && m.Error? && m.frame == r.frame
    && if r.final then m.code == ERROR_REQUEST && m.stream == -1
       else m.code == ERROR_BUFFER && |r.buffers| == 1 && r.buffers[0].stream == m.stream
  }

  ghost predicate AllMatch(msgs: seq<Msg>, results: seq<Result>) {
    && |Errors(msgs)| == |results|
    && forall k :: 0 <= k < |results| ==> Matches(Errors(msgs)[k], results[k])
  }

  lemma {:induction false} AllMatchConcat(a: seq<Msg>, b: seq<Msg>, r: seq<Result>, t: seq<Result>)
    requires AllMatch(a, r) && AllMatch(b, t)
    ensures AllMatch(a + b, r + t)
  {
    MsgsConcat(a, b);
  }

  lemma {:induction false} ReturnedMatch(req: Request, offline: seq<StreamId>, bufs: seq<Buffer>)
    ensures var (msgs, results) := Returned(req, offline, bufs);
            AllMatch(msgs, results) && Shutters(msgs) == []
    decreases |bufs|
  {
    if bufs != [] {
      ReturnedMatch(req, offline, bufs[..|bufs| - 1]);
      var (msgs, results) := Returned(req, offline, bufs[..|bufs| - 1]);
      var b := bufs[|bufs| - 1];
      var m, r := Error(req.frame, b.stream, ERROR_BUFFER), Result(req.frame, false, [Failed(b)]);
      assert (msgs + [m])[..|msgs|] == msgs;
      assert (results + [r])[..|results|] == results;
    }
  }

  lemma {:induction false} FailureMatch(req: Request)
    ensures AllMatch(Failure(req).0, Failure(req).1)
    ensures Shutters(Failure(req).0) == [ShutterOf(req)]
  {
    var m, e := [ShutterOf(req)], [Error(req.frame, -1, ERROR_REQUEST)];
    MsgsConcat(m, e);
    assert Failure(req).0 == m + e && m[..0] == [] && e[..0] == [];
  }

  lemma {:induction false} OneReported(req: Request, offline: seq<StreamId>)
    ensures var o := One(req, offline);
            AllMatch(o.msgs, o.results) && Shutters(o.msgs) == [ShutterOf(req)]
  {
    if Droppable(req, offline) {
      FailureMatch(req);
    } else {
      ReturnedMatch(req, offline, req.buffers);
      var shutter := [ShutterOf(req)];
      MsgsConcat(shutter, Returned(req, offline, req.buffers).0);
      assert shutter[..0] == [];
    }
  }

  /** The k-th error message tells what the k-th result returns, and every request, dropped or
      kept, has its shutter, in order. */
  lemma {:induction false} Reported(reqs: seq<Request>, offline: seq<StreamId>)
    ensures var o := Partitioned(reqs, offline);
            && AllMatch(o.msgs, o.results)
            && |Shutters(o.msgs)| == |reqs|
            && forall i :: 0 <= i < |reqs| ==>
                 Shutters(o.msgs)[i] == Shutter(reqs[i].frame, reqs[i].shutterTs)
  {
    AllReported(reqs, offline);
    ShuttersInOrder(reqs, offline);
  }

  lemma {:induction false} AllReported(reqs: seq<Request>, offline: seq<StreamId>)
    ensures AllMatch(Partitioned(reqs, offline).msgs, Partitioned(reqs, offline).results)
    decreases |reqs|
  {
    if reqs != [] {
      var rest, req := reqs[..|reqs| - 1], reqs[|reqs| - 1];
      AllReported(rest, offline);
      OneReported(req, offline);
      var o, l := Partitioned(rest, offline), One(req, offline);
      AllMatchConcat(o.msgs, l.msgs, o.results, l.results);
    }
  }

  lemma {:induction false} ShuttersInOrder(reqs: seq<Request>, offline: seq<StreamId>)
    ensures Shutters(Partitioned(reqs, offline).msgs)
         == seq(|reqs|, i requires 0 <= i < |reqs| => Shutter(reqs[i].frame, reqs[i].shutterTs))
    decreases |reqs|
  {
    if reqs != [] {
      var rest, req := reqs[..|reqs| - 1], reqs[|reqs| - 1];
      ShuttersInOrder(rest, offline);
      OneReported(req, offline);
      ShuttersConcat(Partitioned(rest, offline).msgs, One(req, offline).msgs);
    }
  }

  /** No error is told before the shutter of its frame. */
  lemma {:induction false} ShutterBeforeError(reqs: seq<Request>, offline: seq<StreamId>, i: nat)
    requires i < |Partitioned(reqs, offline).msgs|
    requires Partitioned(reqs, offline).msgs[i].Error?
    ensures var msgs := Partitioned(reqs, offline).msgs;
            exists j :: 0 <= j < i && msgs[j].Shutter? && msgs[j].frame == msgs[i].frame
    decreases |reqs|
  {
    var rest, req := reqs[..|reqs| - 1], reqs[|reqs| - 1];
    var msgs, before := Partitioned(reqs, offline).msgs, Partitioned(rest, offline).msgs;
    if i < |before| {
      ShutterBeforeError(rest, offline, i);
      var j :| 0 <= j < i && before[j].Shutter? && before[j].frame == before[i].frame;
      assert msgs[j] == before[j];
    } else {
      OneFrameOnly(req, offline, i - |before|);
      assert msgs[|before|] == One(req, offline).msgs[0];
    }
  }

  lemma {:induction false} OneFrameOnly(req: Request, offline: seq<StreamId>, i: nat)
    requires i < |One(req, offline).msgs|
    ensures One(req, offline).msgs[i].frame == req.frame && One(req, offline).msgs[0].Shutter?
  {
    if !Droppable(req, offline) && i > 0 {
      ReturnedFrameOnly(req, offline, req.buffers, i - 1);
    }
  }

  lemma {:induction false} ReturnedFrameOnly(req: Request, offline: seq<StreamId>,
                                             bufs: seq<Buffer>, i: nat)
    requires i < |Returned(req, offline, bufs).0|
    ensures Returned(req, offline, bufs).0[i].frame == req.frame
    decreases |bufs|
  {
    var rest := bufs[..|bufs| - 1];
    if i < |Returned(req, offline, rest).0| { ReturnedFrameOnly(req, offline, rest, i); }
  }

  // ---------------------------------------------------------------- what is failed

  /** The frames of a final result: those failed for good. */
  function FinalFrames(results: seq<Result>): seq<nat> {
    if results == [] then []
    else
      var r := results[|results| - 1];
      FinalFrames(results[..|results| - 1]) + if r.final then [r.frame] else []
  }

  lemma {:induction false} FinalsConcat(a: seq<Result>, b: seq<Result>)
    ensures FinalFrames(a + b) == FinalFrames(a) + FinalFrames(b)
    decreases |b|
  {
    if b == [] {
      assert a + b == a;
    } else {
      FinalsConcat(a, b[..|b| - 1]);
      assert (a + b)[..|a + b| - 1] == a + b[..|b| - 1];
    }
  }

  lemma {:induction false} ReturnedNotFinal(req: Request, offline: seq<StreamId>, bufs: seq<Buffer>)
    ensures FinalFrames(Returned(req, offline, bufs).1) == []
    decreases |bufs|
  {
    if bufs != [] {
      ReturnedNotFinal(req, offline, bufs[..|bufs| - 1]);
      var results := Returned(req, offline, bufs[..|bufs| - 1]).1;
      var r := Result(req.frame, false, [Failed(bufs[|bufs| - 1])]);
      assert (results + [r])[..|results|] == results;
    }
  }

  function Frames(reqs: seq<Request>): seq<nat> {
    seq(|reqs|, i requires 0 <= i < |reqs| => reqs[i].frame)
  }

  /** The frames with an offline buffer. */
  function Keep(reqs: seq<Request>, offline: seq<StreamId>): set<nat> {
    set r | r in reqs && !Droppable(r, offline) :: r.frame
  }

  lemma {:induction false} SplitSnoc(taken: seq<CaptureProtocol.Request>, keep: set<nat>,
                                     inside: bool)
    requires taken != []
    ensures var last := taken[|taken| - 1];
            CaptureProtocol.Frames(CaptureProtocol.Split(taken, keep, inside))
            == CaptureProtocol.Frames(CaptureProtocol.Split(taken[..|taken| - 1], keep, inside))
               + if (last.frame in keep) == inside then [last.frame] else []
  {
    var rest, one := taken[..|taken| - 1], [taken[|taken| - 1]];
    assert taken == rest + one;
    SplitConcat(rest, one, keep, inside);
    CaptureProofs.FramesConcat(CaptureProtocol.Split(rest, keep, inside),
                               CaptureProtocol.Split(one, keep, inside));
    assert one[1..] == [];
  }

  lemma {:induction false} SplitConcat(a: seq<CaptureProtocol.Request>,
                                       b: seq<CaptureProtocol.Request>, keep: set<nat>,
                                       inside: bool)
    ensures CaptureProtocol.Split(a + b, keep, inside)
         == CaptureProtocol.Split(a, keep, inside) + CaptureProtocol.Split(b, keep, inside)
  {
    if a == [] {
      assert a + b == b;
    } else {
      SplitConcat(a[1..], b, keep, inside);
      assert (a + b)[1..] == a[1..] + b && (a + b)[0] == a[0];
      var first := if (a[0].frame in keep) == inside then [a[0]] else [];
      var x := CaptureProtocol.Split(a[1..], keep, inside);
      var y := CaptureProtocol.Split(b, keep, inside);
      assert CaptureProtocol.Split(a, keep, inside) == first + x;
      assert CaptureProtocol.Split(a + b, keep, inside) == first + (x + y);
      assert first + (x + y) == first + x + y;
    }
  }

  /** The partition does what the protocol step says: with distinct frames, the frames handed
      over and the frames failed are the two halves of its Split, in order. */
  lemma {:induction false} PartitionIsProtocolStep(
      reqs: seq<Request>, offline: seq<StreamId>,
      taken: seq<CaptureProtocol.Request>, keep: set<nat>)
    requires |taken| == |reqs| && forall i :: 0 <= i < |reqs| ==> taken[i].frame == reqs[i].frame
    requires forall i :: 0 <= i < |reqs| ==> (reqs[i].frame in keep <==> !Droppable(reqs[i], offline))
    ensures var o := Partitioned(reqs, offline);
            && Frames(o.kept) == CaptureProtocol.Frames(CaptureProtocol.Split(taken, keep, true))
            && FinalFrames(o.results)
               == CaptureProtocol.Frames(CaptureProtocol.Split(taken, keep, false))
    decreases |reqs|
  {
    if reqs != [] {
      var n := |reqs| - 1;
      PartitionIsProtocolStep(reqs[..n], offline, taken[..n], keep);
      SplitSnoc(taken, keep, true);
      SplitSnoc(taken, keep, false);
      PartitionedMore(reqs, offline);
    }
  }

  lemma {:induction false} PartitionedMore(reqs: seq<Request>, offline: seq<StreamId>)
    requires reqs != []
    ensures var o, before := Partitioned(reqs, offline), Partitioned(reqs[..|reqs| - 1], offline);
            var req := reqs[|reqs| - 1];
            var drop := Droppable(req, offline);
            && Frames(o.kept) == Frames(before.kept) + (if drop then [] else [req.frame])
            && FinalFrames(o.results)
               == FinalFrames(before.results) + if drop then [req.frame] else []
  {
    var o, before := Partitioned(reqs, offline), Partitioned(reqs[..|reqs| - 1], offline);
    var l := One(reqs[|reqs| - 1], offline);
    assert o.kept == before.kept + l.kept && o.results == before.results + l.results;
    OneFrames(reqs[|reqs| - 1], offline);
    FinalsConcat(before.results, l.results);
    FramesConcat(before.kept, l.kept);
  }

  lemma {:induction false} FramesConcat(a: seq<Request>, b: seq<Request>)
    ensures Frames(a + b) == Frames(a) + Frames(b)
  {
  }

  lemma {:induction false} OneFrames(req: Request, offline: seq<StreamId>)
    ensures var o, drop := One(req, offline), Droppable(req, offline);
            && Frames(o.kept) == (if drop then [] else [req.frame])
            && FinalFrames(o.results) == if drop then [req.frame] else []
  {
    if Droppable(req, offline) {
      assert Failure(req).1[..0] == [];
    } else {
      ReturnedNotFinal(req, offline, req.buffers);
    }
  }

  /** With distinct frames the frames of Keep do. */
  lemma {:induction false} KeepSeparates(reqs: seq<Request>, offline: seq<StreamId>, i: nat)
    requires forall j, k :: 0 <= j < k < |reqs| ==> reqs[j].frame != reqs[k].frame
    requires i < |reqs|
    ensures reqs[i].frame in Keep(reqs, offline) <==> !Droppable(reqs[i], offline)
  {
    if reqs[i].frame in Keep(reqs, offline) {
      var r :| r in reqs && !Droppable(r, offline) && r.frame == reqs[i].frame;
      var j :| 0 <= j < |reqs| && reqs[j] == r;
    } else {
      assert reqs[i] in reqs;
    }
  }

  /** So with distinct frames the code makes exactly the division of the protocol's step, and takes
      exactly the dropped frames out of the record. */
  lemma {:induction false} PartitionDivides(reqs: seq<Request>, offline: seq<StreamId>,
                                            taken: seq<CaptureProtocol.Request>)
    requires forall j, k :: 0 <= j < k < |reqs| ==> reqs[j].frame != reqs[k].frame
    requires |taken| == |reqs| && forall i :: 0 <= i < |reqs| ==> taken[i].frame == reqs[i].frame
    ensures var o, keep := Partitioned(reqs, offline), Keep(reqs, offline);
            var dropped := CaptureProtocol.Frames(CaptureProtocol.Split(taken, keep, false));
            && Frames(o.kept) == CaptureProtocol.Frames(CaptureProtocol.Split(taken, keep, true))
            && FinalFrames(o.results) == dropped
            && Failing(reqs, offline) == CaptureProtocol.Elements(dropped)
  {
    var keep := Keep(reqs, offline);
    forall i | 0 <= i < |reqs|
      ensures reqs[i].frame in keep <==> !Droppable(reqs[i], offline)
    {
      KeepSeparates(reqs, offline, i);
    }
    PartitionIsProtocolStep(reqs, offline, taken, keep);
    FinalsFail(reqs, offline);
  }

  /** The frames with a final result are those that fail whole. */
  lemma {:induction false} FinalsFail(reqs: seq<Request>, offline: seq<StreamId>)
    ensures (set f | f in FinalFrames(Partitioned(reqs, offline).results)) == Failing(reqs, offline)
    decreases |reqs|
  {
    if reqs != [] {
      var rest, req := reqs[..|reqs| - 1], reqs[|reqs| - 1];
      FinalsFail(rest, offline);
      PartitionedMore(reqs, offline);
      FailingMore(rest, req, offline);
      assert reqs == rest + [req];
      var before := FinalFrames(Partitioned(rest, offline).results);
      SetSnoc(before, req.frame);
      assert before + [] == before;
    }
  }

  lemma {:induction false} SetSnoc(fs: seq<nat>, x: nat)
    ensures (set f | f in fs + [x]) == (set f | f in fs) + {x}
  {
  }

  lemma {:induction false} FailingMore(reqs: seq<Request>, req: Request, offline: seq<StreamId>)
    ensures Failing(reqs + [req], offline)
         == Failing(reqs, offline) + if Droppable(req, offline) then {req.frame} else {}
  {
    forall f
      ensures f in Failing(reqs + [req], offline)
         <==> f in Failing(reqs, offline) || (Droppable(req, offline) && f == req.frame)
    {
      if f in Failing(reqs, offline) {
        var r :| r in reqs && Droppable(r, offline) && r.frame == f;
        assert r in reqs + [req];
      }
      if Droppable(req, offline) && f == req.frame { assert req in reqs + [req]; }
    }
  }
}
