/** The output thread of an offline session: it works through the requests handed over to it,
    and answers each with one result, one request error or one device error. */
module OfflineWorker {

  datatype Fourcc = MJPEG | Z16 | Unsupported

  datatype Format = BLOB | Y16 | YUV | Unknown

  datatype Request = Request(frame: nat, fourcc: Fourcc, formats: seq<Format>)

  /** What happens to one buffer: written says that the copy, crop or JPEG succeeded. */
  datatype BufferEvents = BufferEvents(missing: bool, fenceSignals: bool, written: bool)

  /** What happens to one request: mapped and converted are about its input frame, granted
      about the wait for its buffers. */
  datatype Events = Events(mapped: bool, converted: bool, granted: bool, buffers: seq<BufferEvents>)

  datatype Answer =
    | Result(frame: nat, good: seq<bool>)  // good[i]: buffer i is returned without an error
    | RequestError(frame: nat)
    | DeviceError(frame: nat)

  // ---------------------------------------------------------------- one request

  predicate TimesOut(b: BufferEvents) { b.missing || !b.fenceSignals }

  /** A buffer that can be written to, and is not. */
  predicate Fails(format: Format, b: BufferEvents) {
    !TimesOut(b) && (format == Unknown || (format != Y16 && !b.written))
  }

  /** The input frame cannot be decoded: the request is failed before its buffers come. */
  predicate Malformed(req: Request, ev: Events) {
    req.fourcc == MJPEG && !ev.converted
  }

  /** Nothing stops the thread at this request, if no earlier buffer request is in the way. */
  ghost predicate Harmless(req: Request, ev: Events) {
    && req.fourcc != Unsupported && req.formats != [] && ev.mapped
    && (Malformed(req, ev)
        || (ev.granted
            && forall i :: 0 <= i < |req.formats| && i < |ev.buffers|
                 ==> !Fails(req.formats[i], ev.buffers[i])))
  }

  function GoodBuffers(req: Request, ev: Events): seq<bool>
    requires |ev.buffers| == |req.formats|
  {
    seq(|req.formats|, i requires 0 <= i < |req.formats| => !TimesOut(ev.buffers[i]))
  }

  // ---------------------------------------------------------------- the code

  class OutputThread {
    var mOfflineReqs: seq<Request>
    var mRequestingBuffer: bool   // of the session's buffer request thread
    var answers: seq<Answer>      // what the framework has been told

    constructor (offlineReqs: seq<Request>)
      ensures mOfflineReqs == offlineReqs && !mRequestingBuffer && answers == []
    {
      mOfflineReqs, mRequestingBuffer, answers := offlineReqs, false, [];
    }

    method OnDeviceError(req: Request) returns (again: bool)
      modifies this`answers
      ensures !again && answers == old(answers) + [DeviceError(req.frame)]
    {
      answers := answers + [DeviceError(req.frame)];
      again := false;
    }

    method RequestBufferStart(formats: seq<Format>) returns (res: int)
      modifies this`mRequestingBuffer
      ensures res == if formats == [] || old(mRequestingBuffer) then -1 else 0
      ensures mRequestingBuffer == (formats != [] || old(mRequestingBuffer))
    {
      if formats == [] || mRequestingBuffer { return -1; }
      mRequestingBuffer := true;
      res := 0;
    }

    method WaitForBufferRequestDone(granted: bool) returns (res: int)
      requires mRequestingBuffer
      modifies this`mRequestingBuffer
      ensures res == (if granted then 0 else -1) && mRequestingBuffer == !granted
    {
      if !granted { return -1; }
      mRequestingBuffer := false;
      res := 0;
    }

    /** One turn: the first request is answered, once, and leaves the list. It is a device error
        for a request that cannot be served, a request error for a JPEG that cannot be decoded,
        and a result otherwise, whose buffers are good if they came and their fences signalled. */
    method ThreadLoop(ev: Events) returns (again: bool)
      requires mOfflineReqs != [] ==> |ev.buffers| == |mOfflineReqs[0].formats|
      modifies this
      ensures old(mOfflineReqs) == [] ==>
                !again && mOfflineReqs == [] && answers == old(answers)
      ensures old(mOfflineReqs) != [] ==>
                var answer := AnswerTo(old(mOfflineReqs)[0], ev, old(mRequestingBuffer));
                && mOfflineReqs == old(mOfflineReqs)[1..]
                && answers == old(answers) + [answer]
                && again == !answer.DeviceError?
                && (again ==> mRequestingBuffer == answer.RequestError?)
      ensures old(mOfflineReqs) != [] ==>
                var req, answer := old(mOfflineReqs)[0], answers[|old(answers)|];
                var begins := (req.fourcc == MJPEG || req.fourcc == Z16) && req.formats != []
                              && !old(mRequestingBuffer) && ev.mapped;
                var comesOut := req.fourcc == MJPEG ==> ev.converted;
                var allWritten := forall i :: 0 <= i < |req.formats| ==>
                  var b := ev.buffers[i];
                  b.missing || !b.fenceSignals || req.formats[i] == Y16
                  || (req.formats[i] != Unknown && b.written);
                && answer.frame == req.frame
                && (answer.Result? <==> begins && comesOut && ev.granted && allWritten)
                && (answer.RequestError? <==> begins && !comesOut)
                && (answer.Result? ==>
                      && |answer.good| == |req.formats|
                      && forall i :: 0 <= i < |answer.good| ==>
                           answer.good[i] == (!ev.buffers[i].missing && ev.buffers[i].fenceSignals))
    {
      if mOfflineReqs == [] { return false; }
      var req := mOfflineReqs[0];
      mOfflineReqs := mOfflineReqs[1..];
      if req.fourcc != MJPEG && req.fourcc != Z16 {
        again := OnDeviceError(req);
        return;
      }
      var res := RequestBufferStart(req.formats);
      if res != 0 || !ev.mapped {
        again := OnDeviceError(req);
        return;
      }
      if req.fourcc == MJPEG && !ev.converted {
        answers := answers + [RequestError(req.frame)];
        return true;
      }
      res := WaitForBufferRequestDone(ev.granted);
      if res != 0 {
        again := OnDeviceError(req);
        return;
      }
      var good := [];
      for i := 0 to |req.formats|
        invariant |good| == i && good == GoodBuffers(req, ev)[..i]
        invariant forall k :: 0 <= k < i ==> !Fails(req.formats[k], ev.buffers[k])
        invariant answers == old(answers) && mOfflineReqs == old(mOfflineReqs)[1..]
        invariant !mRequestingBuffer
      {
        var buffer, written := ev.buffers[i], true;
        var fenceTimeout := buffer.missing || !buffer.fenceSignals;
        if !fenceTimeout {
          match req.formats[i]
          case BLOB => written := buffer.written;
          case Y16 =>
          case YUV => written := buffer.written;
          case Unknown => written := false;
        }
        if !written {
          again := OnDeviceError(req);
          return;
        }
        good := good + [!fenceTimeout];
      }
      assert good == GoodBuffers(req, ev);
      answers := answers + [Result(req.frame, good)];
      again := true;
    }

    /** The thread until it stops of itself, or until an exit is asked for after some turns.
        events[i] is what happens to the i-th request. */
    method Run(events: seq<Events>, turns: nat)
      requires |events| == |mOfflineReqs| && Suits(mOfflineReqs, events)
      modifies this
      ensures var n := if turns < |events| then turns else |events|;
              answers == old(answers)
                         + Answers(old(mOfflineReqs)[..n], events[..n], old(mRequestingBuffer))
    {
      var again, i := true, 0;
      ghost var n := if turns < |events| then turns else |events|;
      ghost var reqs, some := mOfflineReqs[..n], events[..n];
      ghost var rest := Answers(reqs, some, mRequestingBuffer);
      ghost var all := answers + rest;
      assert reqs[0..] == reqs && some[0..] == some;
      while again && mOfflineReqs != [] && i < turns
        invariant 0 <= i <= n && mOfflineReqs == old(mOfflineReqs)[i..]
        invariant answers + rest == all && (!again ==> rest == [])
        invariant again ==> rest == Answers(reqs[i..], some[i..], mRequestingBuffer)
        decreases |mOfflineReqs|
      {
        AnswersFrom(reqs, some, mRequestingBuffer, i);
        ghost var before := answers;
        again := ThreadLoop(events[i]);
        i := i + 1;
        rest := rest[1..];
        Reassociate(before, answers[|answers| - 1], rest);
      }
    }
  }

  // ---------------------------------------------------------------- what it computes

  /** requesting: an earlier buffer request is still outstanding. */
  function AnswerTo(req: Request, ev: Events, requesting: bool): Answer
    requires |ev.buffers| == |req.formats|
  {
    if req.fourcc == Unsupported || req.formats == [] || requesting || !ev.mapped
      then DeviceError(req.frame)
    else if Malformed(req, ev) then RequestError(req.frame)
    else if !ev.granted
            || exists i :: 0 <= i < |req.formats| && Fails(req.formats[i], ev.buffers[i])
      then DeviceError(req.frame)
    else Result(req.frame, GoodBuffers(req, ev))
  }

  ghost predicate Suits(reqs: seq<Request>, events: seq<Events>) {
    |reqs| == |events| && forall i :: 0 <= i < |reqs| ==> |events[i].buffers| == |reqs[i].formats|
  }

  function Answers(reqs: seq<Request>, events: seq<Events>, requesting: bool): seq<Answer>
    requires Suits(reqs, events)
  {
    if reqs == [] then []
    else
      var a := AnswerTo(reqs[0], events[0], requesting);
      [a] + if a.DeviceError? then [] else Answers(reqs[1..], events[1..], a.RequestError?)
  }

  lemma {:induction false} Reassociate(before: seq<Answer>, a: Answer, rest: seq<Answer>)
    ensures before + ([a] + rest) == before + [a] + rest
  {
  }

  lemma {:induction false} AnswersFrom(reqs: seq<Request>, events: seq<Events>, requesting: bool,
                                       i: nat)
    requires Suits(reqs, events) && i < |reqs|
    ensures var a := AnswerTo(reqs[i], events[i], requesting);
            Answers(reqs[i..], events[i..], requesting)
            == [a] + if a.DeviceError? then []
                     else Answers(reqs[i + 1..], events[i + 1..], a.RequestError?)
  {
    assert reqs[i..][1..] == reqs[i + 1..] && events[i..][1..] == events[i + 1..];
  }

  // ---------------------------------------------------------------- the promises

  /** The answers are for the first requests, in order, one for each. */
  lemma {:induction false} AnswersInOrder(reqs: seq<Request>, events: seq<Events>,
                                          requesting: bool, i: nat)
    requires Suits(reqs, events) && i < |Answers(reqs, events, requesting)|
    ensures |Answers(reqs, events, requesting)| <= |reqs|
    ensures Answers(reqs, events, requesting)[i].frame == reqs[i].frame
    decreases |reqs|
  {
    var a := AnswerTo(reqs[0], events[0], requesting);
    var rest := Answers(reqs, events, requesting)[1..];
    if !a.DeviceError? && rest != [] {
      AnswersInOrder(reqs[1..], events[1..], a.RequestError?, if i == 0 then 0 else i - 1);
    }
  }

  /** A device error is the last answer, and nothing else leaves a request unanswered. */
  lemma {:induction false} AllUnlessDeviceError(reqs: seq<Request>, events: seq<Events>,
                                                requesting: bool)
    requires Suits(reqs, events)
    ensures var out := Answers(reqs, events, requesting);
            && (forall i :: 0 <= i < |out| - 1 ==> !out[i].DeviceError?)
            && (|out| == |reqs| || (out != [] && out[|out| - 1].DeviceError?))
    decreases |reqs|
  {
    if reqs != [] {
      var a := AnswerTo(reqs[0], events[0], requesting);
      if !a.DeviceError? {
        AllUnlessDeviceError(reqs[1..], events[1..], a.RequestError?);
      }
    }
  }

  /** Every request is answered without a device error exactly when each is harmless in itself
      and only the last can have a malformed frame: a malformed frame leaves its buffer request
      outstanding, so that the next one cannot start. */
  lemma {:induction false} NoDeviceErrorExactly(reqs: seq<Request>, events: seq<Events>,
                                                requesting: bool)
    requires Suits(reqs, events)
    ensures (forall a :: a in Answers(reqs, events, requesting) ==> !a.DeviceError?)
       <==> && (requesting ==> reqs == [])
            && (forall i :: 0 <= i < |reqs| ==> Harmless(reqs[i], events[i]))
            && (forall i :: 0 <= i < |reqs| - 1 ==> !Malformed(reqs[i], events[i]))
    decreases |reqs|
  {
    if reqs != [] {
      var a := AnswerTo(reqs[0], events[0], requesting);
      var out := Answers(reqs, events, requesting);
      assert out[0] == a && a in out;
      assert a.DeviceError? <==> requesting || !Harmless(reqs[0], events[0]);
      if !a.DeviceError? {
        NoDeviceErrorExactly(reqs[1..], events[1..], a.RequestError?);
        var rest := Answers(reqs[1..], events[1..], a.RequestError?);
        assert forall b :: b in out <==> b == a || b in rest;
        NoneHereOrLater(reqs, events);
      }
    }
  }

  lemma {:induction false} NoneHereOrLater(reqs: seq<Request>, events: seq<Events>)
    requires Suits(reqs, events) && reqs != []
    ensures (forall i :: 0 <= i < |reqs| ==> Harmless(reqs[i], events[i]))
       <==> && Harmless(reqs[0], events[0])
            && forall i :: 0 <= i < |reqs[1..]| ==> Harmless(reqs[1..][i], events[1..][i])
    ensures (forall i :: 0 <= i < |reqs| - 1 ==> !Malformed(reqs[i], events[i]))
       <==> && (|reqs| > 1 ==> !Malformed(reqs[0], events[0]))
            && forall i :: 0 <= i < |reqs[1..]| - 1 ==> !Malformed(reqs[1..][i], events[1..][i])
  {
    assert reqs == [reqs[0]] + reqs[1..] && events == [events[0]] + events[1..];
  }
}
