/** CEC messages on their way to the bus and back: one header byte with both addresses, then the
    body. A frame has 16 bytes (section CEC 6 of the HDMI 1.3a Supplement 1). */
module CecFrame {

  type byte = bv8

  datatype CecMessage = CecMessage(initiator: byte, destination: byte, body: seq<byte>)

  /** cec_msg, as far as it goes over the bus. */
  datatype Frame = Frame(msg: seq<byte>, len: nat)

  datatype SendResult = SUCCESS | NACK | BUSY | FAIL

  const CEC_MAX_MSG_SIZE := 16
  const CEC_MESSAGE_BODY_MAX_LENGTH := 16

  const CEC_TX_STATUS_OK: byte := 1
  const CEC_TX_STATUS_ARB_LOST: byte := 2
  const CEC_TX_STATUS_NACK: byte := 4

  // ---------------------------------------------------------------- sending

  /** HdmiCec::sendMessage, with the driver's answer ret and txStatus. sent is the frame that is
      handed to the driver. */
  method SendMessage(message: CecMessage, deviceOpen: bool, ret: int, txStatus: byte)
    returns (result: SendResult, sent: seq<Frame>)
    ensures |message.body| >= CEC_MESSAGE_BODY_MAX_LENGTH ==> result == FAIL && sent == []
    ensures |message.body| < CEC_MESSAGE_BODY_MAX_LENGTH && !deviceOpen ==>
              result == NACK && sent == []
    ensures |message.body| < CEC_MESSAGE_BODY_MAX_LENGTH && deviceOpen ==>
              && sent == [FrameOf(message)]
              && result == (if ret < 0 then FAIL else Sent(message, txStatus))
  {
    sent := [];
    if |message.body| >= CEC_MESSAGE_BODY_MAX_LENGTH { return FAIL, sent; }
    var legacy := new byte[16](_ => 0);
    for i := 0 to |message.body|
      invariant forall k :: 0 <= k < 16 ==> legacy[k] == if k < i then message.body[k] else 0
    {
      legacy[i] := message.body[i];
    }
    result, sent := MediatorSend(message.initiator, message.destination, legacy, |message.body|,
                                 deviceOpen, ret, txStatus);
    if deviceOpen {
      var f := FrameOf(message);
      forall k | 0 <= k < 16 ensures sent[0].msg[k] == f.msg[k] {
        if k == 0 {
          assert f.msg[0] == Header(message.initiator, message.destination);
        } else {
          assert legacy[k - 1] == if k - 1 < |message.body| then message.body[k - 1] else 0;
          assert sent[0].msg[k] == if k <= |message.body| then legacy[k - 1] else 0;
          assert f.msg[k] == if k - 1 < |message.body| then message.body[k - 1] else 0;
        }
      }
      assert sent[0].msg == f.msg;
    }
  }

  /** HWCECMediator::send_message: an operand that is not there is read as zero. */
  method MediatorSend(initiator: byte, destination: byte, body: array<byte>, length: nat,
                      deviceOpen: bool, ret: int, txStatus: byte)
    returns (result: SendResult, sent: seq<Frame>)
    requires body.Length == 16 && length < 16
    ensures !deviceOpen ==> result == NACK && sent == []
    ensures deviceOpen ==>
              && |sent| == 1 && sent[0].len == length + 1 && |sent[0].msg| == 16
              && sent[0].msg[0] == (initiator << 4) | destination
              && forall k :: 1 <= k < 16 ==>
                   sent[0].msg[k] == if k <= length then body[k - 1] else 0
    ensures deviceOpen && ret < 0 ==> result == FAIL
    ensures deviceOpen && ret >= 0 ==>
              && (result == SUCCESS <==> body[1] == 0xff || txStatus == 1)
              && (result == BUSY <==> body[1] != 0xff && txStatus == 2)
              && (result == NACK <==> body[1] != 0xff && txStatus == 4)
  {
    if !deviceOpen { return NACK, []; }
    var info := new byte[16](_ => 0);
    info[0] := Header(initiator, destination);
    var i := 0;
    while i < length
      invariant 0 <= i <= length && info[0] == Header(initiator, destination)
      invariant forall k :: 1 <= k < 16 ==> info[k] == if k - 1 < i then body[k - 1] else 0
    {
      info[1 + i] := body[i];
      i := i + 1;
    }
    sent := [Frame(info[..], length + 1)];
    if ret < 0 { return FAIL, sent; }
    var status := txStatus;
    if body[1] == 0xff {
      status := CEC_TX_STATUS_OK;
    }
    result := ResultOf(status);
  }

  function ResultOf(txStatus: byte): SendResult {
    if txStatus == CEC_TX_STATUS_OK then SUCCESS
    else if txStatus == CEC_TX_STATUS_ARB_LOST then BUSY
    else if txStatus == CEC_TX_STATUS_NACK then NACK
    else FAIL
  }

  function Header(initiator: byte, destination: byte): byte {
    (initiator << 4) | destination
  }

  /** Byte k of the frame of a message. */
  function FrameOf(m: CecMessage): Frame {
    Frame(seq(16, k requires 0 <= k < 16 =>
            if k == 0 then Header(m.initiator, m.destination)
            else if k - 1 < |m.body| then m.body[k - 1] else 0),
          |m.body| + 1)
  }

  /** The result does not depend on the bus if the first operand is 0xff: such a message is
      reported as sent even if nobody has acknowledged it. */
  lemma {:induction false} ResultIgnoresBusExactly(m: CecMessage)
    requires |m.body| < CEC_MESSAGE_BODY_MAX_LENGTH
    ensures (forall s: byte :: Sent(m, s) == SUCCESS) <==> |m.body| >= 2 && m.body[1] == 0xff
  {
    assert Sent(m, CEC_TX_STATUS_NACK) == SUCCESS <==> |m.body| >= 2 && m.body[1] == 0xff;
  }

  /** What the caller is told of a message that the driver took. */
  function Sent(m: CecMessage, txStatus: byte): SendResult {
    if |m.body| >= 2 && m.body[1] == 0xff then SUCCESS else ResultOf(txStatus)
  }

  // ---------------------------------------------------------------- receiving

  /** msgEventThread and eventCallback: a frame is unpacked, and its body copied as far as
      MaxLength::MESSAGE_BODY, here maxBody, allows. */
  method ReceiveFrame(frame: Frame, maxBody: nat) returns (message: CecMessage)
    requires |frame.msg| == 16 && 1 <= frame.len <= 16
    ensures message == Decoded(frame, maxBody)
    ensures message.initiator == frame.msg[0] >> 4 && message.destination == frame.msg[0] & 0xf
    ensures |message.body| == if frame.len - 1 < maxBody then frame.len - 1 else maxBody
    ensures forall k :: 0 <= k < |message.body| ==> message.body[k] == frame.msg[1 + k]
  {
    var eventBody := new byte[16](_ => 0);
    var i := 0;
    while i < frame.len - 1
      invariant 0 <= i <= frame.len - 1
      invariant forall k :: 0 <= k < i ==> eventBody[k] == frame.msg[1 + k]
    {
      eventBody[i] := frame.msg[1 + i];
      i := i + 1;
    }
    var eventLength := frame.len - 1;
    var length := if eventLength < maxBody then eventLength else maxBody;
    var body: seq<byte> := [];
    for j := 0 to length
      invariant body == frame.msg[1..1 + j]
    {
      body := body + [eventBody[j]];
    }
    message := CecMessage(frame.msg[0] >> 4, frame.msg[0] & 0xf, body);
  }

  function Decoded(frame: Frame, maxBody: nat): CecMessage
    requires |frame.msg| == 16 && 1 <= frame.len <= 16
  {
    var length := if frame.len - 1 < maxBody then frame.len - 1 else maxBody;
    CecMessage(frame.msg[0] >> 4, frame.msg[0] & 0xf, frame.msg[1..1 + length])
  }

  // ---------------------------------------------------------------- there and back

  /** A message that passes the guard comes back unchanged exactly when both addresses have four
      bits and the body is not longer than the receiver takes. */
  lemma {:induction false} RoundTripExactly(m: CecMessage, maxBody: nat)
    requires |m.body| < CEC_MESSAGE_BODY_MAX_LENGTH
    ensures Decoded(FrameOf(m), maxBody) == m
       <==> m.initiator < 16 && m.destination < 16 && |m.body| <= maxBody
  {
    HeaderExactly(m.initiator, m.destination);
    var f := FrameOf(m);
    if |m.body| <= maxBody {
      assert f.msg[1..1 + |m.body|] == m.body;
    }
  }

  lemma {:induction false} HeaderExactly(i: byte, d: byte)
    ensures var h := Header(i, d);
            (h >> 4 == i && h & 0xf == d) <==> i < 16 && d < 16
  {
  }

  /** With the receiver's limit at 15, the guard is the only limit: every message fits its frame
      and comes back. */
  lemma {:induction false} GuardIsEnough(m: CecMessage)
    requires m.initiator < 16 && m.destination < 16 && |m.body| < CEC_MESSAGE_BODY_MAX_LENGTH
    ensures FrameOf(m).len <= CEC_MAX_MSG_SIZE && Decoded(FrameOf(m), 15) == m
  {
    RoundTripExactly(m, 15);
  }

  /** A longer body is cut, and nothing else is lost. */
  lemma {:induction false} LongBodyIsCut(m: CecMessage, maxBody: nat)
    requires m.initiator < 16 && m.destination < 16
    requires maxBody < |m.body| < CEC_MESSAGE_BODY_MAX_LENGTH
    ensures Decoded(FrameOf(m), maxBody) == m.(body := m.body[..maxBody])
  {
    HeaderExactly(m.initiator, m.destination);
    assert FrameOf(m).msg[1..1 + maxBody] == m.body[..maxBody];
  }

  /** A frame that was received and is sent again is the same frame, up to the bytes after its
      end. */
  lemma {:induction false} FrameRoundTrip(f: Frame, k: nat)
    requires |f.msg| == 16 && 1 <= f.len <= 16 && k < f.len
    ensures FrameOf(Decoded(f, 15)).len == f.len && FrameOf(Decoded(f, 15)).msg[k] == f.msg[k]
  {
    JoinHalves(f.msg[0]);
  }

  lemma {:induction false} JoinHalves(h: byte)
    ensures Header(h >> 4, h & 0xf) == h
  {
  }
}
