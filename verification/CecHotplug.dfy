/** Plug events of the CEC device: what is reported to the framework, given the physical
    addresses that the driver answers with. */
module CecHotplug {
  import opened CecUevent

  type Address = a: nat | a < 0x1_0000 witness 0xFFFF

  const INVALID: Address := 0xFFFF
  const CEC_TV_PA: Address := 0

  /** A hot plug event as the framework gets it. */
  datatype Report = Report(connected: bool)

  class HWCECMediator {
    var mPA: Address
    var mPrePA: Address
    var mConnect: bool
    var m_cec_fd: int
    var mCbf: bool                     // a callback is registered
    var mAutoOtp: int
    var mOptionSystemCecControl: bool
    var reports: seq<Report>           // what the callback has been called with

    constructor (fd: int, autoOtp: int)
      ensures mPA == mPrePA == INVALID && !mConnect && !mCbf && reports == []
      ensures m_cec_fd == fd && mAutoOtp == autoOtp && !mOptionSystemCecControl
    {
      mPA, mPrePA, mConnect, mCbf, reports := INVALID, INVALID, false, false, [];
      m_cec_fd, mAutoOtp, mOptionSystemCecControl := fd, autoOtp, false;
    }

    /** answer is what the driver leaves in the address. */
    method GetPhysicalAddress(answer: Address) returns (ok: bool)
      modifies this`mPA, this`mConnect
      ensures mPA == (if m_cec_fd <= 0 then old(mPA) else answer)
      ensures mConnect == (old(mConnect) || (m_cec_fd > 0 && answer != 0xFFFF))
      ensures ok == (m_cec_fd > 0 && answer != 0xFFFF)
    {
      if m_cec_fd <= 0 { return false; }
      mPA := INVALID;
      if answer != INVALID {
        mPA := answer;
        mConnect := true;
      }
      ok := mPA != INVALID;
    }

    method Notify(connected: bool)
      modifies this`reports
      ensures reports == old(reports) + if mCbf then [Report(connected)] else []
    {
      if mCbf { reports := reports + [Report(connected)]; }
    }

    /** sendActiveSource reads the address once more. */
    method SendActiveSource(answer: Address)
      modifies this`mPA, this`mConnect
      ensures mPA == (if m_cec_fd <= 0 then old(mPA) else answer)
      ensures mConnect == (old(mConnect) || (m_cec_fd > 0 && answer != INVALID))
    {
      var _ := GetPhysicalAddress(answer);
    }

    /** The address read is answer; that read again for the active source message is again. For a
        TV, taken tells whether the driver takes its address. */
    method HandlePlugIn(deviceType: DeviceType, answer: Address, again: Address, taken: bool)
      modifies this
      ensures m_cec_fd == old(m_cec_fd) && mCbf == old(mCbf) && mAutoOtp == old(mAutoOtp)
      ensures mOptionSystemCecControl == old(mOptionSystemCecControl) && mConnect
      ensures deviceType == Playback ==>
                var read := if m_cec_fd <= 0 then old(mPA) else answer;
                var connected := mCbf && read != old(mPrePA);
                && reports == old(reports) + (if connected then [Report(true)] else [])
                && mPA == mPrePA
                && mPA == Noted(read, again, connected && mAutoOtp != 0
                                             && mOptionSystemCecControl && m_cec_fd > 0)
      ensures deviceType == TV ==>
                && mPrePA == old(mPrePA)
                && mPA == (if taken then 0 else old(mPA))
                && reports == old(reports) + if taken && mCbf then [Report(true)] else []
    {
      mConnect := true;
      if deviceType == Playback {
        var paTemp := mPrePA;
        var _ := GetPhysicalAddress(answer);
        if paTemp != mPA {
          Notify(true);
          if mCbf {
            if mAutoOtp != 0 && mOptionSystemCecControl {
              SendActiveSource(again);
            }
          }
        }
        mPrePA := mPA;
      } else {
        if taken {
          mPA := CEC_TV_PA;
          Notify(true);
        }
      }
    }

    method HandlePlugOut(deviceType: DeviceType)
      modifies this
      ensures m_cec_fd == old(m_cec_fd) && mCbf == old(mCbf) && mAutoOtp == old(mAutoOtp)
      ensures mOptionSystemCecControl == old(mOptionSystemCecControl) && !mConnect
      ensures reports == old(reports) + if mCbf then [Report(false)] else []
      ensures mPA == (if deviceType == Playback then 0xFFFF else old(mPA))
      ensures mPrePA == (if deviceType == Playback then 0xFFFF else old(mPrePA))
    {
      mConnect := false;
      Notify(false);
      if deviceType == Playback {
        mPA := INVALID;
        mPrePA := INVALID;
      }
    }

    /** A run of a playback device, as the plug events and the framework's own reads come. */
    method Run(events: seq<Event>)
      requires mCbf && m_cec_fd > 0 && mPrePA == INVALID && reports == []
      modifies this
      ensures reports == Reports(events, mAutoOtp != 0 && mOptionSystemCecControl)
      ensures mPrePA == Last(events, mAutoOtp != 0 && mOptionSystemCecControl)
    {
      ghost var wakes := mAutoOtp != 0 && mOptionSystemCecControl;
      for i := 0 to |events|
        invariant mCbf && m_cec_fd > 0 && wakes == (mAutoOtp != 0 && mOptionSystemCecControl)
        invariant reports == Reports(events[..i], wakes)
        invariant mPrePA == Last(events[..i], wakes)
      {
        assert events[..i + 1][..i] == events[..i];
        match events[i]
        case In(answer, again) => HandlePlugIn(Playback, answer, again, false);
        case Out => HandlePlugOut(Playback);
        case Query(answer) => var _ := GetPhysicalAddress(answer);
      }
      assert events[..|events|] == events;
    }
  }

  /** The address that is remembered: the one read, or read again. */
  function Noted(read: Address, again: Address, rereads: bool): Address {
    if rereads then again else read
  }

  // ---------------------------------------------------------------- runs of a playback device

  datatype Event = In(answer: Address, again: Address) | Out | Query(answer: Address)

  /** The address remembered after the events: that of the last plug in since the last plug out.
      wakes: a plug in that is reported also wakes the TV, which reads the address again. */
  function Last(events: seq<Event>, wakes: bool): Address {
    if events == [] then INVALID
    else
      var before := events[..|events| - 1];
      match events[|events| - 1]
      case In(answer, again) => Noted(answer, again, wakes && answer != Last(before, wakes))
      case Out => INVALID
      case Query(_) => Last(before, wakes)
  }

  function Reports(events: seq<Event>, wakes: bool): seq<Report> {
    if events == [] then []
    else
      var before := events[..|events| - 1];
      Reports(before, wakes) +
        match events[|events| - 1]
        case In(answer, _) => if answer != Last(before, wakes) then [Report(true)] else []
        case Out => [Report(false)]
        case Query(_) => []
  }

  /** Event i is a plug in that is reported. */
  predicate Told(events: seq<Event>, wakes: bool, i: nat)
    requires i < |events| && events[i].In?
  {
    events[i].answer != Last(events[..i], wakes)
  }

  /** No plug in and no plug out from i up to k. */
  predicate Quiet(events: seq<Event>, i: nat, k: nat)
    requires i <= k <= |events|
  {
    forall j :: i <= j < k ==> events[j].Query?
  }

  /** What is remembered does not change while the framework reads the address. */
  lemma {:induction false} QuietKeeps(events: seq<Event>, wakes: bool, i: nat, k: nat)
    requires i <= k <= |events| && Quiet(events, i, k)
    ensures Last(events[..k], wakes) == Last(events[..i], wakes)
  {
    if i < k {
      QuietKeeps(events, wakes, i, k - 1);
      assert events[..k][..k - 1] == events[..k - 1];
    }
  }

  /** In terms of the events alone: a plug in is reported exactly when its address is not the one
      that the plug in before it left, or, with none since the last plug out, is valid. */
  lemma {:induction false} ToldExactly(events: seq<Event>, wakes: bool, i: nat, k: nat)
    requires i < k < |events| && events[k].In? && Quiet(events, i + 1, k) && !events[i].Query?
    ensures Told(events, wakes, k) <==>
              events[k].answer
              != (match events[i]
                  case In(answer, again) =>
                    if wakes && Told(events, wakes, i) then again else answer
                  case _ => 0xFFFF)
  {
    QuietKeeps(events, wakes, i + 1, k);
    assert events[..i + 1][..i] == events[..i];
  }

  /** The first plug in of all is reported exactly when its address is valid. */
  lemma {:induction false} FirstToldExactly(events: seq<Event>, wakes: bool, k: nat)
    requires k < |events| && events[k].In? && Quiet(events, 0, k)
    ensures Told(events, wakes, k) <==> events[k].answer != 0xFFFF
  {
    QuietKeeps(events, wakes, 0, k);
  }

  /** After an unplug nothing is reported while the address is invalid, and the next valid address
      always is. */
  lemma {:induction false} ToldAfterUnplug(events: seq<Event>, wakes: bool, i: nat, k: nat)
    requires i < k < |events| && events[i].Out? && events[k].In?
    requires forall j :: i < j < k ==> !(events[j].In? && events[j].answer != 0xFFFF)
    ensures Told(events, wakes, k) <==> events[k].answer != 0xFFFF
  {
    StillUnplugged(events, wakes, i, k);
  }

  lemma {:induction false} StillUnplugged(events: seq<Event>, wakes: bool, i: nat, k: nat)
    requires i < k <= |events| && events[i].Out?
    requires forall j :: i < j < k ==> !(events[j].In? && events[j].answer != INVALID)
    ensures Last(events[..k], wakes) == INVALID
  {
    assert events[..k][..k - 1] == events[..k - 1];
    if i < k - 1 {
      StillUnplugged(events, wakes, i, k - 1);
    }
  }

  /** The same address is reported once: a second plug in with it is silent, unless reading it
      again for the TV gave another one. */
  lemma {:induction false} RepeatToldExactly(events: seq<Event>, wakes: bool, i: nat, k: nat)
    requires i < k < |events| && events[i].In? && events[k].In? && Quiet(events, i + 1, k)
    requires events[k].answer == events[i].answer
    ensures Told(events, wakes, k)
       <==> wakes && Told(events, wakes, i) && events[i].again != events[i].answer
  {
    ToldExactly(events, wakes, i, k);
  }

  /** The number of times the framework is told of a plug in, and of a plug out. */
  function CountTold(reports: seq<Report>, connected: bool): nat {
    if reports == [] then 0
    else CountTold(reports[..|reports| - 1], connected)
         + if reports[|reports| - 1].connected == connected then 1 else 0
  }

  /** The plug ins that are reported. */
  function CountNews(events: seq<Event>, wakes: bool): nat {
    if events == [] then 0
    else
      var n := |events| - 1;
      CountNews(events[..n], wakes) + if events[n].In? && Told(events, wakes, n) then 1 else 0
  }

  function CountOuts(events: seq<Event>): nat {
    if events == [] then 0
    else CountOuts(events[..|events| - 1]) + if events[|events| - 1].Out? then 1 else 0
  }

  /** Every plug out is reported, and every plug in that is news, and nothing else. */
  lemma {:induction false} OutsAreTold(events: seq<Event>, wakes: bool)
    ensures CountTold(Reports(events, wakes), false) == CountOuts(events)
    ensures CountTold(Reports(events, wakes), true) == CountNews(events, wakes)
    decreases |events|
  {
    if events != [] {
      var before := events[..|events| - 1];
      OutsAreTold(before, wakes);
      var told := Reports(before, wakes);
      assert (told + [Report(true)])[..|told|] == told;
      assert (told + [Report(false)])[..|told|] == told;
      assert told + [] == told;
    }
  }
}
