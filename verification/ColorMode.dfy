/** The choice of colour space and colour depth for an HDMI or DisplayPort sink, and of the
    resolution, from what the sink's EDID declares. The build with DRM HDMI support. */
module ColorMode {

  /** A word of flags as the set of its bits: it is zero if it is empty. */
  type Flags = set<nat>

  datatype Space = RGB | RGB_FULL | YCBCR_444 | YCBCR_422 | YCBCR_420 | XV_YCC

  datatype Depth = AUTO | NO_DEEP_COLOR | DEEP_COLOR_10_BIT | DEEP_COLOR_12_BIT | DEEP_COLOR_16_BIT

  datatype Mode = Mode(space: Space, depth: Depth)

  datatype Edid = Edid(
    dynamicHdr: Flags,      // ui1_sink_support_dynamic_hdr
    vic4k2k: Flags,         // ui4_sink_hdmi_4k2kvic
    colorimetry: Flags,     // ui2_sink_colorimetry
    rgbBits: Flags,
    ycbcrBits: Flags,
    dc420Bits: Flags,
    characterRate: nat,    // ui2_sink_max_tmds_character_rate
    clock: nat,            // ui1_sink_max_tmds_clock
    dvVersion: nat,        // ui4_sink_dv_vsvdb_version
    dvLowLatency: bool)    // ui4_sink_dv_vsvdb_v1_low_latency

  const EDID_SUPPORT_DV_HDR: nat := 1
  const EDID_SUPPORT_DV_HDR_2160P60: nat := 3
  const SINK_YCBCR_444: nat := 0
  const SINK_YCBCR_422: nat := 1
  const SINK_RGB: nat := 7
  const SINK_YCBCR_420: nat := 11
  const SINK_YCBCR_420_CAPABILITY: nat := 12
  const SINK_2160P_50HZ: nat := 8
  const SINK_2160P_60HZ: nat := 9
  const SINK_DEEP_COLOR_10_BIT: nat := 0
  const SINK_DEEP_COLOR_12_BIT: nat := 1

  const RES4K60_TMDS_RATE := 594
  const RES4K30_TMDS_RATE := 297

  /** bits & (1 << bit) */
  predicate Has(bits: Flags, bit: nat) { bit in bits }

  /** The six modes at 50 to 60 Hz in 4k, and the six at up to 30 Hz. */
  predicate Is4k60(resolution: int) { 27 <= resolution <= 30 || resolution == 33 || resolution == 34 }

  predicate Is4k30(resolution: int) { 21 <= resolution <= 26 }

  function MaxRate(e: Edid): nat { if e.characterRate != 0 then e.characterRate else e.clock }

  // ---------------------------------------------------------------- the code

  method IsMax4k30DoviSink(e: Edid) returns (isMax4k30Dovi: bool)
    ensures isMax4k30Dovi == Max4k30Dovi(e)
    ensures isMax4k30Dovi <==>
              && 1 in e.dynamicHdr
              && (MaxRate(e) < 594
                  || (&& (e.dvVersion > 1 || 3 !in e.dynamicHdr)
                      && ((e.dvVersion == 1 && e.dvLowLatency) || e.dvVersion == 2 ==>
                            8 !in e.vic4k2k && 9 !in e.vic4k2k)))
  {
    isMax4k30Dovi := false;
    if Has(e.dynamicHdr, EDID_SUPPORT_DV_HDR) {
      isMax4k30Dovi := true;
      var supports4k60 := Has(e.vic4k2k, SINK_2160P_60HZ) || Has(e.vic4k2k, SINK_2160P_50HZ);
      if MaxRate(e) >= RES4K60_TMDS_RATE {
        if (e.dvVersion == 0 || e.dvVersion == 1) && Has(e.dynamicHdr, EDID_SUPPORT_DV_HDR_2160P60) {
          isMax4k30Dovi := false;
        } else if e.dvVersion == 1 && e.dvLowLatency && supports4k60 {
          isMax4k30Dovi := false;
        } else if e.dvVersion == 2 && supports4k60 {
          isMax4k30Dovi := false;
        }
      }
    }
  }

  /** What findBestMode and findDPBestMode take over from the EDID: all but the version block. */
  function Copied(e: Edid): Edid { e.(dvVersion := 0, dvLowLatency := false) }

  /** The cascade for 4k at 50 to 60 Hz. */
  method Choose4k60(e: Edid, inDepth: Depth) returns (space: Space, depth: Depth)
    ensures Mode(space, depth) == Best4k60(e, inDepth)
  {
    var maxTMDSRate := if e.characterRate != 0 then e.characterRate else e.clock;
    if Has(e.dynamicHdr, EDID_SUPPORT_DV_HDR) && Has(e.dynamicHdr, EDID_SUPPORT_DV_HDR_2160P60)
       && maxTMDSRate >= RES4K60_TMDS_RATE
    {
      return YCBCR_422, NO_DEEP_COLOR;
    }
    if Has(e.dynamicHdr, EDID_SUPPORT_DV_HDR) && maxTMDSRate >= RES4K60_TMDS_RATE {
      var max4k30DoviSink := IsMax4k30DoviSink(e);
      if !max4k30DoviSink { return YCBCR_422, NO_DEEP_COLOR; }
    }
    if Has(e.colorimetry, SINK_YCBCR_420) || Has(e.colorimetry, SINK_YCBCR_420_CAPABILITY) {
      if inDepth == DEEP_COLOR_12_BIT && Has(e.dc420Bits, SINK_DEEP_COLOR_12_BIT)
         && maxTMDSRate * 8 >= RES4K30_TMDS_RATE * 12
      {
        return YCBCR_420, DEEP_COLOR_12_BIT;
      }
      if (inDepth == DEEP_COLOR_12_BIT || inDepth == DEEP_COLOR_10_BIT)
         && Has(e.dc420Bits, SINK_DEEP_COLOR_10_BIT)
         && maxTMDSRate * 8 >= RES4K30_TMDS_RATE * 10
      {
        return YCBCR_420, DEEP_COLOR_10_BIT;
      }
      return YCBCR_420, NO_DEEP_COLOR;
    }
    if Has(e.colorimetry, SINK_YCBCR_422) && maxTMDSRate >= RES4K60_TMDS_RATE {
      return YCBCR_422, NO_DEEP_COLOR;
    }
    space, depth := YCBCR_422, NO_DEEP_COLOR;
  }

  /** The cascade for every other resolution, up to the label found. */
  method ChooseOffer(e: Edid, inDepth: Depth) returns (space: Space, depth: Depth)
    ensures Mode(space, depth) == Offer(e, inDepth)
  {
    if Has(e.dynamicHdr, EDID_SUPPORT_DV_HDR) { return YCBCR_422, NO_DEEP_COLOR; }
    if inDepth == DEEP_COLOR_12_BIT {
      if Has(e.ycbcrBits, SINK_DEEP_COLOR_12_BIT) { return YCBCR_444, DEEP_COLOR_12_BIT; }
      if Has(e.rgbBits, SINK_DEEP_COLOR_12_BIT) { return RGB, DEEP_COLOR_12_BIT; }
      if Has(e.dc420Bits, SINK_DEEP_COLOR_12_BIT) { return YCBCR_420, DEEP_COLOR_12_BIT; }
    }
    if inDepth == DEEP_COLOR_12_BIT || inDepth == DEEP_COLOR_10_BIT {
      if Has(e.ycbcrBits, SINK_DEEP_COLOR_10_BIT) { return YCBCR_444, DEEP_COLOR_10_BIT; }
      if Has(e.rgbBits, SINK_DEEP_COLOR_10_BIT) { return RGB, DEEP_COLOR_10_BIT; }
      if Has(e.dc420Bits, SINK_DEEP_COLOR_10_BIT) { return YCBCR_420, DEEP_COLOR_10_BIT; }
    }
    if inDepth == DEEP_COLOR_12_BIT || inDepth == DEEP_COLOR_10_BIT || inDepth == NO_DEEP_COLOR {
      if Has(e.colorimetry, SINK_YCBCR_444) { return YCBCR_444, NO_DEEP_COLOR; }
      if Has(e.colorimetry, SINK_RGB) { return RGB, NO_DEEP_COLOR; }
      if Has(e.colorimetry, SINK_YCBCR_422) { return YCBCR_422, NO_DEEP_COLOR; }
    }
    space, depth := RGB, NO_DEEP_COLOR;
  }

  /** The decision of findBestMode. */
  method ChooseMode(e: Edid, resolution: int, inSpace: Space, inDepth: Depth)
    returns (space: Space, depth: Depth)
    ensures Mode(space, depth) == BestMode(e, resolution, inSpace, inDepth)
  {
    var maxTMDSRate := if e.characterRate != 0 then e.characterRate else e.clock;
    if resolution == 27 || resolution == 28 || resolution == 33 || resolution == 29
       || resolution == 30 || resolution == 34
    {
      space, depth := Choose4k60(e, inDepth);
      return;
    }
    space, depth := ChooseOffer(e, inDepth);
    if inSpace == RGB && space == YCBCR_444 {
      space := RGB;
    }
    if maxTMDSRate != 0 && 21 <= resolution && resolution <= 26 {
      if space != YCBCR_420 {
        if depth == DEEP_COLOR_12_BIT && maxTMDSRate * 8 < RES4K30_TMDS_RATE * 12 {
          depth := DEEP_COLOR_10_BIT;
        }
        if depth == DEEP_COLOR_10_BIT && maxTMDSRate * 8 < RES4K30_TMDS_RATE * 10 {
          depth := NO_DEEP_COLOR;
        }
      }
    }
  }

  /** The same cascades as findDPBestMode spells them out once more. */
  method ChooseDP4k60(e: Edid, inDepth: Depth) returns (space: Space, depth: Depth)
    ensures Mode(space, depth) == Best4k60(e, inDepth)
  {
    var maxTMDSRate := if e.characterRate != 0 then e.characterRate else e.clock;
    if Has(e.dynamicHdr, EDID_SUPPORT_DV_HDR) && Has(e.dynamicHdr, EDID_SUPPORT_DV_HDR_2160P60)
       && maxTMDSRate >= RES4K60_TMDS_RATE
    {
      return YCBCR_422, NO_DEEP_COLOR;
    }
    if Has(e.dynamicHdr, EDID_SUPPORT_DV_HDR) && maxTMDSRate >= RES4K60_TMDS_RATE {
      var max4k30DoviSink := IsMax4k30DoviSink(e);
      if !max4k30DoviSink { return YCBCR_422, NO_DEEP_COLOR; }
    }
    if Has(e.colorimetry, SINK_YCBCR_420) || Has(e.colorimetry, SINK_YCBCR_420_CAPABILITY) {
      if inDepth == DEEP_COLOR_12_BIT && Has(e.dc420Bits, SINK_DEEP_COLOR_12_BIT)
         && maxTMDSRate * 8 >= RES4K30_TMDS_RATE * 12
      {
        return YCBCR_420, DEEP_COLOR_12_BIT;
      }
      if (inDepth == DEEP_COLOR_12_BIT || inDepth == DEEP_COLOR_10_BIT)
         && Has(e.dc420Bits, SINK_DEEP_COLOR_10_BIT)
         && maxTMDSRate * 8 >= RES4K30_TMDS_RATE * 10
      {
        return YCBCR_420, DEEP_COLOR_10_BIT;
      }
      return YCBCR_420, NO_DEEP_COLOR;
    }
    if Has(e.colorimetry, SINK_YCBCR_422) && maxTMDSRate >= RES4K60_TMDS_RATE {
      return YCBCR_422, NO_DEEP_COLOR;
    }
    space, depth := YCBCR_422, NO_DEEP_COLOR;
  }

  method ChooseDPOffer(e: Edid, inDepth: Depth) returns (space: Space, depth: Depth)
    ensures Mode(space, depth) == Offer(e, inDepth)
  {
    if Has(e.dynamicHdr, EDID_SUPPORT_DV_HDR) { return YCBCR_422, NO_DEEP_COLOR; }
    if inDepth == DEEP_COLOR_12_BIT {
      if Has(e.ycbcrBits, SINK_DEEP_COLOR_12_BIT) { return YCBCR_444, DEEP_COLOR_12_BIT; }
      if Has(e.rgbBits, SINK_DEEP_COLOR_12_BIT) { return RGB, DEEP_COLOR_12_BIT; }
      if Has(e.dc420Bits, SINK_DEEP_COLOR_12_BIT) { return YCBCR_420, DEEP_COLOR_12_BIT; }
    }
    if inDepth == DEEP_COLOR_12_BIT || inDepth == DEEP_COLOR_10_BIT {
      if Has(e.ycbcrBits, SINK_DEEP_COLOR_10_BIT) { return YCBCR_444, DEEP_COLOR_10_BIT; }
      if Has(e.rgbBits, SINK_DEEP_COLOR_10_BIT) { return RGB, DEEP_COLOR_10_BIT; }
      if Has(e.dc420Bits, SINK_DEEP_COLOR_10_BIT) { return YCBCR_420, DEEP_COLOR_10_BIT; }
    }
    if inDepth == DEEP_COLOR_12_BIT || inDepth == DEEP_COLOR_10_BIT || inDepth == NO_DEEP_COLOR {
      if Has(e.colorimetry, SINK_YCBCR_444) { return YCBCR_444, NO_DEEP_COLOR; }
      if Has(e.colorimetry, SINK_RGB) { return RGB, NO_DEEP_COLOR; }
      if Has(e.colorimetry, SINK_YCBCR_422) { return YCBCR_422, NO_DEEP_COLOR; }
    }
    space, depth := RGB, NO_DEEP_COLOR;
  }

  method ChooseDPMode(e: Edid, resolution: int, inSpace: Space, inDepth: Depth)
    returns (space: Space, depth: Depth)
    ensures Mode(space, depth) == BestMode(e, resolution, inSpace, inDepth)
  {
    var maxTMDSRate := if e.characterRate != 0 then e.characterRate else e.clock;
    if resolution == 27 || resolution == 28 || resolution == 33 || resolution == 29
       || resolution == 30 || resolution == 34
    {
      space, depth := ChooseDP4k60(e, inDepth);
      return;
    }
    space, depth := ChooseDPOffer(e, inDepth);
    if inSpace == RGB && space == YCBCR_444 {
      space := RGB;
    }
    if maxTMDSRate != 0 && 21 <= resolution && resolution <= 26 {
      if space != YCBCR_420 {
        if depth == DEEP_COLOR_12_BIT && maxTMDSRate * 8 < RES4K30_TMDS_RATE * 12 {
          depth := DEEP_COLOR_10_BIT;
        }
        if depth == DEEP_COLOR_10_BIT && maxTMDSRate * 8 < RES4K30_TMDS_RATE * 10 {
          depth := NO_DEEP_COLOR;
        }
      }
    }
  }

  class MtkHdmiService {
    var mEdid: seq<Flags>
    var mDPInfo: seq<Flags>
    var mEdidT: seq<Edid>  // of the DisplayPort and of the HDMI sink

    predicate Valid()
      reads this
    {
      |mEdid| == 4 && |mDPInfo| == 4 && |mEdidT| == 2
    }

    constructor ()
      ensures Valid() && mEdid == mDPInfo == [{}, {}, {}, {}]
    {
      mEdid, mDPInfo := [{}, {}, {}, {}], [{}, {}, {}, {}];
      var none := Edid({}, {}, {}, {}, {}, {}, 0, 0, 0, false);
      mEdidT := [none, none];
    }

    method FindBestMode(resolution: int, inSpace: Space, inDepth: Depth)
      returns (space: Space, depth: Depth)
      requires Valid()
      ensures Mode(space, depth)
           == if mEdid == [{}, {}, {}, {}] then Mode(RGB, NO_DEEP_COLOR)
              else BestMode(Copied(mEdidT[1]), resolution, inSpace, inDepth)
    {
      if mEdid[0] == {} && mEdid[1] == {} && mEdid[2] == {} && mEdid[3] == {} {
        return RGB, NO_DEEP_COLOR;
      }
      space, depth := ChooseMode(Copied(mEdidT[1]), resolution, inSpace, inDepth);
    }

    method FindDPBestMode(resolution: int, inSpace: Space, inDepth: Depth)
      returns (space: Space, depth: Depth)
      requires Valid()
      ensures Mode(space, depth)
           == if mDPInfo == [{}, {}, {}, {}] then Mode(RGB, NO_DEEP_COLOR)
              else BestMode(Copied(mEdidT[0]), resolution, inSpace, inDepth)
    {
      if mDPInfo[0] == {} && mDPInfo[1] == {} && mDPInfo[2] == {} && mDPInfo[3] == {} {
        return RGB, NO_DEEP_COLOR;
      }
      space, depth := ChooseDPMode(Copied(mEdidT[0]), resolution, inSpace, inDepth);
    }

    /** The first preferred resolution that the sink declares; without an EDID 480p, and the one
        asked for if there is none. */
    method GetSuitableResolution(resolution: int) returns (suitable: int)
      requires Valid()
      ensures mEdid[0] == {} && mEdid[1] == {} && mEdid[2] == {} ==> suitable == 2
      ensures mEdid[0] != {} || mEdid[1] != {} || mEdid[2] != {} ==>
                (if exists i :: 0 <= i < 22 && Declared(mEdid, PREFERED_RESOLUTIONS[i]) then
                   exists i :: 0 <= i < 22 && suitable == PREFERED_RESOLUTIONS[i]
                     && Declared(mEdid, suitable)
                     && forall k :: 0 <= k < i ==> !Declared(mEdid, PREFERED_RESOLUTIONS[k])
                 else suitable == resolution)
    {
      suitable := resolution;
      if mEdid[0] != {} || mEdid[1] != {} || mEdid[2] != {} {
        var edidTemp := mEdid[0] + mEdid[1];
        var edidTemp_4k2k := mEdid[2];
        for i := 0 to 22
          invariant suitable == resolution
          invariant forall k :: 0 <= k < i ==> !Declared(mEdid, PREFERED_RESOLUTIONS[k])
        {
          var act := PREFERED_RESOLUTIONS[i];
          if act < 21 {
            if act < 15 {
              if Has(edidTemp, sResolutionMask[act - 2]) {
                suitable := act;
                break;
              }
            }
          } else {
            if Has(edidTemp_4k2k, sResolutionMask_4k2k[act - 21]) {
              suitable := act;
              break;
            }
          }
        }
      } else {
        suitable := 2;
      }
    }
  }

  const PREFERED_RESOLUTIONS: seq<int> :=
    [30, 29, 27, 28, 26, 25, 24, 23, 22, 21, 13, 14, 8, 9, 10, 11, 6, 7, 4, 5, 2, 3]

  /** The bit of each resolution from 480p, number 2, on, and from 2160p at 23.976 Hz on. */
  const sResolutionMask: seq<nat> := [0, 10, 1, 11, 2, 12, 9, 19, 20, 21, 22, 3, 13]

  const sResolutionMask_4k2k: seq<nat> := [0, 1, 2, 3, 4, 5, 9, 8, 11, 10]

  /** The sink declares the resolution. */
  predicate Declared(edid: seq<Flags>, resolution: int)
    requires |edid| == 4
  {
    if resolution < 21 then
      2 <= resolution < 15 && Has(edid[0] + edid[1], sResolutionMask[resolution - 2])
    else
      resolution < 31 && Has(edid[2], sResolutionMask_4k2k[resolution - 21])
  }

  /** The preferred resolutions are all that the sink can declare but number 12. */
  lemma {:induction false} PreferredExactly(r: int)
    ensures r in PREFERED_RESOLUTIONS <==> (2 <= r < 15 && r != 12) || 21 <= r < 31
  {
    var at60, at30, full, hd, sd :=
      [30, 29, 27, 28], [26, 25, 24, 23, 22, 21], [13, 14], [8, 9, 10, 11], [6, 7, 4, 5, 2, 3];
    assert r in at60 <==> 27 <= r < 31;
    assert r in at30 <==> 21 <= r < 27;
    assert r in full <==> 13 <= r < 15;
    assert r in hd <==> 8 <= r < 12;
    assert r in sd <==> 2 <= r < 8;
    assert PREFERED_RESOLUTIONS == at60 + at30 + full + hd + sd;
  }

  // ---------------------------------------------------------------- what it chooses

  predicate Max4k30Dovi(e: Edid) {
    && Has(e.dynamicHdr, EDID_SUPPORT_DV_HDR)
    && !(MaxRate(e) >= RES4K60_TMDS_RATE
         && ((e.dvVersion <= 1 && Has(e.dynamicHdr, EDID_SUPPORT_DV_HDR_2160P60))
             || (((e.dvVersion == 1 && e.dvLowLatency) || e.dvVersion == 2)
                 && (Has(e.vic4k2k, SINK_2160P_60HZ) || Has(e.vic4k2k, SINK_2160P_50HZ)))))
  }

  /** A deep colour of a 4k mode at up to 30 Hz, or in 4:2:0 at up to 60 Hz, is within the rate. */
  predicate Fits(rate: nat, depth: Depth) {
    match depth
    case DEEP_COLOR_12_BIT => rate * 8 >= RES4K30_TMDS_RATE * 12
    case DEEP_COLOR_10_BIT => rate * 8 >= RES4K30_TMDS_RATE * 10
    case _ => true
  }

  function Bit(depth: Depth): nat {
    if depth == DEEP_COLOR_12_BIT then SINK_DEEP_COLOR_12_BIT else SINK_DEEP_COLOR_10_BIT
  }

  /** The deepest of 12 and 10 bits that is asked for or less, and can be had. */
  function Deepest(asked: Depth, can12: bool, can10: bool): Depth {
    if asked == DEEP_COLOR_12_BIT && can12 then DEEP_COLOR_12_BIT
    else if (asked == DEEP_COLOR_12_BIT || asked == DEEP_COLOR_10_BIT) && can10 then DEEP_COLOR_10_BIT
    else NO_DEEP_COLOR
  }

  predicate Dolby(e: Edid) { Has(e.dynamicHdr, EDID_SUPPORT_DV_HDR) }

  /** Dolby Vision goes out at 4k and 60 Hz. */
  predicate Dolby4k60(e: Edid) {
    && Dolby(e) && MaxRate(e) >= RES4K60_TMDS_RATE
    && (Has(e.dynamicHdr, EDID_SUPPORT_DV_HDR_2160P60) || !Max4k30Dovi(e))
  }

  predicate Sink420(e: Edid) {
    Has(e.colorimetry, SINK_YCBCR_420) || Has(e.colorimetry, SINK_YCBCR_420_CAPABILITY)
  }

  /** Some colour space has the depth. */
  predicate AnyDeep(e: Edid, depth: Depth) {
    Has(e.ycbcrBits, Bit(depth)) || Has(e.rgbBits, Bit(depth)) || Has(e.dc420Bits, Bit(depth))
  }

  function DeepSpace(e: Edid, depth: Depth): Space {
    if Has(e.ycbcrBits, Bit(depth)) then YCBCR_444
    else if Has(e.rgbBits, Bit(depth)) then RGB
    else YCBCR_420
  }

  function PlainSpace(e: Edid, asked: Depth): Space {
    if asked == AUTO || asked == DEEP_COLOR_16_BIT then RGB
    else if Has(e.colorimetry, SINK_YCBCR_444) then YCBCR_444
    else if Has(e.colorimetry, SINK_RGB) then RGB
    else if Has(e.colorimetry, SINK_YCBCR_422) then YCBCR_422
    else RGB
  }

  /** The mode the sink offers for the depth that is asked for, whatever the rate. */
  function Offer(e: Edid, asked: Depth): Mode {
    if Dolby(e) then Mode(YCBCR_422, NO_DEEP_COLOR)
    else
      var depth := Deepest(asked, AnyDeep(e, DEEP_COLOR_12_BIT), AnyDeep(e, DEEP_COLOR_10_BIT));
      Mode(if depth == NO_DEEP_COLOR then PlainSpace(e, asked) else DeepSpace(e, depth), depth)
  }

  function Best4k60(e: Edid, asked: Depth): Mode {
    var rate := MaxRate(e);
    if !Dolby4k60(e) && Sink420(e) then
      Mode(YCBCR_420,
           Deepest(asked,
                   Has(e.dc420Bits, SINK_DEEP_COLOR_12_BIT) && Fits(rate, DEEP_COLOR_12_BIT),
                   Has(e.dc420Bits, SINK_DEEP_COLOR_10_BIT) && Fits(rate, DEEP_COLOR_10_BIT)))
    else Mode(YCBCR_422, NO_DEEP_COLOR)
  }

  function BestMode(e: Edid, resolution: int, space: Space, asked: Depth): Mode {
    if Is4k60(resolution) then Best4k60(e, asked)
    else
      var m, rate := Offer(e, asked), MaxRate(e);
      var out := if space == RGB && m.space == YCBCR_444 then RGB else m.space;
      Mode(out,
           if Is4k30(resolution) && rate != 0 && out != YCBCR_420
           then Deepest(m.depth, Fits(rate, DEEP_COLOR_12_BIT), Fits(rate, DEEP_COLOR_10_BIT))
           else m.depth)
  }

  // ---------------------------------------------------------------- the promises

  function Bits(depth: Depth): nat {
    match depth
    case AUTO => 8
    case NO_DEEP_COLOR => 8
    case DEEP_COLOR_10_BIT => 10
    case DEEP_COLOR_12_BIT => 12
    case DEEP_COLOR_16_BIT => 16
  }

  /** Exactly when 4k at 50 to 60 Hz is 4:2:0, and how deep: if Dolby Vision does not take it over
      and the sink has 4:2:0. A depth is one the sink declares there, asked for or less, and
      within the rate: 297 MHz for 8 bits. Everything else is 4:2:2 without deep colour. */
  lemma {:induction false} FormOf4k60(e: Edid, resolution: int, space: Space, asked: Depth)
    requires resolution in {27, 28, 29, 30, 33, 34}
    ensures var m := BestMode(e, resolution, space, asked);
            var rate := if e.characterRate != 0 then e.characterRate else e.clock;
            var newer := (e.dvVersion == 1 && e.dvLowLatency) || e.dvVersion == 2;
            var dolby := 1 in e.dynamicHdr && rate >= 594
              && (3 in e.dynamicHdr || (newer && (8 in e.vic4k2k || 9 in e.vic4k2k)));
            var in420 := !dolby && (11 in e.colorimetry || 12 in e.colorimetry);
            var deep12 := asked == DEEP_COLOR_12_BIT && 1 in e.dc420Bits && rate * 8 >= 297 * 12;
            var deep10 := (asked == DEEP_COLOR_12_BIT || asked == DEEP_COLOR_10_BIT)
              && 0 in e.dc420Bits && rate * 8 >= 297 * 10;
            if in420 then
              && m.space == YCBCR_420
              && m.depth == if deep12 then DEEP_COLOR_12_BIT
                            else if deep10 then DEEP_COLOR_10_BIT else NO_DEEP_COLOR
            else m == Mode(YCBCR_422, NO_DEEP_COLOR)
  {
  }

  /** In every other resolution the space is the first that has the depth that is taken, of 4:4:4,
      RGB and 4:2:0, and without deep colour of 4:4:4, RGB and 4:2:2; RGB replaces 4:4:4 where it
      is asked for, and stands in where there is none. Dolby Vision is 4:2:2. */
  lemma {:induction false} SpaceExactly(e: Edid, resolution: int, space: Space, asked: Depth)
    requires resolution !in {27, 28, 29, 30, 33, 34}
    ensures var m := BestMode(e, resolution, space, asked);
            var all := e.ycbcrBits + e.rgbBits + e.dc420Bits;
            var deep12 := asked == DEEP_COLOR_12_BIT && 1 in all;
            var deep10 := (asked == DEEP_COLOR_12_BIT || asked == DEEP_COLOR_10_BIT) && 0 in all;
            var bit := if deep12 then 1 else 0;
            var known := asked != AUTO && asked != DEEP_COLOR_16_BIT;
            var has444 := if deep12 || deep10 then bit in e.ycbcrBits
                          else known && 0 in e.colorimetry;
            var hasRgb := if deep12 || deep10 then bit in e.rgbBits
                          else known && 7 in e.colorimetry;
            var has422 := !(deep12 || deep10) && known && 1 in e.colorimetry;
            && (m.space == YCBCR_444 <==> 1 !in e.dynamicHdr && has444 && space != RGB)
            && (m.space == YCBCR_420 <==>
                  1 !in e.dynamicHdr && (deep12 || deep10) && !has444 && !hasRgb)
            && (m.space == YCBCR_422 <==>
                  1 in e.dynamicHdr || (has422 && !has444 && !hasRgb))
            && (m.space == YCBCR_444 || m.space == YCBCR_420 || m.space == YCBCR_422
                || m.space == RGB)
  {
    var all := e.ycbcrBits + e.rgbBits + e.dc420Bits;
    assert AnyDeep(e, DEEP_COLOR_12_BIT) <==> 1 in all;
    assert AnyDeep(e, DEEP_COLOR_10_BIT) <==> 0 in all;
  }

  /** And the depth is the deepest declared in any of them that is asked for, or less. In 4k at up
      to 30 Hz it is lowered to what a known rate carries, except in 4:2:0. */
  lemma {:induction false} DepthExactly(e: Edid, resolution: int, space: Space, asked: Depth)
    requires resolution !in {27, 28, 29, 30, 33, 34}
    ensures var m := BestMode(e, resolution, space, asked);
            var rate := if e.characterRate != 0 then e.characterRate else e.clock;
            var all := e.ycbcrBits + e.rgbBits + e.dc420Bits;
            var plain := 1 in e.dynamicHdr;
            var can12 := !plain && asked == DEEP_COLOR_12_BIT && 1 in all;
            var can10 := !plain && (asked == DEEP_COLOR_12_BIT || asked == DEEP_COLOR_10_BIT)
                         && 0 in all;
            var limited := 21 <= resolution <= 26 && rate != 0 && m.space != YCBCR_420;
            && (m.depth == DEEP_COLOR_12_BIT <==> can12 && (limited ==> rate * 8 >= 297 * 12))
            && (m.depth == DEEP_COLOR_10_BIT <==>
                  if limited then
                    (can10 || can12) && rate * 8 >= 297 * 10 && !(can12 && rate * 8 >= 297 * 12)
                  else can10 && !can12)
            && (m.depth == NO_DEEP_COLOR || m.depth == DEEP_COLOR_10_BIT
                || m.depth == DEEP_COLOR_12_BIT)
  {
    var all := e.ycbcrBits + e.rgbBits + e.dc420Bits;
    assert AnyDeep(e, DEEP_COLOR_12_BIT) <==> 1 in all;
    assert AnyDeep(e, DEEP_COLOR_10_BIT) <==> 0 in all;
  }

  /** 4k at up to 30 Hz, outside 4:2:0, never has a deep colour above a known rate. */
  lemma {:induction false} WithinRateAt4k30(e: Edid, resolution: int, space: Space, asked: Depth)
    requires Is4k30(resolution) && MaxRate(e) != 0
    ensures var m := BestMode(e, resolution, space, asked);
            m.space != YCBCR_420 && m.depth != NO_DEEP_COLOR
            ==> MaxRate(e) * 8 >= RES4K30_TMDS_RATE * Bits(m.depth)
  {
  }

  /** No answer is deeper than what is asked for. */
  lemma {:induction false} NeverDeeperThanAsked(e: Edid, resolution: int, space: Space,
                                                asked: Depth)
    ensures Bits(BestMode(e, resolution, space, asked).depth) <= Bits(asked)
  {
    var m := Offer(e, asked);
    assert Bits(m.depth) <= Bits(asked);
  }

  /** The same sink at another rate. */
  predicate SameButRate(a: Edid, b: Edid) {
    b == a.(characterRate := b.characterRate, clock := b.clock)
  }

  /** The sink takes the depth in 4:2:0 at its rate. */
  predicate Takes420(e: Edid, depth: Depth) {
    Has(e.dc420Bits, Bit(depth)) && Fits(MaxRate(e), depth)
  }

  /** What is asked for can be had deep in 4:2:0. */
  predicate Deep420(e: Edid, asked: Depth) {
    && Sink420(e)
    && ((asked == DEEP_COLOR_12_BIT && Takes420(e, DEEP_COLOR_12_BIT))
        || ((asked == DEEP_COLOR_12_BIT || asked == DEEP_COLOR_10_BIT)
            && Takes420(e, DEEP_COLOR_10_BIT)))
  }

  /** A higher rate never gives a lower depth, but where it crosses 594 and Dolby Vision takes
      4k at 50 to 60 Hz over from a deep 4:2:0: there, and only there, it does. */
  lemma {:induction false} DepthGrowsWithRateExactly(a: Edid, b: Edid, resolution: int,
                                                     space: Space, asked: Depth)
    requires SameButRate(a, b) && 0 < MaxRate(a) <= MaxRate(b)
    ensures Bits(BestMode(a, resolution, space, asked).depth)
            <= Bits(BestMode(b, resolution, space, asked).depth)
       <==> !(&& Is4k60(resolution) && Dolby4k60(b) && MaxRate(a) < RES4K60_TMDS_RATE
              && Deep420(a, asked))
  {
    if Is4k60(resolution) {
      Dolby4k60Grows(a, b);
    } else {
      assert Offer(a, asked) == Offer(b, asked);
    }
  }

  lemma {:induction false} Dolby4k60Grows(a: Edid, b: Edid)
    requires SameButRate(a, b) && MaxRate(a) <= MaxRate(b)
    ensures Dolby4k60(a) <==> Dolby4k60(b) && MaxRate(a) >= RES4K60_TMDS_RATE
  {
  }

  /** Without Dolby Vision the depth only grows. */
  lemma {:induction false} DepthGrowsWithoutDolby(a: Edid, b: Edid, resolution: int, space: Space,
                                                  asked: Depth)
    requires SameButRate(a, b) && 0 < MaxRate(a) <= MaxRate(b) && !Dolby(a)
    ensures Bits(BestMode(a, resolution, space, asked).depth)
         <= Bits(BestMode(b, resolution, space, asked).depth)
  {
    DepthGrowsWithRateExactly(a, b, resolution, space, asked);
  }

  /** The version block of the EDID is not copied, so the branch for low latency and for version
      2 sinks is never taken: this changes the answer exactly for these 4:2:0 sinks. */
  lemma {:induction false} NotCopiedMattersExactly(e: Edid, resolution: int, space: Space,
                                                   asked: Depth)
    ensures BestMode(Copied(e), resolution, space, asked) != BestMode(e, resolution, space, asked)
       <==> && Is4k60(resolution) && Dolby(e) && MaxRate(e) >= RES4K60_TMDS_RATE && Sink420(e)
            && !Has(e.dynamicHdr, EDID_SUPPORT_DV_HDR_2160P60)
            && (Has(e.vic4k2k, SINK_2160P_60HZ) || Has(e.vic4k2k, SINK_2160P_50HZ))
            && ((e.dvVersion == 1 && e.dvLowLatency) || e.dvVersion == 2)
  {
    assert Offer(Copied(e), asked) == Offer(e, asked);
  }

  /** The sink declares the depth in the space. */
  predicate DeclaresDepth(e: Edid, m: Mode) {
    match m.space
    case YCBCR_444 => Has(e.ycbcrBits, Bit(m.depth))
    case RGB => Has(e.rgbBits, Bit(m.depth))
    case YCBCR_420 => Has(e.dc420Bits, Bit(m.depth))
    case _ => false
  }

  /** A deep colour is one that the sink declares for the space, but for the two corrections
      that come after the choice: RGB instead of 4:4:4, and a depth cut to the rate. */
  lemma {:induction false} DeepColourIsDeclared(e: Edid, resolution: int, space: Space,
                                                asked: Depth)
    requires BestMode(e, resolution, space, asked).depth != NO_DEEP_COLOR
    ensures var m := BestMode(e, resolution, space, asked);
            !DeclaresDepth(e, m) ==>
              && !Is4k60(resolution)
              && ((space == RGB && Offer(e, asked).space == YCBCR_444)
                  || (Is4k30(resolution) && !Fits(MaxRate(e), Offer(e, asked).depth)))
  {
  }

  /** Both corrections can leave the declared modes. */
  lemma {:induction false} CorrectionsCanBeUndeclared()
    ensures exists e, resolution, asked ::
              var m := BestMode(e, resolution, RGB, asked);
              m.depth != NO_DEEP_COLOR && !DeclaresDepth(e, m) && !Is4k30(resolution)
    ensures exists e, resolution, asked ::
              var m := BestMode(e, resolution, YCBCR_444, asked);
              m.depth != NO_DEEP_COLOR && !DeclaresDepth(e, m) && Is4k30(resolution)
  {
    // 12 bits in 4:4:4 only, 400 MHz
    var e := Edid({}, {}, {0, 7}, {}, {1}, {}, 400, 0, 0, false);
    assert BestMode(e, 13, RGB, DEEP_COLOR_12_BIT) == Mode(RGB, DEEP_COLOR_12_BIT);
    assert BestMode(e, 25, YCBCR_444, DEEP_COLOR_12_BIT) == Mode(YCBCR_444, DEEP_COLOR_10_BIT);
    assert !DeclaresDepth(e, Mode(RGB, DEEP_COLOR_12_BIT));
    assert !DeclaresDepth(e, Mode(YCBCR_444, DEEP_COLOR_10_BIT));
  }
}
