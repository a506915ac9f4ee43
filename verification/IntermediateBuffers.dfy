/** The YU12 frames of the output thread: the input frame, the thumbnail frame and one scaled
    frame for every other stream size; and the crop and scale step that relies on them. */
module IntermediateBuffers {
  import opened CropGeometry
  import opened FormatTrim

  /** An AllocatedFrame. data: allocate() has succeeded on it. */
  datatype Frame = Frame(size: Size, data: bool)

  /** Okay with the size of the layout handed on, or the check that failed. */
  datatype Result =
    | Okay(size: Size) | InputLayout | Crop | CroppedInput | Missing | OutLayout | Scale

  function SizesOf(streams: seq<Size>): set<Size> {
    set i | 0 <= i < |streams| :: streams[i]
  }

  ghost predicate Fits(frames: map<Size, Frame>) {
    forall s :: s in frames ==> frames[s] == Frame(s, true) && Even(s)
  }

  class OutputThread {
    var mCroppingType: CroppingType
    var mYu12Frame: Option<Frame>
    var mYu12ThumbFrame: Option<Frame>
    var mIntermediateBuffers: map<Size, Frame>
    var mScaledYu12Frames: map<Size, Frame>

    /** A frame for a size has that size, and its data if the size is even. */
    ghost predicate Valid()
      reads this
    {
      && (mYu12Frame.Some? ==> mYu12Frame.value.data == Even(mYu12Frame.value.size))
      && (mYu12ThumbFrame.Some? ==> mYu12ThumbFrame.value.data == Even(mYu12ThumbFrame.value.size))
      && Fits(mIntermediateBuffers) && Fits(mScaledYu12Frames)
    }

    constructor (ct: CroppingType)
      ensures Valid() && mCroppingType == ct && mYu12Frame == None && mYu12ThumbFrame == None
      ensures mIntermediateBuffers == map[] && mScaledYu12Frames == map[]
    {
      mCroppingType, mYu12Frame, mYu12ThumbFrame := ct, None, None;
      mIntermediateBuffers, mScaledYu12Frames := map[], map[];
    }

    // -------------------------------------------------------------- allocation

    /** The fixed frame of some size: kept if it has that size, else made anew. */
    method Renew(frame: Option<Frame>, size: Size) returns (ok: bool, kept: Option<Frame>)
      ensures kept == Some(if frame.Some? && frame.value.size == size then frame.value
                             else Frame(size, Even(size)))
      ensures ok <==> (frame.Some? && frame.value.size == size) || Even(size)
    {
      if frame == None || frame.value.size.width != size.width
         || frame.value.size.height != size.height
      {
        ok := size.width % 2 == 0 && size.height % 2 == 0;
        kept := Some(Frame(size, ok));
      } else {
        ok, kept := true, frame;
      }
    }

    /** A scaled frame for each stream size other than the input's. */
    method AddBuffers(v4lSize: Size, streams: seq<Size>) returns (ok: bool)
      requires Fits(mIntermediateBuffers)
      modifies this`mIntermediateBuffers
      ensures Fits(mIntermediateBuffers)
      ensures ok <==> forall s :: s in SizesOf(streams) - {v4lSize} - old(mIntermediateBuffers).Keys
                        ==> Even(s)
      ensures ok ==>
                mIntermediateBuffers.Keys
                == old(mIntermediateBuffers).Keys + (SizesOf(streams) - {v4lSize})
      ensures old(mIntermediateBuffers).Keys <= mIntermediateBuffers.Keys
                <= old(mIntermediateBuffers).Keys + (SizesOf(streams) - {v4lSize})
    {
      for i := 0 to |streams|
        invariant Fits(mIntermediateBuffers)
        invariant mIntermediateBuffers.Keys
               == old(mIntermediateBuffers).Keys + (SizesOf(streams[..i]) - {v4lSize})
      {
        assert SizesOf(streams[..i + 1]) == SizesOf(streams[..i]) + {streams[i]};
        assert streams[i] in SizesOf(streams);
        assert SizesOf(streams[..i]) <= SizesOf(streams);
        var sz := streams[i];
        if sz == v4lSize { continue; }
        if sz !in mIntermediateBuffers {
          if sz.width % 2 != 0 || sz.height % 2 != 0 {
            assert sz in SizesOf(streams) - {v4lSize} - old(mIntermediateBuffers).Keys;
            return false;
          }
          mIntermediateBuffers := mIntermediateBuffers[sz := Frame(sz, true)];
        }
      }
      assert streams[..|streams|] == streams;
      ok := true;
    }

    /** Frames of sizes that no stream has go. */
    method RemoveUnconfigured(streams: seq<Size>)
      requires Fits(mIntermediateBuffers)
      modifies this`mIntermediateBuffers
      ensures Fits(mIntermediateBuffers)
      ensures mIntermediateBuffers.Keys == old(mIntermediateBuffers).Keys * SizesOf(streams)
    {
      var left := mIntermediateBuffers.Keys;
      while left != {}
        invariant left <= old(mIntermediateBuffers).Keys && Fits(mIntermediateBuffers)
        invariant mIntermediateBuffers.Keys
               == left + (old(mIntermediateBuffers).Keys - left) * SizesOf(streams)
      {
        var sz :| sz in left;
        var configured := false;
        for i := 0 to |streams|
          invariant !configured && sz !in streams[..i]
        {
          if streams[i].width == sz.width && streams[i].height == sz.height {
            configured := true;
            assert streams[i] in SizesOf(streams);
            break;
          }
        }
        if !configured {
          mIntermediateBuffers := mIntermediateBuffers - {sz};
        }
        left := left - {sz};
      }
    }

    /** It succeeds exactly when no scaled frame is in use and every frame that is new has an
        even size. Then every stream size but the input's has its frame, and no size has one that
        is not a stream's. */
    method AllocateIntermediateBuffers(v4lSize: Size, thumbSize: Size, streams: seq<Size>)
      returns (ok: bool)
      requires Valid()
      modifies this`mYu12Frame, this`mYu12ThumbFrame, this`mIntermediateBuffers
      ensures Valid()
      ensures ok <==>
                && old(mScaledYu12Frames) == map[]
                && (Even(v4lSize) || (old(mYu12Frame).Some? && old(mYu12Frame).value.size == v4lSize))
                && (Even(thumbSize) || (old(mYu12ThumbFrame).Some?
                                        && old(mYu12ThumbFrame).value.size == thumbSize))
                && (forall s :: s in SizesOf(streams) - {v4lSize} - old(mIntermediateBuffers).Keys
                      ==> Even(s))
      ensures old(mScaledYu12Frames) == map[] ==>
                mYu12Frame == Some(Frame(v4lSize, Even(v4lSize)))
      ensures ok ==>
                && mYu12ThumbFrame == Some(Frame(thumbSize, Even(thumbSize)))
                && SizesOf(streams) - {v4lSize} <= mIntermediateBuffers.Keys <= SizesOf(streams)
                && mIntermediateBuffers.Keys - old(mIntermediateBuffers).Keys
                   == SizesOf(streams) - {v4lSize} - old(mIntermediateBuffers).Keys
    {
      if |mScaledYu12Frames| != 0 { return false; }
      var fine;
      fine, mYu12Frame := Renew(mYu12Frame, v4lSize);
      if !fine { return false; }
      fine, mYu12ThumbFrame := Renew(mYu12ThumbFrame, thumbSize);
      if !fine { return false; }
      fine := AddBuffers(v4lSize, streams);
      if !fine { return false; }
      RemoveUnconfigured(streams);
      ok := true;
    }

    // -------------------------------------------------------------- crop and scale

    /** scales: libyuv can scale between these sizes. The size of the result is that of the layout
        handed on: of the scaled frame, or of the crop itself when no scaling is needed. */
    method CropAndScaleLocked(input: Frame, outSz: Size, scales: bool) returns (r: Result)
      requires Valid() && Positive(input.size) && Positive(outSz)
      modifies this`mScaledYu12Frames
      ensures Valid()
      ensures r == CropAndScale(mCroppingType, input.size, outSz,
                                old(mScaledYu12Frames).Keys + mIntermediateBuffers.Keys, scales)
      ensures mScaledYu12Frames.Keys == old(mScaledYu12Frames).Keys
                + if r == Okay(outSz) && Scales(mCroppingType, input.size, outSz) then {outSz} else {}
    {
      var inSz := input.size;
      if inSz == outSz {
        return if Even(inSz) then Okay(inSz) else InputLayout;
      }
      var inputCrop := GetCropRect(mCroppingType, inSz, outSz);
      if inputCrop == None { return Crop; }
      CropIsRight(mCroppingType, inSz, outSz);
      var accepted := CroppedLayout(inSz, inputCrop.value).Some?;
      r := ScaleLocked(inputCrop.value, accepted, inSz, outSz, scales);
    }

    /** The rest, with the crop rectangle at hand. */
    method ScaleLocked(inputCrop: Rect, accepted: bool, inSz: Size, outSz: Size, scales: bool)
      returns (r: Result)
      requires Valid() && inputCrop.width >= 0 && inputCrop.height >= 0 && inSz != outSz
      modifies this`mScaledYu12Frames
      ensures Valid()
      ensures r == Scaling(mCroppingType, inputCrop, accepted, inSz, outSz,
                           old(mScaledYu12Frames).Keys + mIntermediateBuffers.Keys, scales)
      ensures mScaledYu12Frames.Keys == old(mScaledYu12Frames).Keys
                + if r == Okay(outSz) && Scales(mCroppingType, inSz, outSz) then {outSz} else {}
    {
      if !accepted { return CroppedInput; }
      if (mCroppingType == VERTICAL && inSz.width == outSz.width)
         || (mCroppingType == HORIZONTAL && inSz.height == outSz.height)
      {
        return Okay(Size(inputCrop.width, inputCrop.height));
      }
      var scaledYu12Buf;
      if outSz in mScaledYu12Frames {
        scaledYu12Buf := mScaledYu12Frames[outSz];
      } else {
        if outSz !in mIntermediateBuffers { return Missing; }
        scaledYu12Buf := mIntermediateBuffers[outSz];
      }
      var out := CroppedLayout(scaledYu12Buf.size, Whole(scaledYu12Buf.size));
      if out == None { return OutLayout; }
      if !scales { return Scale; }
      mScaledYu12Frames := mScaledYu12Frames[outSz := scaledYu12Buf];
      r := Okay(scaledYu12Buf.size);
    }
  }

  function Whole(s: Size): Rect { Rect(0, 0, s.width, s.height) }

  /** The crop alone does not do it. */
  predicate Scales(ct: CroppingType, inSz: Size, outSz: Size) {
    && inSz != outSz
    && !(ct == VERTICAL && inSz.width == outSz.width)
    && !(ct == HORIZONTAL && inSz.height == outSz.height)
  }

  /** frames: the sizes that there is a scaled frame for. */
  function CropAndScale(ct: CroppingType, inSz: Size, outSz: Size, frames: set<Size>, scales: bool)
    : Result
    requires Positive(inSz) && Positive(outSz)
  {
    if inSz == outSz then if Even(inSz) then Okay(inSz) else InputLayout
    else
      var crop := GetCropRect(ct, inSz, outSz);
      if crop == None then Crop
      else
        CropIsRight(ct, inSz, outSz);
        Scaling(ct, crop.value, CroppedLayout(inSz, crop.value).Some?, inSz, outSz, frames, scales)
  }

  function Scaling(ct: CroppingType, crop: Rect, accepted: bool, inSz: Size, outSz: Size,
                   frames: set<Size>, scales: bool): Result
    requires crop.width >= 0 && crop.height >= 0
  {
    if !accepted then CroppedInput
    else if !Scales(ct, inSz, outSz) then Okay(Size(crop.width, crop.height))
    else if outSz !in frames then Missing
    else if CroppedLayout(outSz, Whole(outSz)) == None then OutLayout
    else if !scales then Scale
    else Okay(outSz)
  }

  // ---------------------------------------------------------------- what the stream gets

  /** Which check stops the step, and the size that comes out: of the crop where one side agrees
      already, and of the stream otherwise. */
  lemma {:induction false} OutcomeExactly(ct: CroppingType, inSz: Size, outSz: Size,
                                          frames: set<Size>, scales: bool)
    requires Positive(inSz) && Positive(outSz)
    ensures var r := CropAndScale(ct, inSz, outSz, frames, scales);
            var crop := GetCropRect(ct, inSz, outSz);
            var oddCrop := if AspectRatioClose(inSz, outSz)
                           then inSz.width % 2 == 1 || inSz.height % 2 == 1
                           else if ct == VERTICAL then inSz.width % 2 == 1
                           else inSz.height % 2 == 1;
            var cropped := inSz != outSz && crop.Some? && !oddCrop;
            var oneSide := if ct == VERTICAL then inSz.width == outSz.width
                           else inSz.height == outSz.height;
            var oddOut := outSz.width % 2 == 1 || outSz.height % 2 == 1;
            && (r == InputLayout <==> inSz == outSz && oddOut)
            && (r == Crop <==> inSz != outSz && crop == None)
            && (r == CroppedInput <==> inSz != outSz && crop.Some? && oddCrop)
            && (r == Missing <==> cropped && !oneSide && outSz !in frames)
            && (r == OutLayout <==> cropped && !oneSide && outSz in frames && oddOut)
            && (r == Scale <==> cropped && !oneSide && outSz in frames && !oddOut && !scales)
            && (r.Okay? ==>
                  r.size == if cropped && oneSide then Size(crop.value.width, crop.value.height)
                            else outSz)
  {
    if inSz != outSz && GetCropRect(ct, inSz, outSz).Some? {
      CropIsRight(ct, inSz, outSz);
    }
  }

  /** For every stream whose frame was allocated, no frame is ever missing. */
  lemma {:induction false} NeverMissing(ct: CroppingType, inSz: Size, outSz: Size,
                                        streams: seq<Size>,
                                        frames: set<Size>, scales: bool)
    requires Positive(inSz) && Positive(outSz) && outSz in SizesOf(streams)
    requires SizesOf(streams) - {inSz} <= frames
    ensures CropAndScale(ct, inSz, outSz, frames, scales) != Missing
  {
    if inSz != outSz { assert outSz in frames; }
  }

  /** From the largest supported size, itself even, every supported even stream size comes out
      whole: only libyuv can refuse. The picture handed on is exactly as wide and high as the
      stream's, or, with the ratios close and the width (height) equal, at least as large. */
  lemma {:induction false} SupportedStreamsComeOut(
      ct: CroppingType, sorted: seq<Format>, f: Format, streams: seq<Size>, frames: set<Size>,
      scales: bool)
    requires AllPositive(sorted) && Sorted(ct, sorted) && f in Trimmed(ct, sorted)
    requires SizeOf(f) in SizesOf(streams)
    requires Even(SizeOf(sorted[|sorted| - 1])) && Even(SizeOf(f))
    requires SizesOf(streams) - {SizeOf(sorted[|sorted| - 1])} <= frames
    ensures Positive(SizeOf(f)) && Positive(SizeOf(sorted[|sorted| - 1]))
    ensures var inSz, outSz := SizeOf(sorted[|sorted| - 1]), SizeOf(f);
            var r := CropAndScale(ct, inSz, outSz, frames, scales);
            && (r == Scale ==> !scales)
            && (r.Okay? || r == Scale)
            && (r.Okay? && (Scales(ct, inSz, outSz) || !AspectRatioClose(inSz, outSz)) ==>
                  r.size == outSz)
            && (r.Okay? ==> r.size.width >= outSz.width && r.size.height >= outSz.height)
  {
    var max := sorted[|sorted| - 1];
    assert max in sorted;
    var inSz, outSz := SizeOf(max), SizeOf(f);
    KeptIsCroppable(ct, sorted, f);
    CropIsAccepted(ct, inSz, outSz);
    CropIsRight(ct, inSz, outSz);
    NeverMissing(ct, inSz, outSz, streams, frames, scales);
    TrimIsRight(ct, sorted, f);
    if inSz != outSz && !Scales(ct, inSz, outSz) {
      UnscaledSize(ct, inSz, outSz);
    }
  }

  /** A crop that needs no scaling has the output's size exactly if the ratios are not close. */
  lemma {:induction false} UnscaledSize(ct: CroppingType, inSz: Size, outSz: Size)
    requires Positive(inSz) && Positive(outSz) && Even(outSz)
    requires GetCropRect(ct, inSz, outSz).Some? && inSz != outSz && !Scales(ct, inSz, outSz)
    ensures var r := GetCropRect(ct, inSz, outSz).value;
            (if AspectRatioClose(inSz, outSz) then r.width == inSz.width && r.height == inSz.height
             else r.width == outSz.width && r.height == outSz.height)
  {
    var r := GetCropRect(ct, inSz, outSz).value;
    CropIsRight(ct, inSz, outSz);
    if !AspectRatioClose(inSz, outSz) {
      if ct == VERTICAL {
        SameWhole(r.height, inSz.width, outSz.height);
      } else {
        SameWhole(r.width, inSz.height, outSz.width);
      }
    }
  }

  lemma {:induction false} SameWhole(part: int, whole: nat, num: nat)
    requires whole > 0 && num % 2 == 0 && Scaled(part, whole, num, whole)
    ensures part == num
  {
    Distribute(num, whole);
    if part > num { MulMono(num + 1, part, whole); }
    if part < num { MulMono(part + 2, num, whole); }
  }

  /** An odd input size is refused the first time only: the frame it leaves behind has no data,
      and the same call then succeeds. */
  method RetryAfterOddSize(thread: OutputThread, odd: Size, thumbSize: Size, streams: seq<Size>)
    returns (first: bool, second: bool)
    requires thread.Valid() && thread.mScaledYu12Frames == map[] && thread.mYu12Frame == None
    requires !Even(odd) && Even(thumbSize) && forall s :: s in SizesOf(streams) ==> Even(s)
    modifies thread
    ensures !first && second && thread.mYu12Frame == Some(Frame(odd, false))
  {
    first := thread.AllocateIntermediateBuffers(odd, thumbSize, streams);
    second := thread.AllocateIntermediateBuffers(odd, thumbSize, streams);
  }
}
