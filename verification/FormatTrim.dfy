/** Which capture sizes the camera offers: those that can be cropped from its largest one. */
module FormatTrim {
  import opened CropGeometry

  /** rates stands for everything else that comes with a size. */
  datatype Format = Format(width: nat, height: nat, rates: seq<nat>)

  function SizeOf(f: Format): Size { Size(f.width, f.height) }

  /** The comparison that the formats are sorted by. */
  predicate Less(ct: CroppingType, a: Format, b: Format) {
    if ct == VERTICAL then
      if a.width == b.width then a.height < b.height else a.width < b.width
    else
      if a.height == b.height then a.width < b.width else a.height < b.height
  }

  ghost predicate Sorted(ct: CroppingType, fmts: seq<Format>) {
    forall i, j :: 0 <= i < j < |fmts| ==> !Less(ct, fmts[j], fmts[i])
  }

  ghost predicate AllPositive(fmts: seq<Format>) {
    forall f :: f in fmts ==> Positive(SizeOf(f))
  }

  /** ar < maxSizeAr, in whole numbers */
  predicate Narrower(a: Format, b: Format) { a.width * b.height < b.width * a.height }

  predicate Keeps(ct: CroppingType, max: Format, f: Format) {
    || AspectRatioClose(SizeOf(f), SizeOf(max))
    || (ct == HORIZONTAL && Narrower(f, max))
    || (ct == VERTICAL && Narrower(max, f))
  }

  // ---------------------------------------------------------------- trimming

  /** sorted is the list in order: each format as often as it was there. */
  ghost predicate Arranges(ct: CroppingType, sorted: seq<Format>, fmts: seq<Format>) {
    Sorted(ct, sorted) && forall f :: Count(sorted, f) == Count(fmts, f)
  }

  /** std::sort. Nothing but its contract is used: equal formats may come in any order. */
  method Sort(ct: CroppingType, fmts: seq<Format>) returns (sorted: seq<Format>)
    ensures Arranges(ct, sorted, fmts)
  {
    sorted := [];
    for i := 0 to |fmts|
      invariant Arranges(ct, sorted, fmts[..i])
    {
      sorted := Insert(ct, sorted, fmts[i]);
      assert fmts[..i + 1][..i] == fmts[..i];
    }
    assert fmts[..|fmts|] == fmts;
  }

  method Insert(ct: CroppingType, sorted: seq<Format>, x: Format) returns (out: seq<Format>)
    requires Sorted(ct, sorted)
    ensures Sorted(ct, out)
    ensures forall f :: Count(out, f) == Count(sorted, f) + if f == x then 1 else 0
  {
    var k := 0;
    while k < |sorted| && !Less(ct, x, sorted[k])
      invariant 0 <= k <= |sorted| && forall i :: 0 <= i < k ==> !Less(ct, x, sorted[i])
    {
      k := k + 1;
    }
    out := sorted[..k] + ([x] + sorted[k..]);
    forall f ensures Count(out, f) == Count(sorted, f) + if f == x then 1 else 0 {
      CountConcat(sorted[..k], [x] + sorted[k..], f);
      CountConcat([x], sorted[k..], f);
      CountConcat(sorted[..k], sorted[k..], f);
      assert sorted == sorted[..k] + sorted[k..] && [x][..0] == [];
    }
    InsertSorts(ct, sorted, x, k);
  }

  lemma {:induction false} InsertSorts(ct: CroppingType, sorted: seq<Format>, x: Format, k: nat)
    requires Sorted(ct, sorted) && k <= |sorted| && (k < |sorted| ==> Less(ct, x, sorted[k]))
    requires forall i :: 0 <= i < k ==> !Less(ct, x, sorted[i])
    ensures Sorted(ct, sorted[..k] + ([x] + sorted[k..]))
  {
    var out := sorted[..k] + ([x] + sorted[k..]);
    forall j | k <= j < |sorted| ensures !Less(ct, sorted[j], x) {
      if j > k { assert !Less(ct, sorted[j], sorted[k]); }
    }
    forall i, j | 0 <= i < j < |out| ensures !Less(ct, out[j], out[i]) {
      assert i < k ==> out[i] == sorted[i];
      assert i > k ==> out[i] == sorted[i - 1];
      assert j < k ==> out[j] == sorted[j];
      assert j > k ==> out[j] == sorted[j - 1];
    }
  }

  lemma {:induction false} CountConcat(a: seq<Format>, b: seq<Format>, f: Format)
    ensures Count(a + b, f) == Count(a, f) + Count(b, f)
    decreases |b|
  {
    if b == [] {
      assert a + b == a;
    } else {
      CountConcat(a, b[..|b| - 1], f);
      assert (a + b)[..|a + b| - 1] == a + b[..|b| - 1];
    }
  }

  lemma {:induction false} CountMember(fmts: seq<Format>, f: Format)
    ensures f in fmts <==> Count(fmts, f) > 0
    decreases |fmts|
  {
    if fmts != [] {
      CountMember(fmts[..|fmts| - 1], f);
      assert fmts == fmts[..|fmts| - 1] + [fmts[|fmts| - 1]];
    }
  }

  lemma {:induction false} ArrangedSame(ct: CroppingType, sorted: seq<Format>, fmts: seq<Format>)
    requires Arranges(ct, sorted, fmts)
    ensures AllPositive(sorted) <==> AllPositive(fmts)
    ensures sorted == [] <==> fmts == []
  {
    forall f ensures f in sorted <==> f in fmts {
      CountMember(sorted, f);
      CountMember(fmts, f);
    }
    if sorted != [] { assert sorted[0] in fmts; }
    if fmts != [] { assert fmts[0] in sorted; }
  }

  method TrimSupportedFormats(ct: CroppingType, fmts: seq<Format>)
    returns (out: seq<Format>)
    ensures exists sorted :: Arranges(ct, sorted, fmts) && out == Trimmed(ct, sorted)
  {
    var sortedFmts := Sort(ct, fmts);
    out := [];
    if |sortedFmts| == 0 { return; }
    var maxSize := sortedFmts[|sortedFmts| - 1];
    for i := 0 to |sortedFmts|
      invariant out == Kept(ct, maxSize, sortedFmts[..i])
    {
      assert sortedFmts[..i + 1][..i] == sortedFmts[..i];
      var fmt := sortedFmts[i];
      if AspectRatioClose(SizeOf(fmt), SizeOf(maxSize)) {
        out := out + [fmt];
      } else if ct == HORIZONTAL && Narrower(fmt, maxSize) {
        out := out + [fmt];
      } else if ct == VERTICAL && Narrower(maxSize, fmt) {
        out := out + [fmt];
      }
    }
    assert sortedFmts[..|sortedFmts|] == sortedFmts;
  }

  function Kept(ct: CroppingType, max: Format, fmts: seq<Format>): seq<Format> {
    if fmts == [] then []
    else
      var last := fmts[|fmts| - 1];
      Kept(ct, max, fmts[..|fmts| - 1]) + if Keeps(ct, max, last) then [last] else []
  }

  function Trimmed(ct: CroppingType, sorted: seq<Format>): seq<Format> {
    if sorted == [] then [] else Kept(ct, sorted[|sorted| - 1], sorted)
  }

  lemma {:induction false} KeptMembers(ct: CroppingType, max: Format, fmts: seq<Format>, f: Format)
    ensures f in Kept(ct, max, fmts) <==> f in fmts && Keeps(ct, max, f)
    decreases |fmts|
  {
    if fmts != [] {
      KeptMembers(ct, max, fmts[..|fmts| - 1], f);
      assert fmts == fmts[..|fmts| - 1] + [fmts[|fmts| - 1]];
    }
  }

  function Count(fmts: seq<Format>, f: Format): nat {
    if fmts == [] then 0
    else Count(fmts[..|fmts| - 1], f) + if fmts[|fmts| - 1] == f then 1 else 0
  }

  lemma {:induction false} KeptCount(ct: CroppingType, max: Format, fmts: seq<Format>, f: Format)
    requires Keeps(ct, max, f)
    ensures Count(Kept(ct, max, fmts), f) == Count(fmts, f)
    decreases |fmts|
  {
    if fmts != [] {
      var rest, last := fmts[..|fmts| - 1], fmts[|fmts| - 1];
      KeptCount(ct, max, rest, f);
      var kept := Kept(ct, max, rest);
      assert (kept + [last])[..|kept|] == kept;
      assert kept + [] == kept;
    }
  }

  lemma {:induction false} KeptSorted(ct: CroppingType, max: Format, fmts: seq<Format>)
    requires Sorted(ct, fmts)
    ensures Sorted(ct, Kept(ct, max, fmts))
    decreases |fmts|
  {
    if fmts != [] {
      var rest, last := fmts[..|fmts| - 1], fmts[|fmts| - 1];
      KeptSorted(ct, max, rest);
      var kept := Kept(ct, max, rest);
      forall i | 0 <= i < |kept| ensures !Less(ct, last, kept[i]) {
        KeptMembers(ct, max, rest, kept[i]);
        var j :| 0 <= j < |rest| && rest[j] == kept[i];
        assert fmts[j] == rest[j];
      }
    }
  }

  /** Trimming leaves the formats of the largest one's ratio and those on the side of it that the
      cropping type can cut to, in order: by width and then height for VERTICAL, by height and
      then width for HORIZONTAL. The largest comes last; and none is left only if there was none. */
  lemma {:induction false} TrimIsRight(ct: CroppingType, sorted: seq<Format>, f: Format)
    requires Sorted(ct, sorted) && AllPositive(sorted)
    ensures var out := Trimmed(ct, sorted);
            && (out == [] <==> sorted == [])
            && (forall i, j :: 0 <= i < j < |out| ==> !Less(ct, out[j], out[i]))
            && (f in out ==> Count(out, f) == Count(sorted, f))
            && (out != [] ==>
                  var max := out[|out| - 1];
                  && max == sorted[|sorted| - 1]
                  && (f in sorted && ct == VERTICAL ==>
                        && f.width <= max.width
                        && (f.width == max.width ==> f.height <= max.height)
                        && (f in out <==> AspectRatioClose(SizeOf(f), SizeOf(max))
                                          || max.width * f.height < f.width * max.height))
                  && (f in sorted && ct == HORIZONTAL ==>
                        && f.height <= max.height
                        && (f.height == max.height ==> f.width <= max.width)
                        && (f in out <==> AspectRatioClose(SizeOf(f), SizeOf(max))
                                          || f.width * max.height < max.width * f.height)))
  {
    if sorted != [] {
      var max := sorted[|sorted| - 1];
      assert max in sorted;
      SelfClose(SizeOf(max));
      KeptSorted(ct, max, sorted);
      KeptMembers(ct, max, sorted, f);
      if Keeps(ct, max, f) { KeptCount(ct, max, sorted, f); }
      if f in sorted {
        var i :| 0 <= i < |sorted| && sorted[i] == f;
        assert !Less(ct, max, f);
      }
    }
  }

  lemma {:induction false} SelfClose(s: Size)
    requires Positive(s)
    ensures AspectRatioClose(s, s)
  {
    assert s.width * s.height - s.width * s.height == 0;
    assert 0 < s.height * s.height by { MulMono(1, s.height, s.height); }
  }

  /** Every kept size can be cropped from the largest one. */
  lemma {:induction false} KeptIsCroppable(ct: CroppingType, sorted: seq<Format>, f: Format)
    requires AllPositive(sorted) && f in Trimmed(ct, sorted)
    ensures Positive(SizeOf(f)) && Positive(SizeOf(sorted[|sorted| - 1]))
    ensures GetCropRect(ct, SizeOf(sorted[|sorted| - 1]), SizeOf(f)).Some?
  {
    var max := sorted[|sorted| - 1];
    assert max in sorted;
    KeptMembers(ct, max, sorted, f);
    CropSucceedsExactly(ct, SizeOf(max), SizeOf(f));
    CloseBothWays(SizeOf(f), SizeOf(max));
    if ct == VERTICAL {
      MulMono(max.height, max.height + 1, f.width);
      assert f.width * max.height == max.height * f.width;
      assert max.width * f.height == f.height * max.width;
    } else {
      MulMono(max.width, max.width + 1, f.height);
      assert f.width * max.height == max.height * f.width;
    }
  }

  /** And no croppable size is removed, unless it is so flat, or so narrow, that a single row or
      column is worth more than the tolerance of the ratio. */
  lemma {:induction false} RemovedIsNotCroppable(ct: CroppingType, sorted: seq<Format>, f: Format)
    requires AllPositive(sorted) && f in sorted
    requires var max := sorted[|sorted| - 1];
             if ct == VERTICAL then 40 * f.width <= f.height * max.height
             else 40 <= max.height
    ensures Positive(SizeOf(f)) && Positive(SizeOf(sorted[|sorted| - 1]))
    ensures f in Trimmed(ct, sorted)
       <==> GetCropRect(ct, SizeOf(sorted[|sorted| - 1]), SizeOf(f)).Some?
  {
    var max := sorted[|sorted| - 1];
    assert max in sorted;
    KeptMembers(ct, max, sorted, f);
    if f in Trimmed(ct, sorted) {
      KeptIsCroppable(ct, sorted, f);
    } else {
      CropSucceedsExactly(ct, SizeOf(max), SizeOf(f));
      CloseBothWays(SizeOf(f), SizeOf(max));
      NotClose(SizeOf(max), SizeOf(f));
      if ct == VERTICAL {
        Distribute(max.height, f.width);
      } else {
        Distribute(max.width, f.height);
        MulMono(40, max.height, f.height);
      }
    }
  }

  lemma {:induction false} NotClose(a: Size, b: Size)
    requires !AspectRatioClose(a, b)
    ensures var d := b.height * a.width - a.height * b.width;
            40 * d >= b.height * a.height || 40 * -d >= b.height * a.height
  {
  }

  lemma {:induction false} CloseBothWays(a: Size, b: Size)
    ensures AspectRatioClose(a, b) <==> AspectRatioClose(b, a)
  {
    assert a.height * b.height == b.height * a.height;
    assert a.width * b.height == b.height * a.width;
  }

  // ---------------------------------------------------------------- the cropping type

  /** Both sides at least as long. */
  predicate Covers(a: Format, b: Format) { a.width >= b.width && a.height >= b.height }

  function Last(fmts: seq<Format>): Format
    requires fmts != []
  {
    fmts[|fmts| - 1]
  }

  /** The choice between the two trimmed lists is a good one: it is not taken if the other's
      largest size is larger, nor, when neither is larger, if the other one offers more sizes. */
  ghost predicate GoodChoice(chosen: seq<Format>, other: seq<Format>) {
    && (other != [] ==> chosen != [])
    && (chosen != [] && other != [] ==>
          var c, o := Last(chosen), Last(other);
          && (Covers(o, c) ==> SizeOf(o) == SizeOf(c))
          && ((Covers(c, o) && SizeOf(c) != SizeOf(o)) || |chosen| >= |other|))
  }

  class CameraDevice {
    var mSupportedFormats: seq<Format>
    var mCroppingType: CroppingType

    /** What the session relies on: every format is croppable from the last one. */
    ghost predicate Valid()
      reads this
    {
      forall f :: f in mSupportedFormats ==>
        && Positive(SizeOf(f)) && Positive(SizeOf(Last(mSupportedFormats)))
        && GetCropRect(mCroppingType, SizeOf(Last(mSupportedFormats)), SizeOf(f)).Some?
    }

    constructor ()
      ensures Valid() && mSupportedFormats == [] && mCroppingType == HORIZONTAL
    {
      mSupportedFormats, mCroppingType := [], HORIZONTAL;
    }

    /** hori and vert are the candidates of either cropping type; h and v are they in order. */
    method InitSupportedFormats(hori: seq<Format>, vert: seq<Format>)
      returns (ghost h: seq<Format>, ghost v: seq<Format>)
      requires Valid() && AllPositive(hori) && AllPositive(vert)
      modifies this
      ensures Arranges(HORIZONTAL, h, hori) && Arranges(VERTICAL, v, vert)
      ensures Valid()
      ensures hori == [] && vert == [] ==>
                mSupportedFormats == old(mSupportedFormats) && mCroppingType == old(mCroppingType)
      ensures hori != [] || vert != [] ==>
                var hs, vs := Trimmed(HORIZONTAL, h), Trimmed(VERTICAL, v);
                && mSupportedFormats == (if mCroppingType == HORIZONTAL then hs else vs)
                && mSupportedFormats != []
                && GoodChoice(mSupportedFormats, if mCroppingType == HORIZONTAL then vs else hs)
    {
      var horizontalFmts := TrimSupportedFormats(HORIZONTAL, hori);
      var verticalFmts := TrimSupportedFormats(VERTICAL, vert);
      h :| Arranges(HORIZONTAL, h, hori) && horizontalFmts == Trimmed(HORIZONTAL, h);
      v :| Arranges(VERTICAL, v, vert) && verticalFmts == Trimmed(VERTICAL, v);
      ArrangedSame(HORIZONTAL, h, hori);
      ArrangedSame(VERTICAL, v, vert);
      NoneFromNone(HORIZONTAL, h);
      NoneFromNone(VERTICAL, v);
      if horizontalFmts == [] && verticalFmts == [] { return; }
      var horizontal;
      if horizontalFmts == [] {
        horizontal := false;
      } else if verticalFmts == [] {
        horizontal := true;
      } else {
        var maxHori, maxVert := Last(horizontalFmts), Last(verticalFmts);
        if maxHori.width == maxVert.width && maxHori.height == maxVert.height {
          horizontal := |horizontalFmts| > |verticalFmts|;
        } else if maxHori.width >= maxVert.width && maxHori.height >= maxVert.height {
          horizontal := true;
        } else if maxHori.width <= maxVert.width && maxHori.height <= maxVert.height {
          horizontal := false;
        } else {
          horizontal := |horizontalFmts| > |verticalFmts|;
        }
      }
      if horizontal {
        mSupportedFormats, mCroppingType := horizontalFmts, HORIZONTAL;
        AllCroppable(HORIZONTAL, h);
      } else {
        mSupportedFormats, mCroppingType := verticalFmts, VERTICAL;
        AllCroppable(VERTICAL, v);
      }
    }

    /** The size check of isSupported: what it accepts can be cropped from the largest. */
    method IsSupported(size: Size) returns (ok: bool)
      requires Valid()
      ensures ok <==> exists f :: f in mSupportedFormats && SizeOf(f) == size
      ensures ok ==> Positive(size) && Positive(SizeOf(Last(mSupportedFormats)))
                     && GetCropRect(mCroppingType, SizeOf(Last(mSupportedFormats)), size).Some?
    {
      for i := 0 to |mSupportedFormats|
        invariant forall k :: 0 <= k < i ==> SizeOf(mSupportedFormats[k]) != size
      {
        if size.width == mSupportedFormats[i].width && size.height == mSupportedFormats[i].height {
          assert mSupportedFormats[i] in mSupportedFormats;
          return true;
        }
      }
      ok := false;
    }
  }

  lemma {:induction false} NoneFromNone(ct: CroppingType, sorted: seq<Format>)
    requires Sorted(ct, sorted) && AllPositive(sorted)
    ensures Trimmed(ct, sorted) == [] <==> sorted == []
  {
    if sorted != [] { TrimIsRight(ct, sorted, Last(sorted)); }
  }

  lemma {:induction false} AllCroppable(ct: CroppingType, sorted: seq<Format>)
    requires Sorted(ct, sorted) && AllPositive(sorted)
    ensures var out := Trimmed(ct, sorted);
            forall f :: f in out ==>
              && Positive(SizeOf(f)) && Positive(SizeOf(Last(out)))
              && GetCropRect(ct, SizeOf(Last(out)), SizeOf(f)).Some?
  {
    forall f | f in Trimmed(ct, sorted)
      ensures Positive(SizeOf(f)) && Positive(SizeOf(Last(Trimmed(ct, sorted))))
      ensures GetCropRect(ct, SizeOf(Last(Trimmed(ct, sorted))), SizeOf(f)).Some?
    {
      TrimIsRight(ct, sorted, f);
      KeptIsCroppable(ct, sorted, f);
    }
  }
}
