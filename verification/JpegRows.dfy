/** The rows that encodeJpegYU12 hands to the compressor: padded to whole macroblocks by
    repeating the last row. A row is the offset of its first sample in its plane. */
module JpegRows {

  const DCTSIZE := 8
  const maxVSampFactor := 2
  const cVSubSampling := 2

  function PaddedHeight(height: nat): nat {
    var mcuV := DCTSIZE * maxVSampFactor;
    mcuV * ((height + mcuV - 1) / mcuV)
  }

  /** The padded height is the least multiple of 16 that the height fits into. */
  lemma {:induction false} PaddedIsLeast(height: nat, k: nat)
    ensures PaddedHeight(height) % 16 == 0 && PaddedHeight(height) >= height
    ensures 16 * k >= height ==> 16 * k >= PaddedHeight(height)
  {
  }

  function Min(a: int, b: int): int { if b < a then b else a }

  /** Luma row i, the last row standing in for those below it. */
  function LumaRow(height: nat, stride: nat, i: nat): int { Min(i, height - 1) * stride }

  function ChromaRow(height: nat, stride: nat, i: nat): int
    requires height > 0
  {
    Min(i, (height - 1) / cVSubSampling) * stride
  }

  method BuildRows(height: nat, yStride: nat, cStride: nat)
    returns (yLines: array<int>, cbLines: array<int>, crLines: array<int>)
    ensures yLines.Length == PaddedHeight(height)
    ensures cbLines.Length == crLines.Length == PaddedHeight(height) / 2
    ensures forall i :: 0 <= i < yLines.Length ==> yLines[i] == LumaRow(height, yStride, i)
    ensures forall i :: 0 <= i < cbLines.Length ==>
              height > 0 && cbLines[i] == crLines[i] == ChromaRow(height, cStride, i)
  {
    var paddedHeight := PaddedHeight(height);
    yLines := new int[paddedHeight];
    cbLines := new int[paddedHeight / cVSubSampling];
    crLines := new int[paddedHeight / cVSubSampling];
    for i := 0 to paddedHeight
      invariant i > 0 ==> height > 0
      invariant forall k :: 0 <= k < i ==> yLines[k] == LumaRow(height, yStride, k)
      invariant forall k :: 0 <= k < i && k < cbLines.Length ==>
                  cbLines[k] == crLines[k] == ChromaRow(height, cStride, k)
    {
      var li := Min(i, height - 1);
      yLines[i] := li * yStride;
      if i < paddedHeight / cVSubSampling {
        li := Min(i, (height - 1) / cVSubSampling);
        crLines[i] := li * cStride;
        cbLines[i] := li * cStride;
      }
    }
  }

  /** Every luma row is a whole row of the picture, those below it the last one; and every chroma
      row is one of the height / 2 rows of its plane exactly when the height is even. */
  lemma {:induction false} RowsInPicture(height: nat, yStride: nat, cStride: nat, i: nat)
    requires height > 0
    ensures 0 <= LumaRow(height, yStride, i) <= (height - 1) * yStride
    ensures i < height ==> LumaRow(height, yStride, i) == i * yStride
    ensures i >= height ==> LumaRow(height, yStride, i) == (height - 1) * yStride
    ensures height % 2 == 0 ==>
              0 <= ChromaRow(height, cStride, i) <= (height / 2 - 1) * cStride
    ensures height % 2 == 0 && i >= height / 2 ==>
              ChromaRow(height, cStride, i) == (height / 2 - 1) * cStride
    ensures i < height / 2 ==> ChromaRow(height, cStride, i) == i * cStride
    ensures height % 2 == 1 && i >= height / 2 ==>
              ChromaRow(height, cStride, i) == (height / 2) * cStride
  {
    var li := Min(i, height - 1);
    assert li * yStride <= (height - 1) * yStride by { MulMono(li, height - 1, yStride); }
    var ci := Min(i, (height - 1) / 2);
    assert ci * cStride <= ((height - 1) / 2) * cStride by { MulMono(ci, (height - 1) / 2, cStride); }
  }

  lemma {:induction false} MulMono(a: int, b: int, d: nat)
    requires a <= b
    ensures a * d <= b * d
  {
  }

  /** Some row of a picture of odd height is asked for below its chroma planes, and only then. */
  lemma {:induction false} ChromaInPlaneExactly(height: nat, cStride: nat)
    requires height > 0 && cStride > 0
    ensures (forall i: nat :: i < PaddedHeight(height) / 2 ==>
              ChromaRow(height, cStride, i) < (height / 2) * cStride)
       <==> height % 2 == 0
  {
    if height % 2 == 0 {
      forall i: nat ensures ChromaRow(height, cStride, i) < (height / 2) * cStride {
        RowsInPicture(height, cStride, cStride, i);
        assert (height / 2 - 1) * cStride == (height / 2) * cStride - cStride;
      }
    } else {
      PaddedIsLeast(height, 0);
      RowsInPicture(height, cStride, cStride, height / 2);
      assert height / 2 < PaddedHeight(height) / 2;
    }
  }

  /** The rows are written one batch at a time. done tells how many rows the compressor takes of
      the batch that starts at a row. When all batches are taken it has got every padded row, in
      order, and nothing else; the loop ends in any case. */
  method WriteRows(height: nat, yLines: seq<int>, cbLines: seq<int>, crLines: seq<int>,
                   done: nat -> nat)
    returns (ok: bool, y: seq<int>, cb: seq<int>, cr: seq<int>)
    requires |yLines| == PaddedHeight(height)
    requires |cbLines| == |crLines| == PaddedHeight(height) / 2
    ensures ok ==> y == yLines && cb == cbLines && cr == crLines
    ensures ok <==> forall nl: nat :: nl % 16 == 0 && nl < height ==> done(nl) == 16
  {
    y, cb, cr := [], [], [];
    var nextScanline := 0;
    while nextScanline < height
      invariant nextScanline % 16 == 0 && nextScanline <= PaddedHeight(height)
      invariant forall nl: nat :: nl % 16 == 0 && nl < nextScanline ==> done(nl) == 16
      invariant y == yLines[..nextScanline]
      invariant cb == cbLines[..nextScanline / 2] && cr == crLines[..nextScanline / 2]
      decreases height - nextScanline
    {
      var batchSize := DCTSIZE * maxVSampFactor;
      var nl := nextScanline;
      if done(nl) != batchSize { return false, y, cb, cr; }
      PaddedIsLeast(height, nl / 16 + 1);
      assert nl + 16 <= PaddedHeight(height);
      y := y + yLines[nl..nl + batchSize];
      cb := cb + cbLines[nl / cVSubSampling..nl / cVSubSampling + DCTSIZE];
      cr := cr + crLines[nl / cVSubSampling..nl / cVSubSampling + DCTSIZE];
      nextScanline := nextScanline + batchSize;
    }
    PaddedIsLeast(height, nextScanline / 16);
    assert nextScanline == PaddedHeight(height);
    ok := true;
  }
}
