/** YCbCr to RGB conversion with scaled integer tables. */
module ColorConvert {
  import opened NearestColor
  import opened RangeLimit

  const ONE_HALF := 32768
  const SCALE := 65536
  // the coefficients 1.40200, 1.77200, 0.71414 and 0.34414, scaled by 2^16 and rounded
  const CR_R := 91881
  const CB_B := 116130
  const CR_G := 46802
  const CB_G := 22554

  function CrToR(i: Sample): int { (CR_R * (i - CENTERJSAMPLE) + ONE_HALF) / SCALE }

  function CbToB(i: Sample): int { (CB_B * (i - CENTERJSAMPLE) + ONE_HALF) / SCALE }

  function CrToG(i: Sample): int { -CR_G * (i - CENTERJSAMPLE) }

  function CbToG(i: Sample): int { -CB_G * (i - CENTERJSAMPLE) + ONE_HALF }

  /** The green offset is rounded once, after the two contributions have been added. */
  function Green(cb: Sample, cr: Sample): int { (CbToG(cb) + CrToG(cr)) / SCALE }

  datatype Pixel = Pixel(r: Sample, g: Sample, b: Sample)

  function Convert(y: Sample, cb: Sample, cr: Sample): Pixel {
    Pixel(Clamp(y + CrToR(cr)), Clamp(y + Green(cb, cr)), Clamp(y + CbToB(cb)))
  }

  /** All sums stay where the range-limiting table clamps. */
  lemma SumsInTable(y: Sample, cb: Sample, cr: Sample)
    ensures -SIMPLE_BASE <= y + CrToR(cr) < 640 && -SIMPLE_BASE <= y + Green(cb, cr) < 640
        && -SIMPLE_BASE <= y + CbToB(cb) < 640
  {
  }

  // ---------------------------------------------------------------- the conversion meant

  function Distance(x: int, y: int): nat {
    if x < y then y - x else x - y
  }

  /** The offsets of red and blue are the integers nearest to 1.402 (cr - 128) and 1.772 (cb - 128); that of
      green is within 0.5011 of -0.34414 (cb - 128) - 0.71414 (cr - 128), where 0.5 is a full rounding. */
  lemma OffsetsAreNearest(cb: Sample, cr: Sample)
    ensures Distance(1000 * CrToR(cr), 1402 * (cr - 128)) <= 500
    ensures Distance(1000 * CbToB(cb), 1772 * (cb - 128)) <= 500
    ensures Distance(100000 * Green(cb, cr), -34414 * (cb - 128) - 71414 * (cr - 128)) <= 50110
  {
    RedOffset(cr);
    BlueOffset(cb);
  }

  lemma RedOffset(cr: Sample)
    ensures Distance(1000 * CrToR(cr), 1402 * (cr - 128)) <= 500
  {
    var q := 701 * (cr - 128) - 500 * CrToR(cr);
    assert -251 < q < 251;
  }

  lemma BlueOffset(cb: Sample)
    ensures Distance(1000 * CbToB(cb), 1772 * (cb - 128)) <= 500
  {
    var q := 443 * (cb - 128) - 250 * CbToB(cb);
    assert -126 < q < 126;
  }

  lemma ClampedIsNearest(v: int, target: int, s: Sample)
    requires Distance(1000 * v, target) <= 500
    ensures Distance(1000 * Clamp(v), target) <= Distance(1000 * s, target)
  {
    if s < Clamp(v) {
      assert Clamp(v) <= v;
    } else if s > Clamp(v) {
      assert Clamp(v) >= v;
    }
  }

  lemma ClampedIsNear(v: int, target: int, s: Sample)
    requires Distance(100000 * v, target) <= 50110
    ensures Distance(100000 * Clamp(v), target) <= Distance(100000 * s, target) + 220
  {
    if s < Clamp(v) {
      assert Clamp(v) <= v;
    } else if s > Clamp(v) {
      assert Clamp(v) >= v;
    }
  }

  /** No sample is nearer than the one chosen to the value that the standard conversion gives; for green
      none is nearer by more than 0.0022. */
  lemma PixelIsNearest(y: Sample, cb: Sample, cr: Sample, s: Sample)
    ensures var p := Convert(y, cb, cr);
      && Distance(1000 * p.r, 1000 * y + 1402 * (cr - 128)) <= Distance(1000 * s, 1000 * y + 1402 * (cr - 128))
      && Distance(1000 * p.b, 1000 * y + 1772 * (cb - 128)) <= Distance(1000 * s, 1000 * y + 1772 * (cb - 128))
      && var green := 100000 * y - 34414 * (cb - 128) - 71414 * (cr - 128);
      Distance(100000 * p.g, green) <= Distance(100000 * s, green) + 220
  {
    OffsetsAreNearest(cb, cr);
    hide CrToR, CbToB, Green, Clamp;
    ClampedIsNearest(y + CrToR(cr), 1000 * y + 1402 * (cr - 128), s);
    ClampedIsNearest(y + CbToB(cb), 1000 * y + 1772 * (cb - 128), s);
    ClampedIsNear(y + Green(cb, cr), 100000 * y - 34414 * (cb - 128) - 71414 * (cr - 128), s);
  }

  /** Without chrominance the pixel is grey. */
  lemma GreyStaysGrey(y: Sample)
    ensures Convert(y, CENTERJSAMPLE, CENTERJSAMPLE) == Pixel(y, y, y)
  {
  }

  class Tables {
    const crR: array<int>
    const cbB: array<int>
    const crG: array<int>
    const cbG: array<int>

    ghost predicate Valid()
      reads this, crR, cbB, crG, cbG
    {
      && crR.Length == cbB.Length == crG.Length == cbG.Length == 256
      && forall i :: 0 <= i < 256 ==>
          crR[i] == CrToR(i) && cbB[i] == CbToB(i) && crG[i] == CrToG(i) && cbG[i] == CbToG(i)
    }

    /** build_ycc_rgb_table. */
    constructor ()
      ensures Valid() && fresh(crR) && fresh(cbB) && fresh(crG) && fresh(cbG)
    {
      var a, b, c, d := new int[256], new int[256], new int[256], new int[256];
      var x := -CENTERJSAMPLE;
      for i := 0 to 256
        invariant x == i - CENTERJSAMPLE
        invariant forall k :: 0 <= k < i ==>
            a[k] == CrToR(k) && b[k] == CbToB(k) && c[k] == CrToG(k) && d[k] == CbToG(k)
      {
        a[i] := (CR_R * x + ONE_HALF) / SCALE;
        b[i] := (CB_B * x + ONE_HALF) / SCALE;
        c[i] := -CR_G * x;
        d[i] := -CB_G * x + ONE_HALF;
        x := x + 1;
      }
      crR, cbB, crG, cbG := a, b, c, d;
    }

    /** Chroma part of the calculation for one pair of samples. */
    method Chroma(cb: Sample, cr: Sample) returns (cred: int, cgreen: int, cblue: int)
      requires Valid()
      ensures cred == CrToR(cr) && cgreen == Green(cb, cr) && cblue == CbToB(cb)
    {
      cred := crR[cr];
      cgreen := (cbG[cb] + crG[cr]) / SCALE;
      cblue := cbB[cb];
    }
  }

  /** Interleaved output: pixel col of a row. */
  ghost predicate HoldsPixel(out: array<Sample>, col: int, p: Pixel)
    reads out
  {
    0 <= 3 * col && 3 * col + 2 < out.Length && out[3 * col] == p.r && out[3 * col + 1] == p.g
        && out[3 * col + 2] == p.b
  }

  /** Emits one pixel through the range-limiting table. */
  method EmitPixel(out: array<Sample>, col: nat, y: Sample, ghost cb: Sample, ghost cr: Sample, cred: int, cgreen: int,
      cblue: int)
    requires 3 * col + 2 < out.Length && cred == CrToR(cr) && cgreen == Green(cb, cr) && cblue == CbToB(cb)
    modifies out
    ensures HoldsPixel(out, col, Convert(y, cb, cr))
    ensures forall k :: 0 <= k < out.Length && !(3 * col <= k <= 3 * col + 2) ==> out[k] == old(out[k])
  {
    SumsInTable(y, cb, cr);
    SimpleClamps(y + cred);
    SimpleClamps(y + cgreen);
    SimpleClamps(y + cblue);
    hide Clamp, Simple, CrToR, CbToB, Green;
    out[3 * col] := Simple(y + cred);
    out[3 * col + 1] := Simple(y + cgreen);
    out[3 * col + 2] := Simple(y + cblue);
  }

  /** The converted row. */
  ghost predicate Converted(out: array<Sample>, width: nat, y: seq<Sample>, cb: seq<Sample>, cr: seq<Sample>)
    requires |y| >= width && |cb| >= width && |cr| >= width
    reads out
  {
    forall col :: 0 <= col < width ==> HoldsPixel(out, col, Convert(y[col], cb[col], cr[col]))
  }

  /** ycc_rgb_convert for one row of full-size planes. */
  method YccRgbConvert(t: Tables, y: seq<Sample>, cb: seq<Sample>, cr: seq<Sample>, out: array<Sample>, width: nat)
    requires t.Valid() && |y| >= width && |cb| >= width && |cr| >= width && out.Length >= 3 * width
    modifies out
    ensures t.Valid() && Converted(out, width, y, cb, cr)
  {
    hide Convert, CrToR, CbToB, Green;
    for col := 0 to width
      invariant t.Valid() && forall k :: 0 <= k < col ==> HoldsPixel(out, k, Convert(y[k], cb[k], cr[k]))
    {
      var cred, cgreen, cblue := t.Chroma(cb[col], cr[col]);
      EmitPixel(out, col, y[col], cb[col], cr[col], cred, cgreen, cblue);
    }
  }
}
