/** Box upsampling followed by colour conversion, and the merged routines that do both at once. */
module Upsampling {
  import opened Bits
  import opened NearestColor
  import opened RangeLimit
  import opened ColorConvert

  /** One row group with horizontal ratio 2: V rows of luminance, one of each chrominance. */
  datatype RowGroup = RowGroup(y: seq<seq<Sample>>, cb: seq<Sample>, cr: seq<Sample>)

  ghost predicate GroupOk(g: RowGroup, v: nat, width: nat) {
    && |g.y| == v && (forall r :: 0 <= r < v ==> |g.y[r]| >= width)
    && 2 * |g.cb| >= width && 2 * |g.cr| >= width
  }

  /** The pixel of row r and column col after replicating each chrominance sample. */
  ghost function BoxPixel(g: RowGroup, v: nat, width: nat, r: nat, col: nat): Pixel
    requires GroupOk(g, v, width) && r < v && col < width
  {
    Convert(g.y[r][col], g.cb[col / 2], g.cr[col / 2])
  }

  /** An output row that holds the box-upsampled pixels. */
  ghost predicate BoxRow(out: array<Sample>, g: RowGroup, v: nat, width: nat, r: nat)
    requires GroupOk(g, v, width) && r < v
    reads out
  {
    forall col :: 0 <= col < width ==> HoldsPixel(out, col, BoxPixel(g, v, width, r, col))
  }

  // ---------------------------------------------------------------- upsample, then convert

  /** One row of h2v1_upsample: samples are written in pairs until the width is covered. */
  method DoubleRow(input: seq<Sample>, out: array<Sample>, width: nat)
    requires 2 * |input| >= width && out.Length >= width + 1
    modifies out
    ensures forall col :: 0 <= col < width ==> out[col] == input[col / 2]
  {
    var i, o := 0, 0;
    while o < width
      invariant o == 2 * i && o <= width + 1
      invariant forall k :: 0 <= k < o ==> out[k] == input[k / 2]
    {
      var invalue := input[i];
      i := i + 1;
      out[o] := invalue;
      out[o + 1] := invalue;
      o := o + 2;
    }
  }

  /** h2v2_upsample for one row group: the doubled row, and a copy of it. */
  method DoubleBoth(input: seq<Sample>, out0: array<Sample>, out1: array<Sample>, width: nat)
    requires 2 * |input| >= width && out0.Length >= width + 1 && out1.Length >= width + 1 && out0 != out1
    modifies out0, out1
    ensures forall col :: 0 <= col < width ==> out0[col] == out1[col] == input[col / 2]
  {
    DoubleRow(input, out0, width);
    for k := 0 to width
      invariant forall j :: 0 <= j < width ==> out0[j] == input[j / 2]
      invariant forall j :: 0 <= j < k ==> out1[j] == out0[j]
    {
      out1[k] := out0[k];
    }
  }

  /** One output row of the separate path: chrominance doubled, then ycc_rgb_convert. */
  method SeparateRow(t: Tables, g: RowGroup, ghost v: nat, r: nat, out: array<Sample>, width: nat)
    requires t.Valid() && GroupOk(g, v, width) && r < v && out.Length >= 3 * width
    modifies out
    ensures t.Valid() && BoxRow(out, g, v, width, r)
  {
    var cb, cr := new Sample[width + 1], new Sample[width + 1];
    DoubleRow(g.cb, cb, width);
    DoubleRow(g.cr, cr, width);
    hide Convert;
    YccRgbConvert(t, g.y[r], cb[..], cr[..], out, width);
  }

  // ---------------------------------------------------------------- merged

  /** h2v1_merged_upsample: pairs of pixels share the chroma part; an odd last column is done alone. */
  method H2v1Merged(t: Tables, g: RowGroup, out: array<Sample>, width: nat)
    requires t.Valid() && GroupOk(g, 1, width) && out.Length >= 3 * width
    modifies out
    ensures t.Valid() && BoxRow(out, g, 1, width, 0)
  {
    hide Convert, CrToR, CbToB, Green;
    var cred, cgreen, cblue;
    var p := 0;
    while p < width / 2
      invariant 0 <= p <= width / 2 && t.Valid()
      invariant forall col :: 0 <= col < 2 * p ==> HoldsPixel(out, col, BoxPixel(g, 1, width, 0, col))
    {
      cred, cgreen, cblue := t.Chroma(g.cb[p], g.cr[p]);
      EmitPair(g, 1, 0, out, p, width, cred, cgreen, cblue);
      p := p + 1;
    }
    if width % 2 == 1 {
      cred, cgreen, cblue := t.Chroma(g.cb[p], g.cr[p]);
      EmitPixel(out, 2 * p, g.y[0][2 * p], g.cb[p], g.cr[p], cred, cgreen, cblue);
    }
  }

  /** Two pixels of a row that share the chroma part. */
  method EmitPair(g: RowGroup, ghost v: nat, r: nat, out: array<Sample>, p: nat, ghost width: nat, cred: int,
      cgreen: int, cblue: int)
    requires GroupOk(g, v, width) && r < v && 2 * p + 1 < width && out.Length >= 3 * width
    requires cred == CrToR(g.cr[p]) && cgreen == Green(g.cb[p], g.cr[p]) && cblue == CbToB(g.cb[p])
    modifies out
    ensures HoldsPixel(out, 2 * p, BoxPixel(g, v, width, r, 2 * p))
        && HoldsPixel(out, 2 * p + 1, BoxPixel(g, v, width, r, 2 * p + 1))
    ensures forall k :: 0 <= k < 6 * p ==> out[k] == old(out[k])
  {
    hide Convert, CrToR, CbToB, Green;
    EmitPixel(out, 2 * p, g.y[r][2 * p], g.cb[p], g.cr[p], cred, cgreen, cblue);
    EmitPixel(out, 2 * p + 1, g.y[r][2 * p + 1], g.cb[p], g.cr[p], cred, cgreen, cblue);
  }

  /** h2v2_merged_upsample: four pixels share the chroma part. */
  method H2v2Merged(t: Tables, g: RowGroup, out0: array<Sample>, out1: array<Sample>, width: nat)
    requires t.Valid() && GroupOk(g, 2, width) && out0.Length >= 3 * width && out1.Length >= 3 * width && out0 != out1
    modifies out0, out1
    ensures t.Valid() && BoxRow(out0, g, 2, width, 0) && BoxRow(out1, g, 2, width, 1)
  {
    hide Convert, CrToR, CbToB, Green;
    var cred, cgreen, cblue;
    var p := 0;
    while p < width / 2
      invariant 0 <= p <= width / 2 && t.Valid()
      invariant forall col :: 0 <= col < 2 * p ==> HoldsPixel(out0, col, BoxPixel(g, 2, width, 0, col))
      invariant forall col :: 0 <= col < 2 * p ==> HoldsPixel(out1, col, BoxPixel(g, 2, width, 1, col))
    {
      cred, cgreen, cblue := t.Chroma(g.cb[p], g.cr[p]);
      EmitPair(g, 2, 0, out0, p, width, cred, cgreen, cblue);
      EmitPair(g, 2, 1, out1, p, width, cred, cgreen, cblue);
      p := p + 1;
    }
    if width % 2 == 1 {
      cred, cgreen, cblue := t.Chroma(g.cb[p], g.cr[p]);
      EmitPixel(out0, 2 * p, g.y[0][2 * p], g.cb[p], g.cr[p], cred, cgreen, cblue);
      EmitPixel(out1, 2 * p, g.y[1][2 * p], g.cb[p], g.cr[p], cred, cgreen, cblue);
    }
  }

  /** Two rows that hold the pixels of the same box row agree sample by sample: the merged routines
      put out exactly what upsampling and converting put out. */
  lemma SameRow(a: array<Sample>, b: array<Sample>, g: RowGroup, v: nat, width: nat, r: nat)
    requires GroupOk(g, v, width) && r < v && a.Length >= 3 * width && b.Length >= 3 * width
    requires BoxRow(a, g, v, width, r) && BoxRow(b, g, v, width, r)
    ensures a[..3 * width] == b[..3 * width]
  {
    hide Convert;
    forall k | 0 <= k < 3 * width ensures a[k] == b[k] {
      assert HoldsPixel(a, k / 3, BoxPixel(g, v, width, r, k / 3))
          && HoldsPixel(b, k / 3, BoxPixel(g, v, width, r, k / 3));
      assert k == 3 * (k / 3) + k % 3;
    }
  }

  // ---------------------------------------------------------------- when it is used

  datatype Factors = Factors(h: int, v: int, scaledSize: int)

  datatype Settings = Settings(fancy: bool, ccir601: bool, fromYCbCr: bool, toRgb: bool, outComponents: int,
      minScaledSize: int)

  /** use_merged_upsample. */
  predicate UseMerged(s: Settings, comps: seq<Factors>) {
    if s.fancy || s.ccir601 then false
    else if !s.fromYCbCr || |comps| != 3 || !s.toRgb || s.outComponents != 3 then false
    else if comps[0].h != 2 || comps[1].h != 1 || comps[2].h != 1 then false
    else if comps[0].v > 2 || comps[1].v != 1 || comps[2].v != 1 then false
    else
      && comps[0].scaledSize == s.minScaledSize
      && comps[1].scaledSize == s.minScaledSize
      && comps[2].scaledSize == s.minScaledSize
  }

  /** How jinit_upsampler treats a component: left alone, or doubled with a box filter. */
  datatype Method = FullSize | H2v1 | H2v2 | Other

  function MethodFor(f: Factors, maxH: int, maxV: int, minScaledSize: int, fancy: bool): Method
    requires minScaledSize > 0
  {
    var hIn, vIn := f.h * f.scaledSize / minScaledSize, f.v * f.scaledSize / minScaledSize;
    if hIn == maxH && vIn == maxV then FullSize
    else if hIn * 2 == maxH && vIn == maxV && !fancy then H2v1
    else if hIn * 2 == maxH && vIn * 2 == maxV && !fancy then H2v2
    else Other
  }

  /** Whenever merging is chosen, the separate path would double the chrominance horizontally,
      and vertically exactly when luminance has two rows to the group. */
  lemma MergedMatchesSeparate(s: Settings, comps: seq<Factors>)
    requires UseMerged(s, comps) && s.minScaledSize > 0 && 1 <= comps[0].v
    ensures MethodFor(comps[0], 2, comps[0].v, s.minScaledSize, s.fancy) == FullSize
    ensures forall k :: 1 <= k < 3 ==>
        MethodFor(comps[k], 2, comps[0].v, s.minScaledSize, s.fancy) == (if comps[0].v == 1 then H2v1 else H2v2)
  {
    forall f: Factors | f.scaledSize == s.minScaledSize
      ensures f.h * f.scaledSize / s.minScaledSize == f.h && f.v * f.scaledSize / s.minScaledSize == f.v
    {
      QuotientIs(f.h * f.scaledSize, s.minScaledSize, f.h, 0);
      QuotientIs(f.v * f.scaledSize, s.minScaledSize, f.v, 0);
    }
  }
}
