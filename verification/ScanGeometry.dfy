/** Block and MCU geometry of a frame and a scan (sections A.1.1 and A.2 of ITU-T T.81). */
module ScanGeometry {
  import opened Wrappers
  import opened Bits
  import opened Rounding

  const DCTSIZE := 8
  const MAX_SAMP_FACTOR := 4
  const MAX_DIMENSION := 65500
  const MAX_COMPONENTS := 10
  const MAX_COMPS_IN_SCAN := 4
  const MAX_BLOCKS_IN_MCU := 10

  datatype Sampling = Sampling(h: int, v: int, needed: bool)

  /** A component in a scan. */
  datatype Component = Component(v: int, needed: bool, widthInBlocks: int, heightInBlocks: int,
      mcuWidth: int, mcuHeight: int, lastColWidth: int, lastRowHeight: int)

  datatype Scan = Scan(comps: seq<Component>, mcusPerRow: int, totalIMcuRows: int, interleaved: bool)

  /** What the walk over the MCUs needs to know: the last column and row of MCUs hold exactly the
      blocks that are left, and an MCU is an iMCU row high or, alone in its scan, one block. */
  ghost predicate CompOk(c: Component, m: int, n: int, interleaved: bool) {
    && 1 <= c.v && 1 <= c.mcuWidth && m >= 1 && n >= 1
    && c.mcuHeight == (if interleaved then c.v else 1)
    && (m - 1) * c.mcuWidth < c.widthInBlocks <= m * c.mcuWidth
    && (n - 1) * c.v < c.heightInBlocks <= n * c.v
    && c.lastColWidth == c.widthInBlocks - (m - 1) * c.mcuWidth
    && c.lastRowHeight == c.heightInBlocks - (n - 1) * c.v
  }

  ghost predicate ScanOk(s: Scan) {
    && (s.interleaved <==> |s.comps| > 1) && |s.comps| >= 1 && s.mcusPerRow >= 1 && s.totalIMcuRows >= 1
    && forall k :: 0 <= k < |s.comps| ==> CompOk(s.comps[k], s.mcusPerRow, s.totalIMcuRows, s.interleaved)
  }

  /** Blocks of a component across, or down: samples scaled by the sampling factor, rounded up. */
  function Blocks(size: nat, f: nat, maxF: nat): nat
    requires f >= 1 && maxF >= 1
  {
    DivRoundUp(size * f, maxF * DCTSIZE)
  }

  /** What is left for the last of m groups of f. */
  function Left(blocks: nat, f: nat): nat
    requires f >= 1
  {
    if blocks % f == 0 then f else blocks % f
  }

  /** The nested roundings agree: grouping blocks by f gives the groups of the whole image, and the
      remainder computed with % is what the last group holds. */
  lemma BlocksGroup(size: nat, f: nat, maxF: nat)
    requires size >= 1 && f >= 1 && maxF >= 1
    ensures var n := DivRoundUp(size, maxF * DCTSIZE); var b := Blocks(size, f, maxF);
      n >= 1 && (n - 1) * f < b <= n * f && Left(b, f) == b - (n - 1) * f
  {
    GroupsAgree(size, f, maxF * DCTSIZE);
    var n := DivRoundUp(size, maxF * DCTSIZE);
    LeftIs(Blocks(size, f, maxF), f, n);
  }

  lemma LeftIs(b: nat, f: nat, n: nat)
    requires f >= 1 && n >= 1 && (n - 1) * f < b <= n * f
    ensures Left(b, f) == b - (n - 1) * f
  {
    var r := b - (n - 1) * f;
    assert n * f == (n - 1) * f + f;
    if r == f { QuotientIs(b, f, n, 0); } else { QuotientIs(b, f, n - 1, r); }
  }

  predicate FactorsOk(ss: seq<Sampling>) {
    forall k :: 0 <= k < |ss| ==> 1 <= ss[k].h <= MAX_SAMP_FACTOR && 1 <= ss[k].v <= MAX_SAMP_FACTOR
  }

  /** The largest factors of a frame, 1 at least. */
  function MaxH(ss: seq<Sampling>): int {
    if ss == [] then 1 else Max(MaxH(ss[..|ss| - 1]), ss[|ss| - 1].h)
  }

  function MaxV(ss: seq<Sampling>): int {
    if ss == [] then 1 else Max(MaxV(ss[..|ss| - 1]), ss[|ss| - 1].v)
  }

  function Max(a: int, b: int): int {
    if a > b then a else b
  }

  /** They are attained and bound every component's. */
  lemma {:induction false} MaxIsMax(ss: seq<Sampling>)
    requires FactorsOk(ss)
    ensures MaxH(ss) >= 1 && MaxV(ss) >= 1 && forall k :: 0 <= k < |ss| ==> ss[k].h <= MaxH(ss) && ss[k].v <= MaxV(ss)
    ensures ss != [] ==>
        (exists k :: 0 <= k < |ss| && ss[k].h == MaxH(ss)) && (exists k :: 0 <= k < |ss| && ss[k].v == MaxV(ss))
  {
    if ss != [] {
      var most := ss[..|ss| - 1];
      MaxIsMax(most);
      assert forall k :: 0 <= k < |most| ==> most[k] == ss[k];
      assert ss[|ss| - 1].h >= 1 && ss[|ss| - 1].v >= 1;
      if most == [] {
        assert ss[0].h == MaxH(ss) && ss[0].v == MaxV(ss);
      } else {
        var i :| 0 <= i < |most| && most[i].h == MaxH(most);
        var j :| 0 <= j < |most| && most[j].v == MaxV(most);
        assert ss[if MaxH(most) > ss[|ss| - 1].h then i else |ss| - 1].h == MaxH(ss);
        assert ss[if MaxV(most) > ss[|ss| - 1].v then j else |ss| - 1].v == MaxV(ss);
      }
    }
  }

  /** initial_setup, first loop: the maximum sampling factors; false is an error exit. */
  method MaxFactors(ss: seq<Sampling>) returns (ok: bool, maxH: int, maxV: int)
    ensures ok <==> FactorsOk(ss)
    ensures ok ==> maxH == MaxH(ss) && maxV == MaxV(ss)
  {
    maxH, maxV := 1, 1;
    for k := 0 to |ss|
      invariant FactorsOk(ss[..k]) && maxH == MaxH(ss[..k]) && maxV == MaxV(ss[..k])
    {
      if ss[k].h <= 0 || ss[k].h > MAX_SAMP_FACTOR || ss[k].v <= 0 || ss[k].v > MAX_SAMP_FACTOR {
        return false, 1, 1;
      }
      assert ss[..k + 1] == ss[..k] + [ss[k]];
      maxH := if maxH > ss[k].h then maxH else ss[k].h;
      maxV := if maxV > ss[k].v then maxV else ss[k].v;
    }
    assert ss[..|ss|] == ss;
    ok := true;
  }

  /** Blocks of an interleaved MCU (section A.2.3). */
  function McuBlocks(ss: seq<Sampling>): int {
    if ss == [] then 0 else McuBlocks(ss[..|ss| - 1]) + ss[|ss| - 1].h * ss[|ss| - 1].v
  }

  lemma {:induction false} McuBlocksGrow(ss: seq<Sampling>, k: nat)
    requires FactorsOk(ss) && k <= |ss|
    ensures McuBlocks(ss[..k]) <= McuBlocks(ss)
    decreases |ss|
  {
    if k == |ss| {
      assert ss[..k] == ss;
    } else {
      var most := ss[..|ss| - 1];
      assert most[..k] == ss[..k];
      McuBlocksGrow(most, k);
      var last := ss[|ss| - 1];
      ProductMono(1, last.h, last.v);
    }
  }

  /** Frames that can be decoded in one scan. */
  predicate Supported(width: nat, height: nat, ss: seq<Sampling>) {
    && width <= MAX_DIMENSION && height <= MAX_DIMENSION && FactorsOk(ss)
    && (|ss| == 1 || (|ss| <= MAX_COMPS_IN_SCAN && McuBlocks(ss) <= MAX_BLOCKS_IN_MCU))
  }

  /** The geometry section A.1.1 and A.2 prescribe for component k of the frame. */
  ghost predicate IsComponent(c: Component, width: nat, height: nat, ss: seq<Sampling>, k: nat)
    requires k < |ss| && ss[k].h >= 1 && ss[k].v >= 1 && MaxH(ss) >= 1 && MaxV(ss) >= 1
  {
    && c.v == ss[k].v && c.needed == ss[k].needed
    && c.widthInBlocks == Blocks(width, ss[k].h, MaxH(ss)) && c.heightInBlocks == Blocks(height, ss[k].v, MaxV(ss))
    && c.mcuWidth == (if |ss| == 1 then 1 else ss[k].h) && c.mcuHeight == (if |ss| == 1 then 1 else ss[k].v)
  }

  ghost predicate IsScan(s: Scan, width: nat, height: nat, ss: seq<Sampling>) {
    && FactorsOk(ss) && |s.comps| == |ss| >= 1 && MaxH(ss) >= 1 && MaxV(ss) >= 1
    && (forall k :: 0 <= k < |ss| ==> IsComponent(s.comps[k], width, height, ss, k))
    && s.totalIMcuRows == DivRoundUp(height, MaxV(ss) * DCTSIZE)
    && s.mcusPerRow == (if |ss| == 1 then s.comps[0].widthInBlocks else DivRoundUp(width, MaxH(ss) * DCTSIZE))
  }

  /** The single scan of an image that has all its components in it (initial_setup and
      per_scan_setup); None is an error exit. */
  method SetUp(width: nat, height: nat, ss: seq<Sampling>) returns (r: Option<Scan>)
    requires width >= 1 && height >= 1 && |ss| >= 1
    ensures r.Some? <==> Supported(width, height, ss)
    ensures r.Some? ==> ScanOk(r.value) && IsScan(r.value, width, height, ss)
  {
    if height > MAX_DIMENSION || width > MAX_DIMENSION || |ss| > MAX_COMPONENTS {
      return None;
    }
    var ok, maxH, maxV := MaxFactors(ss);
    if !ok {
      return None;
    }
    MaxIsMax(ss);
    if |ss| == 1 {
      var c := Alone(width, height, ss[0], maxH, maxV);
      return Some(Scan([c], c.widthInBlocks, DivRoundUp(height, maxV * DCTSIZE), false));
    }
    if |ss| > MAX_COMPS_IN_SCAN {
      return None;
    }
    var comps: seq<Component> := [];
    var blocksInMcu := 0;
    for k := 0 to |ss|
      invariant |comps| == k && blocksInMcu == McuBlocks(ss[..k]) <= MAX_BLOCKS_IN_MCU
      invariant forall l :: 0 <= l < k ==> IsComponent(comps[l], width, height, ss, l)
      invariant forall l :: 0 <= l < k ==>
          CompOk(comps[l], DivRoundUp(width, maxH * DCTSIZE), DivRoundUp(height, maxV * DCTSIZE), true)
    {
      var c := Interleaved(width, height, ss[k], maxH, maxV);
      assert ss[..k + 1][..k] == ss[..k];
      McuBlocksGrow(ss, k + 1);
      if blocksInMcu + c.mcuWidth * c.mcuHeight > MAX_BLOCKS_IN_MCU {
        return None;
      }
      comps := comps + [c];
      blocksInMcu := blocksInMcu + c.mcuWidth * c.mcuHeight;
    }
    assert ss[..|ss|] == ss;
    r := Some(Scan(comps, DivRoundUp(width, maxH * DCTSIZE), DivRoundUp(height, maxV * DCTSIZE), true));
  }

  method Interleaved(width: nat, height: nat, s: Sampling, maxH: int, maxV: int) returns (c: Component)
    requires width >= 1 && height >= 1 && 1 <= s.h <= maxH && 1 <= s.v <= maxV
    ensures CompOk(c, DivRoundUp(width, maxH * DCTSIZE), DivRoundUp(height, maxV * DCTSIZE), true)
        && c.needed == s.needed && c.v == s.v
    ensures c.widthInBlocks == Blocks(width, s.h, maxH) && c.heightInBlocks == Blocks(height, s.v, maxV)
    ensures c.mcuWidth == s.h && c.mcuHeight == s.v
  {
    var wb, hb := Blocks(width, s.h, maxH), Blocks(height, s.v, maxV);
    BlocksGroup(width, s.h, maxH);
    BlocksGroup(height, s.v, maxV);
    c := Component(s.v, s.needed, wb, hb, s.h, s.v, Left(wb, s.h), Left(hb, s.v));
  }

  /** A component alone in its scan has one block per MCU. */
  method Alone(width: nat, height: nat, s: Sampling, maxH: int, maxV: int) returns (c: Component)
    requires width >= 1 && height >= 1 && 1 <= s.h <= maxH && 1 <= s.v <= maxV
    ensures CompOk(c, c.widthInBlocks, DivRoundUp(height, maxV * DCTSIZE), false) && c.needed == s.needed && c.v == s.v
        && c.mcuWidth == c.mcuHeight == 1
    ensures c.widthInBlocks == Blocks(width, s.h, maxH) && c.heightInBlocks == Blocks(height, s.v, maxV)
  {
    var wb, hb := Blocks(width, s.h, maxH), Blocks(height, s.v, maxV);
    BlocksGroup(width, s.h, maxH);
    BlocksGroup(height, s.v, maxV);
    var groups := DivRoundUp(width, maxH * DCTSIZE);
    ProductMono(1, groups, s.h);
    assert wb >= 1 by { ProductMono(0, groups - 1, s.h); }
    c := Component(s.v, s.needed, wb, hb, 1, 1, 1, Left(hb, s.v));
  }
}
