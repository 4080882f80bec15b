/** The inverse colour map of the two-pass quantizer: a lazily filled cache of nearest-colour
    searches that shares its storage with the histogram of the prescan. */
module InverseColormap {
  import opened NearestColor

  const ELEMS0 := 32
  const ELEMS1 := 64
  const ELEMS2 := 32

  /** Cell coordinates. */
  datatype Cell = Cell(h0: nat, h1: nat, h2: nat)

  ghost predicate InRange(h: Cell) {
    h.h0 < ELEMS0 && h.h1 < ELEMS1 && h.h2 < ELEMS2
  }

  function Center(h: Cell): Point {
    Point(h.h0 * 8 + 4, h.h1 * 4 + 2, h.h2 * 8 + 4)
  }

  function CellOf(c: Color): (h: Cell)
    ensures InRange(h)
  {
    Cell(c.c0 / 8, c.c1 / 4, c.c2 / 8)
  }

  /** The cell centre is within half a cell of every colour in the cell. */
  lemma CenterIsNear(c: Color)
    ensures var p := Center(CellOf(c)); -4 <= p.p0 - c.c0 <= 4 && -2 <= p.p1 - c.c1 <= 2 && -4 <= p.p2 - c.c2 <= 4
  {
  }

  ghost predicate Usable(m: seq<Color>) {
    1 <= |m| <= 256
  }

  ghost predicate Shape(h: array3<int>) {
    h.Length0 == ELEMS0 && h.Length1 == ELEMS1 && h.Length2 == ELEMS2
  }

  function At(h: array3<int>, x: Cell): int
    requires Shape(h) && InRange(x)
    reads h
  {
    h[x.h0, x.h1, x.h2]
  }

  /** Each entry is empty or one plus the nearest index for its cell. */
  ghost predicate CacheOk(h: array3<int>, m: Colormap)
    requires Shape(h)
    reads h
  {
    forall x :: InRange(x) && At(h, x) != 0 ==> At(h, x) >= 1 && IsNearest(m, Center(x), At(h, x) - 1)
  }

  /** The update box that contains a cell: its first cell. */
  function BoxBase(h: Cell): Cell {
    Cell(h.h0 / 4 * 4, h.h1 / 8 * 8, h.h2 / 4 * 4)
  }

  /** Cell k of the update box at base. */
  function BoxCell(base: Cell, k: nat): Cell {
    Cell(base.h0 + k / 32, base.h1 + k / 4 % 8, base.h2 + k % 4)
  }

  ghost predicate IsBase(base: Cell) {
    base.h0 % 4 == 0 && base.h1 % 8 == 0 && base.h2 % 4 == 0 && InRange(base)
  }

  lemma BoxCells(base: Cell, k: nat)
    requires IsBase(base) && k < CELLS
    ensures InRange(BoxCell(base, k)) && Center(BoxCell(base, k)) == CellPoint(Center(base), k)
  {
  }

  lemma BaseOk(h: Cell)
    requires InRange(h)
    ensures var b := BoxBase(h); IsBase(b) && BoxOk(Center(b))
    ensures exists k :: 0 <= k < CELLS && BoxCell(BoxBase(h), k) == h
  {
    var a, b, c := h.h0 % 4, h.h1 % 8, h.h2 % 4;
    CellNumber(a, b, c);
    assert BoxCell(BoxBase(h), a * 32 + b * 4 + c) == h;
  }

  lemma CellNumber(a: nat, b: nat, c: nat)
    requires a < 4 && b < 8 && c < 4
    ensures var k := a * 32 + b * 4 + c; k < CELLS && k / 32 == a && k / 4 % 8 == b && k % 4 == c
  {
  }

  ghost predicate AllNearest(m: Colormap, base: Cell, best: seq<nat>) {
    |best| == CELLS && forall k :: 0 <= k < CELLS ==> IsNearest(m, CellPoint(Center(base), k), best[k])
  }

  datatype Phase = Idle | Prescan | Mapping

  class ColorQuantizer {
    /** cinfo->colormap, replaced between passes. */
    var colormap: seq<Color>
    /** Counts during the prescan, cache while mapping. */
    const histogram: array3<int>
    var needsZeroed: bool
    var phase: Phase

    ghost predicate Valid()
      reads this, histogram
    {
      && Shape(histogram)
      && (phase.Mapping? ==> Usable(colormap) && !needsZeroed)
      && (!phase.Prescan? && !needsZeroed ==> Usable(colormap) && CacheOk(histogram, colormap))
    }

    /** jinit_2pass_quantizer: the storage is garbage until it is zeroed. */
    constructor ()
      ensures Valid() && phase == Idle && needsZeroed && fresh(histogram)
    {
      colormap, needsZeroed, phase := [], true, Idle;
      histogram := new int[ELEMS0, ELEMS1, ELEMS2];
    }

    method ZeroHistogram()
      requires Shape(histogram)
      modifies histogram
      ensures forall x :: InRange(x) ==> At(histogram, x) == 0
    {
      forall i, j, k | 0 <= i < histogram.Length0 && 0 <= j < histogram.Length1 && 0 <= k < histogram.Length2 {
        histogram[i, j, k] := 0;
      }
    }

    /** start_pass_2_quant; false is an error exit for an unusable colormap. */
    method StartPass(prescan: bool) returns (ok: bool)
      requires Valid() && !phase.Prescan?
      modifies this, histogram
      ensures colormap == old(colormap)
      ensures ok <==> prescan || Usable(colormap)
      ensures ok ==> Valid() && phase == (if prescan then Prescan else Mapping)
      ensures prescan ==> forall x :: InRange(x) ==> At(histogram, x) == 0
    {
      if prescan {
        phase := Prescan;
        needsZeroed := true;
      } else {
        phase := Mapping;
        if |colormap| < 1 || |colormap| > 256 {
          return false;
        }
      }
      if needsZeroed {
        ZeroHistogram();
        needsZeroed := false;
      }
      ok := true;
    }

    /** finish_pass1: the colormap selected from the histogram replaces the current one. */
    method FinishPrescan(selected: Colormap)
      requires Valid() && phase.Prescan?
      modifies this
      ensures Valid() && phase == Idle && colormap == selected && needsZeroed
    {
      colormap := selected;
      needsZeroed := true;
      phase := Idle;
    }

    /** The application installs a colormap, then new_color_map_2_quant. */
    method NewColorMap(m: seq<Color>)
      requires Valid() && !phase.Prescan?
      modifies this
      ensures Valid() && phase == Idle && colormap == m && needsZeroed
    {
      colormap := m;
      needsZeroed := true;
      phase := Idle;
    }

    /** A correct entry may be stored anywhere; no filled entry is lost. */
    method StoreEntry(x: Cell, v: nat)
      requires Valid() && phase.Mapping? && InRange(x) && IsNearest(colormap, Center(x), v)
      modifies histogram
      ensures Valid() && At(histogram, x) != 0
      ensures forall y :: InRange(y) && old(At(histogram, y)) != 0 ==> At(histogram, y) != 0
    {
      hide IsNearest, Center;
      histogram[x.h0, x.h1, x.h2] := v + 1;
    }

    method StoreRow(base: Cell, best: array<nat>, start: nat)
      requires Valid() && phase.Mapping? && IsBase(base) && AllNearest(colormap, base, best[..]) && start % 4 == 0
          && start + 4 <= CELLS
      modifies histogram
      ensures Valid()
      ensures forall y :: InRange(y) && old(At(histogram, y)) != 0 ==> At(histogram, y) != 0
      ensures forall k :: start <= k < start + 4 ==> InRange(BoxCell(base, k)) && At(histogram, BoxCell(base, k)) != 0
    {
      hide IsNearest, CellPoint, Center, CacheOk;
      var k := start;
      while k < start + 4
        invariant start <= k <= start + 4
        invariant Valid()
        invariant forall y :: InRange(y) && old(At(histogram, y)) != 0 ==> At(histogram, y) != 0
        invariant forall l :: start <= l < k ==> InRange(BoxCell(base, l)) && At(histogram, BoxCell(base, l)) != 0
      {
        BoxCells(base, k);
        assert best[..][k] == best[k];
        StoreEntry(BoxCell(base, k), best[k]);
        k := k + 1;
      }
    }

    /** Saves the best colour numbers, plus one, for the whole box. */
    method StoreBox(base: Cell, best: array<nat>)
      requires Valid() && phase.Mapping? && IsBase(base) && AllNearest(colormap, base, best[..])
      modifies histogram
      ensures Valid()
      ensures forall k :: 0 <= k < CELLS ==> InRange(BoxCell(base, k)) && At(histogram, BoxCell(base, k)) != 0
    {
      hide IsNearest, CellPoint, Center, CacheOk, BoxCell;
      var b := 0;
      for ic0 := 0 to 4
        invariant b == 32 * ic0 && Valid()
        invariant forall k :: 0 <= k < b ==> InRange(BoxCell(base, k)) && At(histogram, BoxCell(base, k)) != 0
      {
        for ic1 := 0 to 8
          invariant b == 32 * ic0 + 4 * ic1 && Valid()
          invariant forall k :: 0 <= k < b ==> InRange(BoxCell(base, k)) && At(histogram, BoxCell(base, k)) != 0
        {
          StoreRow(base, best, b);
          b := b + 4;
        }
      }
    }

    /** fill_inverse_cmap: fills the update box of cell h. */
    method FillInverseCmap(h: Cell)
      requires Valid() && phase.Mapping? && InRange(h)
      modifies histogram
      ensures Valid() && At(histogram, h) != 0
    {
      hide IsNearest, CellPoint, Center, CacheOk;
      BaseOk(h);
      var base := BoxBase(h);
      var list := FindNearbyColors(colormap, Center(base));
      var best := new nat[CELLS];
      FindBestColors(colormap, Center(base), list, best);
      forall k | 0 <= k < CELLS ensures IsNearest(colormap, CellPoint(Center(base), k), best[..][k]) {
        CellInBox(Center(base), k);
        BestIsNearest(colormap, Center(base), CellPoint(Center(base), k), list, best[k]);
      }
      StoreBox(base, best);
    }

    /** The lookup of both pass-2 routines: the nearest entry to the centre of the colour's cell,
        whatever the cache held before. */
    method Lookup(c: Color) returns (pixcode: nat)
      requires Valid() && phase.Mapping?
      modifies histogram
      ensures Valid() && IsNearest(colormap, Center(CellOf(c)), pixcode)
    {
      hide IsNearest, Center, CellOf;
      var h := CellOf(c);
      if histogram[h.h0, h.h1, h.h2] == 0 {
        FillInverseCmap(h);
      }
      assert IsNearest(colormap, Center(h), At(histogram, h) - 1);
      pixcode := histogram[h.h0, h.h1, h.h2] - 1;
    }

    /** pass2_no_dither for one row of pixels: every pixel becomes the nearest entry
        to the centre of its cell. */
    method MapRow(input: seq<Color>, output: array<nat>)
      requires Valid() && phase.Mapping? && output.Length == |input|
      modifies histogram, output
      ensures Valid()
      ensures forall col :: 0 <= col < |input| ==> IsNearest(colormap, Center(CellOf(input[col])), output[col])
    {
      hide IsNearest, Center, CellOf, CacheOk;
      var col := 0;
      while col < |input|
        invariant 0 <= col <= |input| && Valid()
        invariant forall k :: 0 <= k < col ==> IsNearest(colormap, Center(CellOf(input[k])), output[k])
      {
        var pixcode := Lookup(input[col]);
        output[col] := pixcode;
        col := col + 1;
      }
    }

    /** prescan_quantize for one row: saturating counts. */
    method PrescanRow(input: seq<Color>)
      requires Valid() && phase.Prescan?
      requires forall x :: InRange(x) ==> 0 <= At(histogram, x) <= 0xFFFF
      modifies histogram
      ensures Valid()
      ensures forall x :: InRange(x) ==> At(histogram, x) == Saturated(old(At(histogram, x)) + Occurrences(input, x))
    {
      hide CellOf;
      var col := 0;
      while col < |input|
        invariant 0 <= col <= |input| && Valid()
        invariant forall x :: InRange(x) ==>
            At(histogram, x) == Saturated(old(At(histogram, x)) + Occurrences(input[..col], x))
      {
        var h := CellOf(input[col]);
        var n := (histogram[h.h0, h.h1, h.h2] + 1) % 0x1_0000;
        histogram[h.h0, h.h1, h.h2] := if n <= 0 then 0xFFFF else n;
        assert input[..col + 1][..col] == input[..col];
        col := col + 1;
      }
      assert input[..col] == input;
    }
  }

  function Saturated(n: int): int {
    if n > 0xFFFF then 0xFFFF else n
  }

  /** How many pixels of the row fall into cell x. */
  function Occurrences(input: seq<Color>, x: Cell): nat {
    if input == [] then 0 else Occurrences(input[..|input| - 1], x) + (if CellOf(input[|input| - 1]) == x then 1 else 0)
  }
}
