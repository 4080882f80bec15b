/** Median cut: the used part of the colour space is divided into boxes, one per colour. */
module MedianCut {
  import opened Wrappers
  import opened NearestColor
  import opened InverseColormap

  /** The counts of the prescan, one per cell. */
  type Histogram = h: seq<seq<seq<int>>> | CubeShape(h) witness seq(ELEMS0, _ => seq(ELEMS1, _ => seq(ELEMS2, _ => 0)))

  predicate CubeShape(h: seq<seq<seq<int>>>) {
    |h| == ELEMS0 && forall i :: 0 <= i < ELEMS0 ==> |h[i]| == ELEMS1 && forall j :: 0 <= j < ELEMS1 ==>
        |h[i][j]| == ELEMS2
  }

  function Count(h: Histogram, x: Cell): int
    requires InRange(x)
  {
    h[x.h0][x.h1][x.h2]
  }

  datatype Axis = A0 | A1 | A2

  function Coord(x: Cell, a: Axis): nat {
    match a case A0 => x.h0 case A1 => x.h1 case A2 => x.h2
  }

  function With(x: Cell, a: Axis, v: nat): Cell {
    match a case A0 => x.(h0 := v) case A1 => x.(h1 := v) case A2 => x.(h2 := v)
  }

  /** Bounds are inclusive. */
  datatype Box = Box(min: Cell, max: Cell, volume: int, colorcount: nat)

  predicate Contains(b: Box, x: Cell) {
    b.min.h0 <= x.h0 <= b.max.h0 && b.min.h1 <= x.h1 <= b.max.h1 && b.min.h2 <= x.h2 <= b.max.h2
  }

  ghost predicate Legal(b: Box) {
    InRange(b.min) && InRange(b.max) && Contains(b, b.max)
  }

  /** A used cell of the box. */
  ghost predicate Used(h: Histogram, b: Box, x: Cell)
  {
    InRange(x) && Contains(b, x) && Count(h, x) != 0
  }

  ghost function UsedCells(h: Histogram, b: Box): (s: set<Cell>)
    ensures forall x :: x in s <==> Used(h, b, x)
  {
    var all := set i, j, k | 0 <= i < ELEMS0 && 0 <= j < ELEMS1 && 0 <= k < ELEMS2 :: Cell(i, j, k);
    assert forall x :: InRange(x) ==> x in all;
    set x | x in all && Used(h, b, x)
  }

  ghost predicate SameUsed(h: Histogram, b: Box, c: Box)
  {
    forall x :: Used(h, b, x) <==> Used(h, c, x)
  }

  /** Some used cell lies on the given plane. */
  ghost predicate Touched(h: Histogram, b: Box, a: Axis, v: nat)
  {
    exists x :: Used(h, b, x) && Coord(x, a) == v
  }

  /** No smaller box holds the same used cells. */
  ghost predicate Tight(h: Histogram, b: Box, a: Axis)
  {
    Touched(h, b, a, Coord(b.min, a)) && Touched(h, b, a, Coord(b.max, a))
  }

  /** Length of a side in sample units, scaled. */
  function Side(b: Box, a: Axis): int {
    (Coord(b.max, a) - Coord(b.min, a)) * (match a case A0 => STEP0 case A1 => STEP1 case A2 => STEP2)
  }

  function Norm(b: Box): int {
    Side(b, A0) * Side(b, A0) + Side(b, A1) * Side(b, A1) + Side(b, A2) * Side(b, A2)
  }

  /** An up-to-date box: the exact bounding box of its used cells, of which there is at least one. */
  ghost predicate Exact(h: Histogram, b: Box)
  {
    && Legal(b) && Tight(h, b, A0) && Tight(h, b, A1) && Tight(h, b, A2)
    && b.volume == Norm(b) && b.colorcount == |UsedCells(h, b)|
  }

  /** Any box holding the same used cells has at least the same bounds. */
  lemma ExactIsSmallest(h: Histogram, b: Box, c: Box)
    requires Exact(h, b) && SameUsed(h, b, c)
    ensures c.min.h0 <= b.min.h0 && c.min.h1 <= b.min.h1 && c.min.h2 <= b.min.h2
    ensures b.max.h0 <= c.max.h0 && b.max.h1 <= c.max.h1 && b.max.h2 <= c.max.h2
  {
    hide UsedCells, Norm, Count;
  }

  lemma SplittableIffVolume(b: Box)
    requires Legal(b)
    ensures Norm(b) >= 0 && (Norm(b) == 0 <==> b.min == b.max)
  {
    SideSquare(b, A0);
    SideSquare(b, A1);
    SideSquare(b, A2);
    hide Side;
  }

  lemma SideSquare(b: Box, a: Axis)
    requires Legal(b)
    ensures Side(b, a) * Side(b, a) >= 0 && Side(b, a) >= 0
    ensures Side(b, a) * Side(b, a) == 0 <==> Coord(b.min, a) == Coord(b.max, a)
  {
    var n := Coord(b.max, a) - Coord(b.min, a);
    assert n >= 0;
    if n > 0 {
      SquarePositive(Side(b, a));
    }
  }

  lemma SquarePositive(n: int)
    requires n > 0
    ensures n * n > 0
  {
  }

  // ---------------------------------------------------------------- scanning

  /** Visiting order of the nested loops. */
  predicate Before(x: Cell, c0: int, c1: int, c2: int) {
    x.h0 < c0 || (x.h0 == c0 && (x.h1 < c1 || (x.h1 == c1 && x.h2 < c2)))
  }

  /** Is there a used cell in the box? */
  method AnyUsed(h: Histogram, b: Box) returns (found: bool)
    requires Legal(b)
    ensures found <==> exists x :: Used(h, b, x)
  {
    var c0 := b.min.h0;
    while c0 <= b.max.h0
      invariant b.min.h0 <= c0 <= b.max.h0 + 1
      invariant forall x :: Used(h, b, x) ==> !Before(x, c0, b.min.h1, b.min.h2)
    {
      var c1 := b.min.h1;
      while c1 <= b.max.h1
        invariant b.min.h1 <= c1 <= b.max.h1 + 1
        invariant forall x :: Used(h, b, x) ==> !Before(x, c0, c1, b.min.h2)
      {
        var c2 := b.min.h2;
        while c2 <= b.max.h2
          invariant b.min.h2 <= c2 <= b.max.h2 + 1
          invariant forall x :: Used(h, b, x) ==> !Before(x, c0, c1, c2)
        {
          if h[c0][c1][c2] != 0 {
            assert Used(h, b, Cell(c0, c1, c2));
            return true;
          }
          c2 := c2 + 1;
        }
        c1 := c1 + 1;
      }
      c0 := c0 + 1;
    }
    found := false;
  }

  /** One plane of the box. */
  function Slab(b: Box, a: Axis, v: nat): Box {
    b.(min := With(b.min, a, v), max := With(b.max, a, v))
  }

  lemma SlabUsed(h: Histogram, b: Box, a: Axis, v: nat)
    requires Legal(b) && Coord(b.min, a) <= v <= Coord(b.max, a)
    ensures Legal(Slab(b, a, v))
    ensures Touched(h, b, a, v) <==> exists x :: Used(h, Slab(b, a, v), x)
  {
    if Touched(h, b, a, v) {
      var x :| Used(h, b, x) && Coord(x, a) == v;
      assert Used(h, Slab(b, a, v), x);
    }
    if exists x :: Used(h, Slab(b, a, v), x) {
      var x :| Used(h, Slab(b, a, v), x);
      assert Used(h, b, x) && Coord(x, a) == v;
    }
  }

  /** The first touched plane from below; the lower bound itself if the box is unused. */
  method LowestPlane(h: Histogram, b: Box, a: Axis) returns (v: nat)
    requires Legal(b)
    ensures Coord(b.min, a) <= v <= Coord(b.max, a)
    ensures forall x :: Used(h, b, x) ==> Coord(x, a) >= v
    ensures (exists x :: Used(h, b, x)) ==> Touched(h, b, a, v)
  {
    hide Used;
    v := Coord(b.min, a);
    assert forall x :: Used(h, b, x) ==> Coord(x, a) >= v by { UsedBounds(h, b, a); }
    while v <= Coord(b.max, a)
      invariant Coord(b.min, a) <= v <= Coord(b.max, a) + 1
      invariant forall x :: Used(h, b, x) ==> Coord(x, a) >= v
    {
      SlabUsed(h, b, a, v);
      var found := AnyUsed(h, Slab(b, a, v));
      if found { return; }
      assert !Touched(h, b, a, v);
      v := v + 1;
    }
    UsedBounds(h, b, a);
    v := Coord(b.min, a);
  }

  lemma UsedBounds(h: Histogram, b: Box, a: Axis)
    ensures forall x :: Used(h, b, x) ==> Coord(b.min, a) <= Coord(x, a) <= Coord(b.max, a)
  {
  }

  /** The first touched plane from above. */
  method HighestPlane(h: Histogram, b: Box, a: Axis) returns (v: nat)
    requires Legal(b)
    ensures Coord(b.min, a) <= v <= Coord(b.max, a)
    ensures forall x :: Used(h, b, x) ==> Coord(x, a) <= v
    ensures (exists x :: Used(h, b, x)) ==> Touched(h, b, a, v)
  {
    hide Used;
    var w: int := Coord(b.max, a);
    assert forall x :: Used(h, b, x) ==> Coord(x, a) <= w by { UsedBounds(h, b, a); }
    while w >= Coord(b.min, a)
      invariant Coord(b.min, a) - 1 <= w <= Coord(b.max, a)
      invariant forall x :: Used(h, b, x) ==> Coord(x, a) <= w
    {
      SlabUsed(h, b, a, w);
      var found := AnyUsed(h, Slab(b, a, w));
      if found { return w; }
      assert !Touched(h, b, a, w);
      w := w - 1;
    }
    UsedBounds(h, b, a);
    v := Coord(b.max, a);
  }

  /** Moves one bound of an axis inwards. */
  ghost predicate OnlyAxis(b: Box, c: Box, a: Axis) {
    forall e: Axis :: e != a ==> Coord(c.min, e) == Coord(b.min, e) && Coord(c.max, e) == Coord(b.max, e)
  }

  method RaiseMin(h: Histogram, b: Box, a: Axis) returns (c: Box)
    requires Legal(b)
    ensures Legal(c) && SameUsed(h, b, c) && OnlyAxis(b, c, a) && Within(c, b) && Coord(c.max, a) == Coord(b.max, a)
    ensures (exists x :: Used(h, b, x)) ==> Touched(h, c, a, Coord(c.min, a)) || Coord(c.min, a) == Coord(c.max, a)
  {
    c := b;
    if Coord(b.max, a) > Coord(b.min, a) {
      var v := LowestPlane(h, b, a);
      c := b.(min := With(b.min, a, v));
      KeepTouched(h, b, c, a, v);
    }
  }

  method LowerMax(h: Histogram, b: Box, a: Axis) returns (c: Box)
    requires Legal(b)
    ensures Legal(c) && SameUsed(h, b, c) && OnlyAxis(b, c, a) && Within(c, b)
        && Coord(c.min, a) == Coord(b.min, a) <= Coord(c.max, a) <= Coord(b.max, a)
    ensures (exists x :: Used(h, b, x)) ==> Touched(h, c, a, Coord(c.max, a)) || Coord(c.min, a) == Coord(c.max, a)
  {
    c := b;
    if Coord(b.max, a) > Coord(b.min, a) {
      var v := HighestPlane(h, b, a);
      c := b.(max := With(b.max, a, v));
      KeepTouched(h, b, c, a, v);
    }
  }

  /** Shrinks one axis. */
  method ShrinkAxis(h: Histogram, b: Box, a: Axis) returns (c: Box)
    requires Legal(b)
    ensures Legal(c) && SameUsed(h, b, c) && OnlyAxis(b, c, a) && Within(c, b)
    ensures (exists x :: Used(h, b, x)) ==> Tight(h, c, a)
  {
    hide Used, Contains, Legal;
    var d := RaiseMin(h, b, a);
    c := LowerMax(h, d, a);
    if x :| Used(h, b, x) {
      assert Used(h, d, x) && Used(h, c, x);
      KeepTouched(h, d, c, a, Coord(d.min, a));
      KeepTouched(h, d, c, a, Coord(c.min, a));
    }
  }

  lemma KeepTouched(h: Histogram, b: Box, c: Box, a: Axis, v: nat)
    requires SameUsed(h, b, c)
    ensures Touched(h, b, a, v) ==> Touched(h, c, a, v)
    ensures Coord(c.min, a) == Coord(c.max, a) == v && (exists x :: Used(h, b, x)) ==> Touched(h, c, a, v)
  {
    hide Count;
    if Touched(h, b, a, v) {
      var x :| Used(h, b, x) && Coord(x, a) == v;
      assert Used(h, c, x);
    }
    if Coord(c.min, a) == Coord(c.max, a) == v && exists x :: Used(h, b, x) {
      var x :| Used(h, b, x);
      assert Used(h, c, x) && Coord(x, a) == v;
    }
  }

  ghost predicate Within(c: Box, b: Box) {
    forall x :: Contains(c, x) ==> Contains(b, x)
  }

  lemma KeepTight(h: Histogram, b: Box, c: Box, a: Axis)
    requires SameUsed(h, b, c) && Tight(h, b, a)
    requires Coord(c.min, a) == Coord(b.min, a) && Coord(c.max, a) == Coord(b.max, a)
    ensures Tight(h, c, a)
  {
    hide Used;
    KeepTouched(h, b, c, a, Coord(b.min, a));
    KeepTouched(h, b, c, a, Coord(b.max, a));
  }

  /** The population: how many cells of the box are used. */
  method Population(h: Histogram, b: Box) returns (n: nat)
    requires Legal(b)
    ensures n == |UsedCells(h, b)|
  {
    hide UsedCells;
    n := 0;
    ghost var seen: set<Cell> := {};
    var c0 := b.min.h0;
    while c0 <= b.max.h0
      invariant b.min.h0 <= c0 <= b.max.h0 + 1 && n == |seen|
      invariant forall x :: x in seen <==> Used(h, b, x) && Before(x, c0, b.min.h1, b.min.h2)
    {
      var c1 := b.min.h1;
      while c1 <= b.max.h1
        invariant b.min.h1 <= c1 <= b.max.h1 + 1 && n == |seen|
        invariant forall x :: x in seen <==> Used(h, b, x) && Before(x, c0, c1, b.min.h2)
      {
        var c2 := b.min.h2;
        while c2 <= b.max.h2
          invariant b.min.h2 <= c2 <= b.max.h2 + 1 && n == |seen|
          invariant forall x :: x in seen <==> Used(h, b, x) && Before(x, c0, c1, c2)
        {
          if h[c0][c1][c2] != 0 {
            assert Count(h, Cell(c0, c1, c2)) == h[c0][c1][c2];
            seen := seen + {Cell(c0, c1, c2)};
            n := n + 1;
          }
          c2 := c2 + 1;
        }
        c1 := c1 + 1;
      }
      c0 := c0 + 1;
    }
    assert seen == UsedCells(h, b);
  }

  /** update_box: shrinks the bounds to the used cells and recomputes volume and population. */
  method UpdateBox(h: Histogram, b: Box) returns (c: Box)
    requires Legal(b)
    ensures SameUsed(h, b, c) && Within(c, b)
    ensures (exists x :: Used(h, b, x)) ==> Exact(h, c)
  {
    hide Used, UsedCells, Touched, Norm, Contains;
    var d := ShrinkAxis(h, b, A0);
    var e := ShrinkAxis(h, d, A1);
    c := ShrinkAxis(h, e, A2);
    ghost var f := c;
    var population := Population(h, c);
    c := c.(volume := Norm(c), colorcount := population);
    StatsOnly(h, f, c);
    if x :| Used(h, b, x) {
      assert Used(h, d, x) && Used(h, e, x) && Used(h, c, x);
      KeepTight(h, d, e, A0);
      KeepTight(h, e, c, A0);
      KeepTight(h, e, c, A1);
      KeepTight(h, f, c, A2);
    }
  }

  lemma StatsOnly(h: Histogram, b: Box, c: Box)
    requires c == b.(volume := c.volume, colorcount := c.colorcount)
    ensures SameUsed(h, b, c) && Within(b, c) && Within(c, b) && (Legal(b) ==> Legal(c))
    ensures UsedCells(h, b) == UsedCells(h, c) && Norm(b) == Norm(c)
  {
  }

  // ---------------------------------------------------------------- choosing and splitting

  predicate Splittable(b: Box) {
    b.volume > 0
  }

  /** find_biggest_color_pop: the first splittable box of greatest population. */
  method BiggestPopulation(bs: array<Box>, n: nat) returns (which: Option<nat>)
    requires n <= bs.Length
    ensures which.Some? ==>
      && which.value < n && Splittable(bs[which.value])
      && (forall i :: 0 <= i < n && Splittable(bs[i]) ==> bs[i].colorcount <= bs[which.value].colorcount)
      && (forall i :: 0 <= i < which.value && Splittable(bs[i]) ==> bs[i].colorcount < bs[which.value].colorcount)
    ensures which.None? <==> forall i :: 0 <= i < n ==> bs[i].colorcount == 0 || !Splittable(bs[i])
  {
    which := None;
    var maxc := 0;
    var i := 0;
    while i < n
      invariant 0 <= i <= n
      invariant which.None? ==> maxc == 0
      invariant which.Some? ==> which.value < i && Splittable(bs[which.value]) && bs[which.value].colorcount == maxc > 0
      invariant forall k :: 0 <= k < i && Splittable(bs[k]) ==> bs[k].colorcount <= maxc
      invariant which.Some? ==> forall k :: 0 <= k < which.value && Splittable(bs[k]) ==> bs[k].colorcount < maxc
    {
      if bs[i].colorcount > maxc && bs[i].volume > 0 {
        which := Some(i);
        maxc := bs[i].colorcount;
      }
      i := i + 1;
    }
  }

  /** find_biggest_volume: the first box of greatest volume, if any is splittable. */
  method BiggestVolume(bs: array<Box>, n: nat) returns (which: Option<nat>)
    requires n <= bs.Length
    ensures which.Some? ==>
      && which.value < n && Splittable(bs[which.value])
      && (forall i :: 0 <= i < n ==> bs[i].volume <= bs[which.value].volume)
      && (forall i :: 0 <= i < which.value ==> bs[i].volume < bs[which.value].volume)
    ensures which.None? <==> forall i :: 0 <= i < n ==> !Splittable(bs[i])
  {
    which := None;
    var maxv := 0;
    var i := 0;
    while i < n
      invariant 0 <= i <= n
      invariant which.None? ==> maxv == 0
      invariant which.Some? ==> which.value < i && bs[which.value].volume == maxv > 0
      invariant forall k :: 0 <= k < i ==> bs[k].volume <= maxv
      invariant which.Some? ==> forall k :: 0 <= k < which.value ==> bs[k].volume < maxv
    {
      if bs[i].volume > maxv {
        which := Some(i);
        maxv := bs[i].volume;
      }
      i := i + 1;
    }
  }

  /** The longest side, ties broken in favour of axis 1, then 0. */
  function LongestSide(b: Box): (a: Axis)
    ensures forall e: Axis :: Side(b, e) <= Side(b, a)
    ensures Side(b, A1) == Side(b, a) ==> a == A1
    ensures Side(b, A1) < Side(b, a) && Side(b, A0) == Side(b, a) ==> a == A0
  {
    var a := if Side(b, A0) > Side(b, A1) then A0 else A1;
    if Side(b, A2) > Side(b, a) then A2 else a
  }

  /** The lower half keeps the middle plane. */
  function LowerHalf(b: Box, a: Axis): Box {
    b.(max := With(b.max, a, (Coord(b.max, a) + Coord(b.min, a)) / 2))
  }

  function UpperHalf(b: Box, a: Axis): Box {
    b.(min := With(b.min, a, (Coord(b.max, a) + Coord(b.min, a)) / 2 + 1))
  }

  /** Each half holds a used cell; together they are the whole box. */
  lemma Halves(h: Histogram, b: Box, a: Axis)
    requires Exact(h, b) && Coord(b.min, a) < Coord(b.max, a)
    ensures var l, u := LowerHalf(b, a), UpperHalf(b, a);
      && Legal(l) && Legal(u)
      && (exists x :: Used(h, l, x)) && (exists x :: Used(h, u, x))
      && (forall x :: Contains(b, x) <==> Contains(l, x) || Contains(u, x))
      && (forall x :: !(Contains(l, x) && Contains(u, x)))
  {
    hide Norm, UsedCells, Count;
    var x :| Used(h, b, x) && Coord(x, a) == Coord(b.min, a);
    var y :| Used(h, b, y) && Coord(y, a) == Coord(b.max, a);
    assert Used(h, LowerHalf(b, a), x) && Used(h, UpperHalf(b, a), y);
  }

  /** A box of positive volume is longest along an axis that can be cut. */
  lemma LongestIsCuttable(b: Box)
    requires Legal(b) && Norm(b) > 0
    ensures var a := LongestSide(b); Coord(b.min, a) < Coord(b.max, a)
  {
    SplittableIffVolume(b);
    SideSquare(b, A0);
    SideSquare(b, A1);
    SideSquare(b, A2);
  }

  // ---------------------------------------------------------------- the box list

  ghost predicate Apart(b: Box, c: Box) {
    forall x :: !(Contains(b, x) && Contains(c, x))
  }

  /** The boxes are exact and pairwise disjoint. */
  ghost predicate Separate(h: Histogram, bs: seq<Box>) {
    && (forall i :: 0 <= i < |bs| ==> Exact(h, bs[i]))
    && (forall i, j :: 0 <= i < j < |bs| ==> Apart(bs[i], bs[j]))
  }

  /** The boxes are exact, pairwise disjoint, and hold every used cell. */
  ghost predicate Partition(h: Histogram, bs: seq<Box>) {
    && Separate(h, bs)
    && (forall x :: InRange(x) && Count(h, x) != 0 ==> Held(bs, x))
  }

  ghost predicate Held(bs: seq<Box>, x: Cell) {
    exists i :: 0 <= i < |bs| && Contains(bs[i], x)
  }

  function TotalCount(bs: seq<Box>): nat {
    if bs == [] then 0 else TotalCount(bs[..|bs| - 1]) + bs[|bs| - 1].colorcount
  }

  /** All used cells. */
  ghost function AllUsed(h: Histogram): set<Cell> {
    UsedCells(h, WholeSpace())
  }

  function WholeSpace(): Box {
    Box(Cell(0, 0, 0), Cell(ELEMS0 - 1, ELEMS1 - 1, ELEMS2 - 1), 0, 0)
  }

  ghost function HeldCells(h: Histogram, bs: seq<Box>): set<Cell> {
    if bs == [] then {} else HeldCells(h, bs[..|bs| - 1]) + UsedCells(h, bs[|bs| - 1])
  }

  lemma {:induction false} HeldCellsAre(h: Histogram, bs: seq<Box>, x: Cell)
    ensures x in HeldCells(h, bs) <==> InRange(x) && Count(h, x) != 0 && Held(bs, x)
  {
    if bs != [] {
      var front, last := bs[..|bs| - 1], bs[|bs| - 1];
      HeldCellsAre(h, front, x);
      if Held(bs, x) {
        var i :| 0 <= i < |bs| && Contains(bs[i], x);
        assert i < |front| ==> Contains(front[i], x);
      }
      if Held(front, x) {
        var i :| 0 <= i < |front| && Contains(front[i], x);
        assert Contains(bs[i], x);
      }
      assert Contains(last, x) ==> Held(bs, x);
    }
  }

  /** The populations of a partition add up to the number of used cells. */
  lemma {:induction false} CountsAddUp(h: Histogram, bs: seq<Box>)
    requires Separate(h, bs)
    ensures TotalCount(bs) == |HeldCells(h, bs)|
  {
    hide Count, UsedCells, Norm, Tight;
    if bs != [] {
      var front, last := bs[..|bs| - 1], bs[|bs| - 1];
      CountsAddUp(h, front);
      forall x ensures !(x in HeldCells(h, front) && x in UsedCells(h, last)) {
        HeldCellsAre(h, front, x);
        if x in HeldCells(h, front) {
          var i :| 0 <= i < |front| && Contains(front[i], x);
          assert Apart(bs[i], bs[|bs| - 1]);
        }
      }
      assert HeldCells(h, front) !! UsedCells(h, last);
    }
  }

  lemma AllUsedAre(h: Histogram, x: Cell)
    ensures x in AllUsed(h) <==> InRange(x) && Count(h, x) != 0
  {
    hide Count;
    assert x in AllUsed(h) <==> Used(h, WholeSpace(), x);
  }

  lemma PartitionHolds(h: Histogram, bs: seq<Box>, x: Cell)
    requires Partition(h, bs)
    ensures x in HeldCells(h, bs) <==> x in AllUsed(h)
  {
    hide Separate, Held, Count, HeldCells, AllUsed;
    HeldCellsAre(h, bs, x);
    AllUsedAre(h, x);
  }

  lemma PartitionTotal(h: Histogram, bs: seq<Box>)
    requires Partition(h, bs)
    ensures TotalCount(bs) == |AllUsed(h)|
  {
    hide Separate, Held, Count;
    assert Separate(h, bs);
    hide *;
    CountsAddUp(h, bs);
    forall x ensures x in HeldCells(h, bs) <==> x in AllUsed(h) {
      PartitionHolds(h, bs, x);
    }
    assert HeldCells(h, bs) == AllUsed(h);
  }

  /** Splitting box w keeps the partition. */
  lemma SplitKeepsPartition(h: Histogram, bs: seq<Box>, w: nat, c: Box, d: Box)
    requires Partition(h, bs) && w < |bs| && Exact(h, c) && Exact(h, d) && Apart(c, d)
    requires Within(c, bs[w]) && Within(d, bs[w])
    requires forall x :: Used(h, bs[w], x) ==> Contains(c, x) || Contains(d, x)
    ensures Partition(h, bs[w := c] + [d])
  {
    hide Exact, Contains, Count;
    var new_ := bs[w := c] + [d];
    forall i, j | 0 <= i < j < |new_| ensures Apart(new_[i], new_[j]) {
      var i0, j0 := i, if j < |bs| then j else w;
      assert Within(new_[i], bs[i0]) && Within(new_[j], bs[j0]);
      if i0 < j0 { assert Apart(bs[i0], bs[j0]); }
      else if j0 < i0 { assert Apart(bs[j0], bs[i0]); }
    }
    forall x | InRange(x) && Count(h, x) != 0 ensures Held(new_, x) {
      assert Held(bs, x);
      var i :| 0 <= i < |bs| && Contains(bs[i], x);
      if i != w {
        assert Contains(new_[i], x);
      } else {
        assert Used(h, bs[w], x);
        assert Contains(new_[w], x) || Contains(new_[|bs|], x);
      }
    }
  }

  // ---------------------------------------------------------------- one cut

  /** The axis along which the box is longest in scaled sample units; ties go to green, then red, then blue. */
  ghost predicate Longest(b: Box, a: Axis) {
    var red, green, blue := 16 * (b.max.h0 - b.min.h0), 12 * (b.max.h1 - b.min.h1), 8 * (b.max.h2 - b.min.h2);
    match a
    case A0 => red > green && red >= blue
    case A1 => green >= red && green >= blue
    case A2 => blue > red && blue > green
  }

  /** c is the exact box of the used cells of b on one side of the middle of axis a; the middle itself belongs to
      the lower side. */
  ghost predicate HalfBox(h: Histogram, b: Box, a: Axis, lower: bool, c: Box) {
    && Exact(h, c)
    && forall x :: Used(h, c, x) <==>
        Used(h, b, x) && (2 * Coord(x, a) <= Coord(b.min, a) + Coord(b.max, a) <==> lower)
  }

  ghost predicate IsCut(h: Histogram, b: Box, c: Box, d: Box) {
    exists a: Axis :: Longest(b, a) && HalfBox(h, b, a, true, c) && HalfBox(h, b, a, false, d)
  }

  lemma LongestIs(b: Box)
    ensures Longest(b, LongestSide(b))
  {
  }

  lemma LowerUsed(h: Histogram, b: Box, a: Axis, x: Cell)
    requires Legal(b)
    ensures Used(h, LowerHalf(b, a), x) <==> Used(h, b, x) && 2 * Coord(x, a) <= Coord(b.min, a) + Coord(b.max, a)
  {
    hide Count;
  }

  lemma UpperUsed(h: Histogram, b: Box, a: Axis, x: Cell)
    requires Legal(b)
    ensures Used(h, UpperHalf(b, a), x) <==> Used(h, b, x) && 2 * Coord(x, a) > Coord(b.min, a) + Coord(b.max, a)
  {
    hide Count;
  }

  lemma CutIs(h: Histogram, b: Box, c: Box, d: Box)
    requires Legal(b) && Exact(h, c) && Exact(h, d)
    requires SameUsed(h, LowerHalf(b, LongestSide(b)), c) && SameUsed(h, UpperHalf(b, LongestSide(b)), d)
    ensures IsCut(h, b, c, d)
  {
    var a := LongestSide(b);
    LongestIs(b);
    hide Exact, Used, Longest, LongestSide, LowerHalf, UpperHalf;
    forall x ensures Used(h, c, x) <==> Used(h, b, x) && 2 * Coord(x, a) <= Coord(b.min, a) + Coord(b.max, a) {
      LowerUsed(h, b, a, x);
    }
    forall x ensures Used(h, d, x) <==> Used(h, b, x) && 2 * Coord(x, a) > Coord(b.min, a) + Coord(b.max, a) {
      UpperUsed(h, b, a, x);
    }
    assert HalfBox(h, b, a, true, c) && HalfBox(h, b, a, false, d);
  }

  /** The box to cut: while twice the count is within what is desired the first of greatest population among
      those of more than one cell, after that the first of greatest volume. */
  ghost predicate Chosen(bs: seq<Box>, w: nat, desired: nat) {
    && w < |bs| && Splittable(bs[w])
    && if 2 * |bs| <= desired then
         && (forall i :: 0 <= i < |bs| && Splittable(bs[i]) ==> bs[i].colorcount <= bs[w].colorcount)
         && (forall i :: 0 <= i < w && Splittable(bs[i]) ==> bs[i].colorcount < bs[w].colorcount)
       else
         && (forall i :: 0 <= i < |bs| ==> bs[i].volume <= bs[w].volume)
         && (forall i :: 0 <= i < w ==> bs[i].volume < bs[w].volume)
  }

  /** One round: the chosen box makes way for its lower half, and the upper half goes to the end. */
  ghost predicate Round(h: Histogram, bs: seq<Box>, cs: seq<Box>, desired: nat) {
    exists w: nat, c, d :: Chosen(bs, w, desired) && IsCut(h, bs[w], c, d) && cs == bs[w := c] + [d]
  }

  /** The box lists from the first to the last, one round after the other. */
  ghost predicate Rounds(h: Histogram, run: seq<seq<Box>>, desired: nat) {
    forall k :: 0 <= k < |run| - 1 ==> Round(h, run[k], run[k + 1], desired)
  }

  lemma OneMoreRound(h: Histogram, run: seq<seq<Box>>, cs: seq<Box>, desired: nat)
    requires run != [] && Rounds(h, run, desired) && Round(h, run[|run| - 1], cs, desired)
    ensures Rounds(h, run + [cs], desired)
  {
    hide Round;
    var all := run + [cs];
    forall k | 0 <= k < |all| - 1 ensures Round(h, all[k], all[k + 1], desired) {
      if k == |run| - 1 { assert all[k] == run[|run| - 1]; }
    }
  }

  lemma HalfUnique(h: Histogram, b: Box, a: Axis, lower: bool, c: Box, d: Box)
    requires HalfBox(h, b, a, lower, c) && HalfBox(h, b, a, lower, d)
    ensures c == d
  {
    hide Used, UsedCells, Tight, Norm, Coord;
    assert SameUsed(h, c, d) && SameUsed(h, d, c);
    ExactIsSmallest(h, c, d);
    ExactIsSmallest(h, d, c);
    SameCount(h, c, d);
    SameNorm(c, d);
  }

  lemma SameCount(h: Histogram, c: Box, d: Box)
    requires SameUsed(h, c, d)
    ensures |UsedCells(h, c)| == |UsedCells(h, d)|
  {
    hide Used;
    assert UsedCells(h, c) == UsedCells(h, d);
  }

  lemma SameNorm(c: Box, d: Box)
    requires c.min == d.min && c.max == d.max
    ensures Norm(c) == Norm(d)
  {
  }

  lemma CutUnique(h: Histogram, b: Box, c: Box, d: Box, c': Box, d': Box)
    requires IsCut(h, b, c, d) && IsCut(h, b, c', d')
    ensures c == c' && d == d'
  {
    hide HalfBox, Exact;
    var a: Axis :| Longest(b, a) && HalfBox(h, b, a, true, c) && HalfBox(h, b, a, false, d);
    var a': Axis :| Longest(b, a') && HalfBox(h, b, a', true, c') && HalfBox(h, b, a', false, d');
    assert a == a';
    hide Longest;
    HalfUnique(h, b, a, true, c, c');
    HalfUnique(h, b, a, false, d, d');
  }

  lemma ChosenUnique(bs: seq<Box>, w: nat, v: nat, desired: nat)
    requires Chosen(bs, w, desired) && Chosen(bs, v, desired)
    ensures w == v
  {
  }

  lemma RoundUnique(h: Histogram, bs: seq<Box>, cs: seq<Box>, ds: seq<Box>, desired: nat)
    requires Round(h, bs, cs, desired) && Round(h, bs, ds, desired)
    ensures cs == ds
  {
    hide IsCut;
    var w: nat, c, d :| Chosen(bs, w, desired) && IsCut(h, bs[w], c, d) && cs == bs[w := c] + [d];
    var w': nat, c', d' :| Chosen(bs, w', desired) && IsCut(h, bs[w'], c', d') && ds == bs[w' := c'] + [d'];
    ChosenUnique(bs, w, w', desired);
    hide Chosen;
    CutUnique(h, bs[w], c, d, c', d');
  }

  /** The rounds leave no choice: from the same first list they make the same lists. */
  lemma {:induction false} RoundsUnique(h: Histogram, run: seq<seq<Box>>, other: seq<seq<Box>>, desired: nat, k: nat)
    requires Rounds(h, run, desired) && Rounds(h, other, desired) && run != [] && other != [] && run[0] == other[0]
    requires k < |run| && k < |other|
    ensures run[k] == other[k]
  {
    hide Round;
    if k > 0 {
      RoundsUnique(h, run, other, desired, k - 1);
      assert Round(h, run[k - 1], run[k - 1 + 1], desired) && Round(h, other[k - 1], other[k - 1 + 1], desired);
      RoundUnique(h, run[k - 1], run[k], other[k], desired);
    }
  }

  /** Cuts a box in two along its longest side. */
  method CutBox(h: Histogram, b: Box) returns (c: Box, d: Box)
    requires Exact(h, b) && Splittable(b)
    ensures Exact(h, c) && Exact(h, d) && Apart(c, d) && Within(c, b) && Within(d, b)
    ensures forall x :: Used(h, b, x) ==> Contains(c, x) || Contains(d, x)
    ensures IsCut(h, b, c, d)
  {
    var a := LongestSide(b);
    assert Legal(b) && Norm(b) > 0;
    LongestIsCuttable(b);
    hide *;
    Halves(h, b, a);
    c := UpdateBox(h, LowerHalf(b, a));
    d := UpdateBox(h, UpperHalf(b, a));
    HalvesCover(h, b, a, c, d);
    CutIs(h, b, c, d);
  }

  /** Splits box w of the list; the new box goes to the end. */
  method SplitBox(h: Histogram, bs: array<Box>, n: nat, w: nat, ghost desired: nat)
    requires n < bs.Length && w < n && Partition(h, bs[..n]) && Splittable(bs[w]) && Chosen(bs[..n], w, desired)
    modifies bs
    ensures Partition(h, bs[..n + 1]) && Round(h, old(bs[..n]), bs[..n + 1], desired)
  {
    hide *;
    ghost var before := bs[..n];
    PartitionExact(h, before, w);
    var c, d := CutBox(h, bs[w]);
    bs[w], bs[n] := c, d;
    SplitKeepsPartition(h, before, w, c, d);
    assert bs[..n + 1] == before[w := c] + [d];
    RoundIs(h, before, w, c, d, desired);
  }

  lemma RoundIs(h: Histogram, bs: seq<Box>, w: nat, c: Box, d: Box, desired: nat)
    requires Chosen(bs, w, desired) && IsCut(h, bs[w], c, d)
    ensures Round(h, bs, bs[w := c] + [d], desired)
  {
    hide Chosen, IsCut;
  }

  lemma PartitionExact(h: Histogram, bs: seq<Box>, w: nat)
    requires Partition(h, bs) && w < |bs|
    ensures Exact(h, bs[w])
  {
  }

  lemma HalvesCover(h: Histogram, b: Box, a: Axis, c: Box, d: Box)
    requires Exact(h, b) && Coord(b.min, a) < Coord(b.max, a)
    requires SameUsed(h, LowerHalf(b, a), c) && Within(c, LowerHalf(b, a))
    requires SameUsed(h, UpperHalf(b, a), d) && Within(d, UpperHalf(b, a))
    ensures Apart(c, d) && Within(c, b) && Within(d, b)
    ensures forall x :: Used(h, b, x) ==> Contains(c, x) || Contains(d, x)
  {
    Halves(h, b, a);
    hide Exact, Contains, Count, LowerHalf, UpperHalf;
    forall x | Used(h, b, x) ensures Contains(c, x) || Contains(d, x) {
      assert Used(h, LowerHalf(b, a), x) || Used(h, UpperHalf(b, a), x);
    }
  }

  /** median_cut: from the first box on, round after round; stops early only when no box can be split any
      further, that is, when every used cell has a box of its own. */
  method MedianCut(h: Histogram, bs: array<Box>, desired: nat) returns (n: nat, ghost run: seq<seq<Box>>)
    requires 1 <= desired <= bs.Length && Partition(h, bs[..1])
    modifies bs
    ensures 1 <= n <= desired && Partition(h, bs[..n])
    ensures n < desired ==> forall i :: 0 <= i < n ==> bs[i].min == bs[i].max
    ensures |run| == n && run[0] == old(bs[..1]) && run[n - 1] == bs[..n] && Rounds(h, run, desired)
  {
    hide Partition, Round, Chosen;
    n := 1;
    run := [bs[..1]];
    while n < desired
      invariant 1 <= n <= desired && Partition(h, bs[..n])
      invariant |run| == n && run[0] == old(bs[..1]) && run[n - 1] == bs[..n] && Rounds(h, run, desired)
      decreases desired - n
    {
      var which;
      if n * 2 <= desired {
        which := BiggestPopulation(bs, n);
      } else {
        which := BiggestVolume(bs, n);
      }
      if which.None? {
        forall i | 0 <= i < n ensures bs[i].min == bs[i].max {
          PartitionExact(h, bs[..n], i);
          assert bs[..n][i] == bs[i];
          PopulatedSingle(h, bs[i]);
        }
        return;
      }
      ChosenIs(bs[..n], which.value, desired);
      SplitBox(h, bs, n, which.value, desired);
      OneMoreRound(h, run, bs[..n + 1], desired);
      n := n + 1;
      run := run + [bs[..n]];
    }
  }

  lemma ChosenIs(bs: seq<Box>, w: nat, desired: nat)
    requires w < |bs| && Splittable(bs[w])
    requires 2 * |bs| <= desired ==>
        && (forall i :: 0 <= i < |bs| && Splittable(bs[i]) ==> bs[i].colorcount <= bs[w].colorcount)
        && (forall i :: 0 <= i < w && Splittable(bs[i]) ==> bs[i].colorcount < bs[w].colorcount)
    requires 2 * |bs| > desired ==>
        && (forall i :: 0 <= i < |bs| ==> bs[i].volume <= bs[w].volume)
        && (forall i :: 0 <= i < w ==> bs[i].volume < bs[w].volume)
    ensures Chosen(bs, w, desired)
  {
  }

  lemma PopulatedSingle(h: Histogram, b: Box)
    requires Exact(h, b)
    ensures b.colorcount > 0
    ensures !Splittable(b) ==> b.min == b.max
  {
    SplittableIffVolume(b);
    var x :| Used(h, b, x) && Coord(x, A0) == Coord(b.min, A0);
    assert x in UsedCells(h, b);
  }

  // ---------------------------------------------------------------- representative colours

  /** s lists the used cells of b, each once. */
  ghost predicate Lists(h: Histogram, b: Box, s: seq<Cell>) {
    && (forall i :: 0 <= i < |s| ==> Used(h, b, s[i]))
    && (forall i, j :: 0 <= i < j < |s| ==> s[i] != s[j])
    && (forall x :: Used(h, b, x) ==> x in s)
  }

  function Total(h: Histogram, s: seq<Cell>): int
    requires forall x :: x in s ==> InRange(x)
  {
    if s == [] then 0 else Total(h, s[..|s| - 1]) + Count(h, s[|s| - 1])
  }

  /** Coordinate of a cell's centre. */
  function CenterOf(x: Cell, a: Axis): int {
    match a case A0 => Center(x).p0 case A1 => Center(x).p1 case A2 => Center(x).p2
  }

  function Weighted(h: Histogram, s: seq<Cell>, a: Axis): int
    requires forall x :: x in s ==> InRange(x)
  {
    if s == [] then 0 else Weighted(h, s[..|s| - 1], a) + CenterOf(s[|s| - 1], a) * Count(h, s[|s| - 1])
  }

  /** Counts are never negative. */
  ghost predicate Counts(h: Histogram) {
    forall x :: InRange(x) ==> Count(h, x) >= 0
  }

  /** The mean of centres weighted by pixels, rounded to nearest. */
  ghost predicate IsMean(h: Histogram, s: seq<Cell>, a: Axis, v: int)
    requires forall x :: x in s ==> InRange(x)
  {
    Total(h, s) > 0 && v == (Weighted(h, s, a) + Total(h, s) / 2) / Total(h, s)
  }

  lemma {:induction false} WeightedBounds(h: Histogram, b: Box, s: seq<Cell>, a: Axis)
    requires Counts(h) && Legal(b) && forall i :: 0 <= i < |s| ==> Used(h, b, s[i])
    ensures forall x :: x in s ==> InRange(x)
    ensures CenterOf(b.min, a) * Total(h, s) <= Weighted(h, s, a) <= CenterOf(b.max, a) * Total(h, s)
    ensures Total(h, s) >= |s|
  {
    if s != [] {
      var front, x := s[..|s| - 1], s[|s| - 1];
      WeightedBounds(h, b, front, a);
      assert Used(h, b, x) && Count(h, x) > 0;
      ProductBounds(CenterOf(b.min, a), CenterOf(x, a), CenterOf(b.max, a), Total(h, front), Count(h, x));
    }
  }

  lemma ProductBounds(lo: int, c: int, hi: int, t: int, n: int)
    requires lo <= c <= hi && n >= 0
    ensures lo * (t + n) == lo * t + lo * n && hi * (t + n) == hi * t + hi * n
    ensures lo * n <= c * n <= hi * n
  {
    assert (c - lo) * n >= 0 && (hi - c) * n >= 0;
  }

  lemma FloorAtLeast(n: int, t: int, lo: int)
    requires t > 0 && lo * t <= n
    ensures lo <= n / t
  {
    var d := lo - n / t;
    assert n == t * (n / t) + n % t;
    if d > 0 {
      ProductAtLeast(t, d);
    }
  }

  lemma FloorAtMost(n: int, t: int, hi: int)
    requires t > 0 && n < hi * t + t
    ensures n / t <= hi
  {
    var d := n / t - hi;
    assert n == t * (n / t) + n % t;
    if d > 0 {
      ProductAtLeast(t, d);
    }
  }

  lemma ProductAtLeast(t: int, d: int)
    requires t > 0 && d > 0
    ensures t * d >= t
  {
  }

  lemma MeanInside(w: int, t: int, lo: int, hi: int)
    requires t > 0 && lo * t <= w <= hi * t
    ensures lo <= (w + t / 2) / t <= hi
  {
    FloorAtLeast(w + t / 2, t, lo);
    FloorAtMost(w + t / 2, t, hi);
  }

  ghost predicate Inside(b: Box, c0: int, c1: int, c2: int) {
    && CenterOf(b.min, A0) <= c0 <= CenterOf(b.max, A0)
    && CenterOf(b.min, A1) <= c1 <= CenterOf(b.max, A1)
    && CenterOf(b.min, A2) <= c2 <= CenterOf(b.max, A2)
  }

  ghost predicate InsideBox(b: Box, c: Color) {
    Inside(b, c.c0, c.c1, c.c2)
  }

  lemma ExactIsUsed(h: Histogram, b: Box)
    requires Exact(h, b)
    ensures Legal(b) && exists x :: Used(h, b, x)
  {
  }

  lemma InsideIsColor(h: Histogram, b: Box, c0: int, c1: int, c2: int)
    requires Legal(b) && Inside(b, c0, c1, c2)
    ensures 0 <= c0 < 256 && 0 <= c1 < 256 && 0 <= c2 < 256 && InsideBox(b, Color(c0, c1, c2))
  {
  }

  /** compute_color: never divides by zero; the colour is the rounded weighted mean of the cell
      centres and lies inside the box. */
  method ComputeColor(h: Histogram, b: Box) returns (c0: int, c1: int, c2: int, ghost s: seq<Cell>)
    requires Counts(h) && Legal(b) && exists x :: Used(h, b, x)
    ensures Lists(h, b, s)
    ensures IsMean(h, s, A0, c0) && IsMean(h, s, A1, c1) && IsMean(h, s, A2, c2)
    ensures Inside(b, c0, c1, c2)
  {
    hide Weighted, Total, CenterOf, Count;
    var total, t0, t1, t2;
    total, t0, t1, t2, s := SumBox(h, b);
    ghost var x :| Used(h, b, x);
    assert x in s;
    WeightedBounds(h, b, s, A0);
    WeightedBounds(h, b, s, A1);
    WeightedBounds(h, b, s, A2);
    MeanInside(t0, total, CenterOf(b.min, A0), CenterOf(b.max, A0));
    MeanInside(t1, total, CenterOf(b.min, A1), CenterOf(b.max, A1));
    MeanInside(t2, total, CenterOf(b.min, A2), CenterOf(b.max, A2));
    c0 := (t0 + total / 2) / total;
    c1 := (t1 + total / 2) / total;
    c2 := (t2 + total / 2) / total;
  }

  /** Used cells listed so far, in visiting order. */
  ghost predicate ListsBefore(h: Histogram, b: Box, s: seq<Cell>, c0: int, c1: int, c2: int) {
    && (forall x :: x in s <==> Used(h, b, x) && Before(x, c0, c1, c2))
    && (forall i, j :: 0 <= i < j < |s| ==> s[i] != s[j])
  }

  ghost predicate Sums(h: Histogram, s: seq<Cell>, total: int, t0: int, t1: int, t2: int) {
    && (forall x :: x in s ==> InRange(x))
    && total == Total(h, s) && t0 == Weighted(h, s, A0) && t1 == Weighted(h, s, A1) && t2 == Weighted(h, s, A2)
  }

  lemma OneMore(h: Histogram, b: Box, s: seq<Cell>, x: Cell, total: int, t0: int, t1: int, t2: int)
    requires ListsBefore(h, b, s, x.h0, x.h1, x.h2) && Sums(h, s, total, t0, t1, t2) && Used(h, b, x)
    ensures ListsBefore(h, b, s + [x], x.h0, x.h1, x.h2 + 1)
    ensures var n := Count(h, x);
      Sums(h, s + [x], total + n, t0 + Center(x).p0 * n, t1 + Center(x).p1 * n, t2 + Center(x).p2 * n)
  {
    assert (s + [x])[..|s + [x]| - 1] == s;
  }

  lemma NoneMore(h: Histogram, b: Box, s: seq<Cell>, x: Cell)
    requires ListsBefore(h, b, s, x.h0, x.h1, x.h2) && InRange(x) && Count(h, x) == 0
    ensures ListsBefore(h, b, s, x.h0, x.h1, x.h2 + 1)
  {
  }

  lemma NextLine(h: Histogram, b: Box, s: seq<Cell>, c0: int, c1: int)
    requires ListsBefore(h, b, s, c0, c1, b.max.h2 + 1)
    ensures ListsBefore(h, b, s, c0, c1 + 1, b.min.h2)
  {
    hide Count;
  }

  lemma NextPlane(h: Histogram, b: Box, s: seq<Cell>, c0: int)
    requires ListsBefore(h, b, s, c0, b.max.h1 + 1, b.min.h2)
    ensures ListsBefore(h, b, s, c0 + 1, b.min.h1, b.min.h2)
  {
    hide Count;
  }

  lemma AllListed(h: Histogram, b: Box, s: seq<Cell>)
    requires ListsBefore(h, b, s, b.max.h0 + 1, b.min.h1, b.min.h2)
    ensures Lists(h, b, s)
  {
    hide Count;
    assert forall i :: 0 <= i < |s| ==> s[i] in s;
  }

  method SumBox(h: Histogram, b: Box) returns (total: int, t0: int, t1: int, t2: int, ghost s: seq<Cell>)
    requires Legal(b)
    ensures Lists(h, b, s) && Sums(h, s, total, t0, t1, t2)
  {
    total, t0, t1, t2, s := 0, 0, 0, 0, [];
    assert ListsBefore(h, b, s, b.min.h0, b.min.h1, b.min.h2);
    assert Sums(h, s, total, t0, t1, t2);
    hide ListsBefore, Sums, Lists;
    var c0 := b.min.h0;
    while c0 <= b.max.h0
      invariant b.min.h0 <= c0 <= b.max.h0 + 1
      invariant ListsBefore(h, b, s, c0, b.min.h1, b.min.h2) && Sums(h, s, total, t0, t1, t2)
    {
      var c1 := b.min.h1;
      while c1 <= b.max.h1
        invariant b.min.h1 <= c1 <= b.max.h1 + 1
        invariant ListsBefore(h, b, s, c0, c1, b.min.h2) && Sums(h, s, total, t0, t1, t2)
      {
        var c2 := b.min.h2;
        while c2 <= b.max.h2
          invariant b.min.h2 <= c2 <= b.max.h2 + 1
          invariant ListsBefore(h, b, s, c0, c1, c2) && Sums(h, s, total, t0, t1, t2)
        {
          var x := Cell(c0, c1, c2);
          var count := h[c0][c1][c2];
          if count != 0 {
            OneMore(h, b, s, x, total, t0, t1, t2);
            s := s + [x];
            total := total + count;
            t0 := t0 + (c0 * 8 + 4) * count;
            t1 := t1 + (c1 * 4 + 2) * count;
            t2 := t2 + (c2 * 8 + 4) * count;
          } else {
            NoneMore(h, b, s, x);
          }
          c2 := c2 + 1;
        }
        NextLine(h, b, s, c0, c1);
        c1 := c1 + 1;
      }
      NextPlane(h, b, s, c0);
      c0 := c0 + 1;
    }
    AllListed(h, b, s);
  }

  // ---------------------------------------------------------------- select_colors

  lemma WholePartition(h: Histogram, b: Box)
    requires Exact(h, b) && SameUsed(h, WholeSpace(), b)
    ensures Partition(h, [b])
  {
    hide Count, Exact, UsedCells;
    assert Separate(h, [b]);
    forall x | InRange(x) && Count(h, x) != 0 ensures Held([b], x) {
      assert Used(h, WholeSpace(), x);
      assert Used(h, b, x);
      assert Contains([b][0], x);
    }
  }

  /** The box of the whole space, shrunk. */
  method FirstBox(h: Histogram) returns (b: Box)
    requires exists x :: InRange(x) && Count(h, x) != 0
    ensures Partition(h, [b])
  {
    b := UpdateBox(h, WholeSpace());
    ghost var x :| InRange(x) && Count(h, x) != 0;
    assert Used(h, WholeSpace(), x);
    hide *;
    WholePartition(h, b);
  }

  /** The colour is the rounded mean of the centres of the box's used cells, weighted by their pixels. */
  ghost predicate MeanOf(h: Histogram, b: Box, c: Color) {
    exists s :: Lists(h, b, s) && IsMean(h, s, A0, c.c0) && IsMean(h, s, A1, c.c1) && IsMean(h, s, A2, c.c2)
  }

  lemma MeanIs(h: Histogram, b: Box, s: seq<Cell>, c: Color)
    requires Lists(h, b, s) && IsMean(h, s, A0, c.c0) && IsMean(h, s, A1, c.c1) && IsMean(h, s, A2, c.c2)
    ensures MeanOf(h, b, c)
  {
  }

  /** The boxes come from the exact box of all used cells, round after round. */
  ghost predicate MadeByRounds(h: Histogram, boxes: seq<Box>, run: seq<seq<Box>>, desired: nat) {
    && |run| == |boxes| > 0 && |run[0]| == 1 && Partition(h, run[0]) && run[|run| - 1] == boxes
    && Rounds(h, run, desired)
  }

  lemma MadeIs(h: Histogram, boxes: seq<Box>, run: seq<seq<Box>>, desired: nat)
    requires |run| == |boxes| > 0 && |run[0]| == 1 && Partition(h, run[0]) && run[|run| - 1] == boxes
    requires Rounds(h, run, desired)
    ensures MadeByRounds(h, boxes, run, desired)
  {
    hide Rounds, Partition;
  }

  /** select_colors: the colormap has one colour per box of a partition of the used cells, made by cutting the
      box of all of them round after round; the colour is the mean of the box's cells and inside the box. There
      are fewer than desired only if every used cell has its own. */
  method SelectColors(h: Histogram, desired: nat)
    returns (m: Colormap, ghost boxes: seq<Box>, ghost run: seq<seq<Box>>)
    requires 1 <= desired <= 256 && Counts(h)
    requires exists x :: InRange(x) && Count(h, x) != 0
    ensures |m| == |boxes| <= desired
    ensures |m| < desired ==> forall i :: 0 <= i < |m| ==> boxes[i].min == boxes[i].max
    ensures forall i :: 0 <= i < |m| ==> InsideBox(boxes[i], m[i]) && MeanOf(h, boxes[i], m[i])
    ensures TotalCount(boxes) == |AllUsed(h)|
    ensures Partition(h, boxes)
    ensures MadeByRounds(h, boxes, run, desired)
  {
    hide *;
    var bs := new Box[desired];
    var b := FirstBox(h);
    bs[0] := b;
    assert bs[..1] == [b];
    var n;
    n, run := MedianCut(h, bs, desired);
    boxes := bs[..n];
    MadeIs(h, boxes, run, desired);
    PartitionTotal(h, boxes);
    m := ColorsOf(h, bs[..n]);
  }

  /** The loop over compute_color. */
  method ColorsOf(h: Histogram, boxes: seq<Box>) returns (m: seq<Color>)
    requires Counts(h) && Partition(h, boxes)
    ensures |m| == |boxes| && forall i :: 0 <= i < |m| ==> InsideBox(boxes[i], m[i]) && MeanOf(h, boxes[i], m[i])
  {
    hide *;
    m := [];
    while |m| < |boxes|
      invariant |m| <= |boxes| && forall k :: 0 <= k < |m| ==> InsideBox(boxes[k], m[k]) && MeanOf(h, boxes[k], m[k])
    {
      PartitionExact(h, boxes, |m|);
      ExactIsUsed(h, boxes[|m|]);
      var c0, c1, c2, s := ComputeColor(h, boxes[|m|]);
      InsideIsColor(h, boxes[|m|], c0, c1, c2);
      MeanIs(h, boxes[|m|], s, Color(c0, c1, c2));
      m := m + [Color(c0, c1, c2)];
    }
  }
}
