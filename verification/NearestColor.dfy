/** Which colormap entry is nearest to which cell of the colour space: the definition, the
    locality criterion that prunes candidates, and the incremental distance computation. */
module NearestColor {
  import opened Bits

  type Sample = x: int | 0 <= x < 256

  datatype Color = Color(c0: Sample, c1: Sample, c2: Sample)

  /** At most MAXNUMCOLORS entries. */
  type Colormap = m: seq<Color> | 1 <= |m| <= 256 witness [Color(0, 0, 0)]

  /** A point of the colour space. */
  datatype Point = Point(p0: int, p1: int, p2: int)

  // scale factors of the three axes
  const SCALE0 := 2
  const SCALE1 := 3
  const SCALE2 := 1

  function Sq(x: int): (s: int)
  {
    x * x
  }

  /** The contribution of one axis. */
  function Term(x: int, p: int, scale: int): int {
    Sq((p - x) * scale)
  }

  /** Scaled squared distance. */
  function Dist(c: Color, p: Point): int {
    Term(c.c0, p.p0, SCALE0) + Term(c.c1, p.p1, SCALE1) + Term(c.c2, p.p2, SCALE2)
  }

  /** i is the lowest index among the entries nearest to p. */
  ghost predicate IsNearest(m: Colormap, p: Point, i: nat) {
    && i < |m|
    && (forall j :: 0 <= j < |m| ==> Dist(m[i], p) <= Dist(m[j], p))
    && (forall j :: 0 <= j < i ==> Dist(m[i], p) < Dist(m[j], p))
  }

  /** The axes weigh 2, 3 and 1: steps of 3, 2 and 6 samples along them are equally far, and along the third the
      distance is the plain one. */
  lemma AxisWeights(c: Color, d: int)
    ensures var p := Point(c.c0, c.c1, c.c2);
      && Dist(c, p) == 0
      && Dist(c, p.(p0 := c.c0 + 3 * d)) == Dist(c, p.(p1 := c.c1 + 2 * d)) == Dist(c, p.(p2 := c.c2 + 6 * d))
      && Dist(c, p.(p2 := c.c2 + d)) == d * d
  {
  }

  lemma NearestUnique(m: Colormap, p: Point, i: nat, j: nat)
    requires IsNearest(m, p, i) && IsNearest(m, p, j)
    ensures i == j
  {
    hide Dist;
    assert Dist(m[i], p) <= Dist(m[j], p) && Dist(m[j], p) <= Dist(m[i], p);
  }

  // ---------------------------------------------------------------- squares

  lemma SqGrows(a: int, b: int)
    requires 0 <= a <= b
    ensures Sq(a) <= Sq(b)
  {
    assert b * b == a * a + (b - a) * (a + b);
  }

  lemma SqSign(a: int)
    ensures Sq(-a) == Sq(a) && Sq(a) >= 0
  {
  }

  /** Squares order by magnitude. */
  lemma SqOrder(a: int, b: int)
    requires -b <= a <= b || b <= a <= -b
    ensures Sq(a) <= Sq(b)
  {
    SqSign(a);
    SqSign(b);
    SqGrows(if a < 0 then -a else a, if b < 0 then -b else b);
  }

  // ---------------------------------------------------------------- the locality criterion

  /** Distance contributions of one axis: least and greatest over lo..hi. */
  method AxisDistances(x: Sample, lo: int, hi: int, scale: int) returns (near: int, far: int)
    requires lo <= hi && 1 <= scale <= 3
    requires 0 <= lo && hi <= 255
    ensures forall p :: lo <= p <= hi ==> near <= Term(x, p, scale) <= far
    ensures far <= Sq(255 * scale)
  {
    var center := (lo + hi) / 2;
    var nearest, farthest;
    if x < lo {
      nearest, farthest := lo, hi;
    } else if x > hi {
      nearest, farthest := hi, lo;
    } else {
      nearest := x;
      farthest := if x <= center then hi else lo;
    }
    near := Term(x, nearest, scale);
    far := Term(x, farthest, scale);
    AxisBounds(x, lo, hi, scale, nearest, farthest);
  }

  lemma AxisBounds(x: Sample, lo: int, hi: int, scale: int, nearest: int, farthest: int)
    requires 0 <= lo <= hi <= 255 && 1 <= scale <= 3
    requires nearest == (if x < lo then lo else if x > hi then hi else x)
    requires farthest == (if x < lo then hi else if x > hi then lo else if x <= (lo + hi) / 2 then hi else lo)
    ensures forall p :: lo <= p <= hi ==> Term(x, nearest, scale) <= Term(x, p, scale) <= Term(x, farthest, scale)
    ensures Term(x, farthest, scale) <= Sq(255 * scale)
  {
    forall p | lo <= p <= hi
      ensures Term(x, nearest, scale) <= Term(x, p, scale) <= Term(x, farthest, scale)
    {
      SqOrder((nearest - x) * scale, (p - x) * scale);
      SqOrder((p - x) * scale, (farthest - x) * scale);
    }
    SqOrder((farthest - x) * scale, 255 * scale);
  }

  /** The cell centres of an update box lie in this volume, whose lower corner is lo. */
  ghost predicate InBox(lo: Point, p: Point) {
    lo.p0 <= p.p0 <= lo.p0 + 24 && lo.p1 <= p.p1 <= lo.p1 + 28 && lo.p2 <= p.p2 <= lo.p2 + 24
  }

  ghost predicate BoxOk(lo: Point) {
    0 <= lo.p0 <= 231 && 0 <= lo.p1 <= 227 && 0 <= lo.p2 <= 231
  }

  /** near and far bracket the distances from c to the points of the box. */
  ghost predicate Brackets(c: Color, lo: Point, near: int, far: int) {
    && (forall p :: InBox(lo, p) ==> near <= Dist(c, p) <= far)
    && far < 0x7FFFFFFF
  }

  method BoxDistances(c: Color, lo: Point) returns (near: int, far: int)
    requires BoxOk(lo)
    ensures Brackets(c, lo, near, far)
  {
    var n0, f0 := AxisDistances(c.c0, lo.p0, lo.p0 + 24, SCALE0);
    var n1, f1 := AxisDistances(c.c1, lo.p1, lo.p1 + 28, SCALE1);
    var n2, f2 := AxisDistances(c.c2, lo.p2, lo.p2 + 24, SCALE2);
    near, far := n0 + n1 + n2, f0 + f1 + f2;
    assert Sq(255 * SCALE0) == 260100 && Sq(255 * SCALE1) == 585225 && Sq(255 * SCALE2) == 65025;
    forall p | InBox(lo, p) ensures near <= Dist(c, p) <= far {
      assert n0 <= Term(c.c0, p.p0, SCALE0) <= f0;
      assert n1 <= Term(c.c1, p.p1, SCALE1) <= f1;
      assert n2 <= Term(c.c2, p.p2, SCALE2) <= f2;
    }
  }

  /** The candidate list is complete and in index order. */
  ghost predicate Candidates(m: Colormap, lo: Point, list: seq<nat>) {
    && (forall k :: 0 <= k < |list| ==> list[k] < |m|)
    && (forall k, l :: 0 <= k < l < |list| ==> list[k] < list[l])
    && (forall p: Point, i: nat :: InBox(lo, p) && IsNearest(m, p, i) ==> i in list)
  }

  /** find_nearby_colors: drops the entries that cannot be nearest anywhere in the box. */
  method FindNearbyColors(m: Colormap, lo: Point) returns (list: seq<nat>)
    requires BoxOk(lo)
    ensures Candidates(m, lo, list)
  {
    var mindist := new int[|m|];
    var minmaxdist := 0x7FFFFFFF;
    ghost var best: nat := 0;
    var i := 0;
    while i < |m|
      invariant 0 <= i <= |m|
      invariant forall k, p :: 0 <= k < i && InBox(lo, p) ==> mindist[k] <= Dist(m[k], p)
      invariant i > 0 ==> best < i && forall p :: InBox(lo, p) ==> Dist(m[best], p) <= minmaxdist
      invariant i == 0 ==> minmaxdist == 0x7FFFFFFF
    {
      var near, far := BoxDistances(m[i], lo);
      mindist[i] := near;
      if far < minmaxdist {
        minmaxdist := far;
        best := i;
      }
      i := i + 1;
    }
    list := [];
    i := 0;
    while i < |m|
      invariant 0 <= i <= |m|
      invariant forall k :: 0 <= k < |list| ==> list[k] < i
      invariant forall k, l :: 0 <= k < l < |list| ==> list[k] < list[l]
      invariant forall k :: 0 <= k < i && mindist[k] <= minmaxdist ==> k in list
    {
      if mindist[i] <= minmaxdist {
        list := list + [i];
      }
      i := i + 1;
    }
    forall p: Point, j: nat | InBox(lo, p) && IsNearest(m, p, j) ensures j in list {
      assert mindist[j] <= Dist(m[j], p) <= Dist(m[best], p) <= minmaxdist;
    }
  }

  // ---------------------------------------------------------------- incremental distances

  // steps between cell centres, scaled
  const STEP0 := 16
  const STEP1 := 12
  const STEP2 := 8

  const CELLS := 128

  /** Cell k of an update box, in the order of the work arrays. */
  function CellPoint(lo: Point, k: nat): Point {
    Point(lo.p0 + k / 32 * 8, lo.p1 + k / 4 % 8 * 4, lo.p2 + k % 4 * 8)
  }

  lemma CellInBox(lo: Point, k: nat)
    requires k < CELLS
    ensures InBox(lo, CellPoint(lo, k))
  {
  }

  /** The second difference of a square is constant. */
  lemma SqStep(a: int, s: int, k: int)
    ensures Sq(a + s * (k + 1)) == Sq(a + s * k) + (a * (2 * s) + s * s) + k * (2 * s * s)
  {
    var t := a + s * k;
    assert a + s * (k + 1) == t + s;
    assert Sq(t + s) == Sq(t) + 2 * (t * s) + s * s;
    assert t * s == a * s + s * k * s;
    assert s * k * s == k * (s * s);
  }

  /** The distance to cell k, axis by axis, with a the scaled differences at the box corner. */
  lemma DistAt(c: Color, lo: Point, k: nat)
    ensures Dist(c, CellPoint(lo, k)) ==
      Sq((lo.p0 - c.c0) * SCALE0 + STEP0 * (k / 32))
        + Sq((lo.p1 - c.c1) * SCALE1 + STEP1 * (k / 4 % 8)) + Sq((lo.p2 - c.c2) * SCALE2 + STEP2 * (k % 4))
  {
    var q := CellPoint(lo, k);
    assert (q.p0 - c.c0) * SCALE0 == (lo.p0 - c.c0) * SCALE0 + STEP0 * (k / 32);
    assert (q.p1 - c.c1) * SCALE1 == (lo.p1 - c.c1) * SCALE1 + STEP1 * (k / 4 % 8);
    assert (q.p2 - c.c2) * SCALE2 == (lo.p2 - c.c2) * SCALE2 + STEP2 * (k % 4);
  }

  /** The cell keeps the better of what it had and colour icolor at distance d. */
  ghost predicate Improved(bd: int, bc: nat, bd0: int, bc0: nat, d: int, icolor: nat) {
    if d < bd0 then bd == d && bc == icolor else bd == bd0 && bc == bc0
  }

  /** The inner loop: four cells along axis 2. */
  method ScanRow(c: Color, lo: Point, icolor: nat, start: nat, dist: int, inc: int, bestdist: array<int>,
      bestcolor: array<nat>)
    requires bestdist.Length == CELLS && bestcolor.Length == CELLS && start % 4 == 0 && start + 4 <= CELLS
    requires dist == Dist(c, CellPoint(lo, start)) && inc == (lo.p2 - c.c2) * SCALE2 * (2 * STEP2) + STEP2 * STEP2
    modifies bestdist, bestcolor
    ensures forall k :: start <= k < start + 4 ==>
        Improved(bestdist[k], bestcolor[k], old(bestdist[k]), old(bestcolor[k]), Dist(c, CellPoint(lo, k)), icolor)
    ensures forall k :: 0 <= k < CELLS && !(start <= k < start + 4) ==>
        bestdist[k] == old(bestdist[k]) && bestcolor[k] == old(bestcolor[k])
  {
    hide Dist, CellPoint;
    var dist2, xx2, b := dist, inc, start;
    while b < start + 4
      invariant start <= b <= start + 4
      invariant b < start + 4 ==> dist2 == Dist(c, CellPoint(lo, b))
      invariant xx2 == inc + (b - start) * (2 * STEP2 * STEP2)
      invariant forall k :: start <= k < b ==>
          Improved(bestdist[k], bestcolor[k], old(bestdist[k]), old(bestcolor[k]), Dist(c, CellPoint(lo, k)), icolor)
      invariant forall k :: 0 <= k < CELLS && !(start <= k < b) ==>
          bestdist[k] == old(bestdist[k]) && bestcolor[k] == old(bestcolor[k])
    {
      if dist2 < bestdist[b] {
        bestdist[b] := dist2;
        bestcolor[b] := icolor;
      }
      if b + 1 < start + 4 { StepAlong2(c, lo, start, b); }
      dist2 := dist2 + xx2;
      xx2 := xx2 + 2 * STEP2 * STEP2;
      b := b + 1;
    }
  }

  lemma ColumnIndexes(start: nat, b: nat)
    requires start % 4 == 0 && start <= b && b + 1 < start + 4
    ensures b % 4 == b - start && (b + 1) % 4 == b % 4 + 1
    ensures (b + 1) / 4 == b / 4 && (b + 1) / 32 == b / 32
  {
    var q, t := start / 4, b - start;
    assert b == 4 * q + t && t <= 2;
  }

  lemma StepAlong2(c: Color, lo: Point, start: nat, b: nat)
    requires start % 4 == 0 && start <= b && b + 1 < start + 4
    ensures Dist(c, CellPoint(lo, b + 1)) ==
      Dist(c, CellPoint(lo, b)) + ((lo.p2 - c.c2) * SCALE2 * (2 * STEP2) + STEP2 * STEP2)
        + (b - start) * (2 * STEP2 * STEP2)
  {
    hide Dist, CellPoint, Sq;
    DistAt(c, lo, b);
    DistAt(c, lo, b + 1);
    SqStep((lo.p2 - c.c2) * SCALE2, STEP2, b % 4);
    ColumnIndexes(start, b);
  }

  lemma RowIndexes(start: nat, b: nat)
    requires start % 32 == 0 && b % 4 == 0 && start <= b && b + 4 < start + 32
    ensures b / 4 % 8 == (b - start) / 4 && (b + 4) / 4 % 8 == (b - start) / 4 + 1
    ensures (b + 4) % 4 == 0 && (b + 4) / 32 == b / 32
  {
    var q, t := start / 32, (b - start) / 4;
    assert b == 32 * q + 4 * t && t <= 6;
    DivUnique(b, 4, 8 * q + t, 0);
    DivUnique(b + 4, 4, 8 * q + t + 1, 0);
    DivUnique(8 * q + t, 8, q, t);
    DivUnique(8 * q + t + 1, 8, q, t + 1);
    DivUnique(b, 32, q, 4 * t);
    DivUnique(b + 4, 32, q, 4 * t + 4);
  }

  lemma StepAlong1(c: Color, lo: Point, start: nat, b: nat)
    requires start % 32 == 0 && b % 4 == 0 && start <= b && b + 4 < start + 32
    ensures Dist(c, CellPoint(lo, b + 4)) ==
      Dist(c, CellPoint(lo, b)) + ((lo.p1 - c.c1) * SCALE1 * (2 * STEP1) + STEP1 * STEP1)
        + (b - start) / 4 * (2 * STEP1 * STEP1)
  {
    hide Dist, CellPoint, Sq;
    DistAt(c, lo, b);
    DistAt(c, lo, b + 4);
    SqStep((lo.p1 - c.c1) * SCALE1, STEP1, b / 4 % 8);
    RowIndexes(start, b);
  }

  lemma StepAlong0(c: Color, lo: Point, b: nat)
    requires b % 32 == 0
    ensures Dist(c, CellPoint(lo, b + 32)) ==
      Dist(c, CellPoint(lo, b)) + ((lo.p0 - c.c0) * SCALE0 * (2 * STEP0) + STEP0 * STEP0) + b / 32 * (2 * STEP0 * STEP0)
  {
    hide Dist, CellPoint, Sq;
    DistAt(c, lo, b);
    DistAt(c, lo, b + 32);
    SqStep((lo.p0 - c.c0) * SCALE0, STEP0, b / 32);
    assert (b + 32) / 32 == b / 32 + 1 && (b + 32) % 4 == b % 4 && (b + 32) / 4 % 8 == b / 4 % 8;
  }

  lemma NextRow(start: nat, b: nat)
    requires start % 32 == 0 && b % 4 == 0 && start <= b
    ensures (b + 4 - start) / 4 == (b - start) / 4 + 1 && (b + 4) % 4 == 0
  {
    DivUnique(b + 4, 4, b / 4 + 1, 0);
    DivUnique(b - start, 4, b / 4 - 8 * (start / 32), 0);
    DivUnique(b + 4 - start, 4, b / 4 + 1 - 8 * (start / 32), 0);
  }

  /** The middle loop: eight rows along axis 1. */
  method ScanPlane(c: Color, lo: Point, icolor: nat, start: nat, dist: int, inc1: int, inc2: int, bestdist: array<int>,
      bestcolor: array<nat>)
    requires bestdist.Length == CELLS && bestcolor.Length == CELLS && start % 32 == 0 && start + 32 <= CELLS
    requires dist == Dist(c, CellPoint(lo, start)) && inc1 == (lo.p1 - c.c1) * SCALE1 * (2 * STEP1) + STEP1 * STEP1
    requires inc2 == (lo.p2 - c.c2) * SCALE2 * (2 * STEP2) + STEP2 * STEP2
    modifies bestdist, bestcolor
    ensures forall k :: start <= k < start + 32 ==>
        Improved(bestdist[k], bestcolor[k], old(bestdist[k]), old(bestcolor[k]), Dist(c, CellPoint(lo, k)), icolor)
    ensures forall k :: 0 <= k < CELLS && !(start <= k < start + 32) ==>
        bestdist[k] == old(bestdist[k]) && bestcolor[k] == old(bestcolor[k])
  {
    hide Dist, CellPoint;
    var dist1, xx1, b := dist, inc1, start;
    while b < start + 32
      invariant start <= b <= start + 32 && b % 4 == 0
      invariant b < start + 32 ==> dist1 == Dist(c, CellPoint(lo, b))
      invariant xx1 == inc1 + (b - start) / 4 * (2 * STEP1 * STEP1)
      invariant forall k :: start <= k < b ==>
          Improved(bestdist[k], bestcolor[k], old(bestdist[k]), old(bestcolor[k]), Dist(c, CellPoint(lo, k)), icolor)
      invariant forall k :: 0 <= k < CELLS && !(start <= k < b) ==>
          bestdist[k] == old(bestdist[k]) && bestcolor[k] == old(bestcolor[k])
    {
      ScanRow(c, lo, icolor, b, dist1, inc2, bestdist, bestcolor);
      if b + 4 < start + 32 { StepAlong1(c, lo, start, b); }
      NextRow(start, b);
      dist1 := dist1 + xx1;
      xx1 := xx1 + 2 * STEP1 * STEP1;
      b := b + 4;
    }
  }

  /** The outer loop: four planes along axis 0. */
  method ScanColor(c: Color, lo: Point, icolor: nat, bestdist: array<int>, bestcolor: array<nat>)
    requires bestdist.Length == CELLS && bestcolor.Length == CELLS
    modifies bestdist, bestcolor
    ensures forall k :: 0 <= k < CELLS ==>
        Improved(bestdist[k], bestcolor[k], old(bestdist[k]), old(bestcolor[k]), Dist(c, CellPoint(lo, k)), icolor)
  {
    var inc0, inc1, inc2 := (lo.p0 - c.c0) * SCALE0, (lo.p1 - c.c1) * SCALE1, (lo.p2 - c.c2) * SCALE2;
    var dist0 := Sq(inc0) + Sq(inc1) + Sq(inc2);
    assert dist0 == Dist(c, CellPoint(lo, 0));
    hide Dist, CellPoint, Sq;
    inc0 := inc0 * (2 * STEP0) + STEP0 * STEP0;
    inc1 := inc1 * (2 * STEP1) + STEP1 * STEP1;
    inc2 := inc2 * (2 * STEP2) + STEP2 * STEP2;
    var xx0, b := inc0, 0;
    while b < CELLS
      invariant 0 <= b <= CELLS && b % 32 == 0
      invariant b < CELLS ==> dist0 == Dist(c, CellPoint(lo, b))
      invariant xx0 == inc0 + b / 32 * (2 * STEP0 * STEP0)
      invariant forall k :: 0 <= k < b ==>
          Improved(bestdist[k], bestcolor[k], old(bestdist[k]), old(bestcolor[k]), Dist(c, CellPoint(lo, k)), icolor)
      invariant forall k :: b <= k < CELLS ==> bestdist[k] == old(bestdist[k]) && bestcolor[k] == old(bestcolor[k])
    {
      ScanPlane(c, lo, icolor, b, dist0, inc1, inc2, bestdist, bestcolor);
      StepAlong0(c, lo, b);
      dist0 := dist0 + xx0;
      xx0 := xx0 + 2 * STEP0 * STEP0;
      b := b + 32;
    }
  }

  /** bc is the first of the first n candidates to be as near to p as any of them, at distance bd. */
  ghost predicate BestSoFar(m: Colormap, p: Point, list: seq<nat>, n: nat, bd: int, bc: nat)
    requires forall k :: 0 <= k < |list| ==> list[k] < |m|
  {
    n <= |list| &&
    if n == 0 then bd == 0x7FFFFFFF
    else
      && bc < |m| && bd == Dist(m[bc], p) && bc in list[..n]
      && forall k :: 0 <= k < n ==> bd <= Dist(m[list[k]], p) && (list[k] < bc ==> bd < Dist(m[list[k]], p))
  }

  /** The same, after the whole list. */
  ghost predicate BestOf(m: Colormap, p: Point, list: seq<nat>, bc: nat)
    requires forall k :: 0 <= k < |list| ==> list[k] < |m|
  {
    exists bd :: BestSoFar(m, p, list, |list|, bd, bc)
  }

  lemma DistSmall(c: Color, p: Point)
    requires 0 <= p.p0 <= 255 && 0 <= p.p1 <= 255 && 0 <= p.p2 <= 255
    ensures 0 <= Dist(c, p) < 0x7FFFFFFF
  {
    SqOrder((p.p0 - c.c0) * SCALE0, 510);
    SqOrder((p.p1 - c.c1) * SCALE1, 765);
    SqOrder((p.p2 - c.c2) * SCALE2, 255);
    SqSign((p.p0 - c.c0) * SCALE0);
    SqSign((p.p1 - c.c1) * SCALE1);
    SqSign((p.p2 - c.c2) * SCALE2);
    assert Sq(510) == 260100 && Sq(765) == 585225 && Sq(255) == 65025;
  }

  lemma OneMoreCandidate(m: Colormap, p: Point, list: seq<nat>, n: nat, bd0: int, bc0: nat, bd: int, bc: nat)
    requires forall k :: 0 <= k < |list| ==> list[k] < |m|
    requires forall k, l :: 0 <= k < l < |list| ==> list[k] < list[l]
    requires n < |list| && BestSoFar(m, p, list, n, bd0, bc0) && Dist(m[list[n]], p) < 0x7FFFFFFF
    requires Improved(bd, bc, bd0, bc0, Dist(m[list[n]], p), list[n])
    ensures BestSoFar(m, p, list, n + 1, bd, bc)
  {
    hide Dist;
    assert list[..n + 1] == list[..n] + [list[n]];
  }

  /** find_best_colors: for every cell of the box, the first nearest of the candidates. */
  method FindBestColors(m: Colormap, lo: Point, list: seq<nat>, bestcolor: array<nat>)
    requires BoxOk(lo) && bestcolor.Length == CELLS
    requires forall k :: 0 <= k < |list| ==> list[k] < |m|
    requires forall k, l :: 0 <= k < l < |list| ==> list[k] < list[l]
    modifies bestcolor
    ensures forall k :: 0 <= k < CELLS ==> BestOf(m, CellPoint(lo, k), list, bestcolor[k])
  {
    hide Dist, CellPoint;
    var bestdist := new int[CELLS](_ => 0x7FFFFFFF);
    var i := 0;
    while i < |list|
      invariant 0 <= i <= |list|
      invariant forall k :: 0 <= k < CELLS ==> BestSoFar(m, CellPoint(lo, k), list, i, bestdist[k], bestcolor[k])
    {
      ghost var bd0, bc0 := bestdist[..], bestcolor[..];
      ScanColor(m[list[i]], lo, list[i], bestdist, bestcolor);
      forall k | 0 <= k < CELLS ensures BestSoFar(m, CellPoint(lo, k), list, i + 1, bestdist[k], bestcolor[k]) {
        CellInBox(lo, k);
        DistSmall(m[list[i]], CellPoint(lo, k));
        OneMoreCandidate(m, CellPoint(lo, k), list, i, bd0[k], bc0[k], bestdist[k], bestcolor[k]);
      }
      i := i + 1;
    }
    forall k | 0 <= k < CELLS ensures BestOf(m, CellPoint(lo, k), list, bestcolor[k]) {
      assert BestSoFar(m, CellPoint(lo, k), list, |list|, bestdist[k], bestcolor[k]);
    }
  }

  /** Pruning drops no winner: the best candidate is the nearest of the whole colormap. */
  lemma BestIsNearest(m: Colormap, lo: Point, p: Point, list: seq<nat>, bc: nat)
    requires Candidates(m, lo, list) && InBox(lo, p) && BestOf(m, p, list, bc)
    ensures IsNearest(m, p, bc)
  {
    hide Dist;
    var bd :| BestSoFar(m, p, list, |list|, bd, bc);
    var i := NearestExists(m, p, |m|);
    assert i in list;
    var k :| 0 <= k < |list| && list[k] == i;
    assert bd <= Dist(m[i], p);
    assert bc in list;
    var l :| 0 <= l < |list| && list[l] == bc;
    assert i == bc;
  }

  lemma {:induction false} NearestExists(m: Colormap, p: Point, n: nat) returns (i: nat)
    requires 1 <= n <= |m|
    ensures i < n && IsNearest(m[..n], p, i)
    ensures n == |m| ==> IsNearest(m, p, i)
  {
    hide Dist;
    if n == 1 {
      i := 0;
    } else {
      i := NearestExists(m, p, n - 1);
      if Dist(m[n - 1], p) < Dist(m[i], p) {
        assert forall j :: 0 <= j < n - 1 ==> m[..n - 1][j] == m[j];
        i := n - 1;
      } else {
        assert forall j :: 0 <= j < n - 1 ==> m[..n - 1][j] == m[j];
      }
    }
    assert n == |m| ==> m[..n] == m;
  }
}
