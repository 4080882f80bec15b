/** The colour map of the one-pass quantizer: a grid of equally spaced levels per component, and
    the tables that find a pixel's grid point by addition. */
module OnePassMap {
  import opened Wrappers
  import opened Bits
  import opened NearestColor

  // ---------------------------------------------------------------- levels of one component

  /** j'th of maxj + 1 equally spaced values from 0 to 255. */
  function OutputValue(j: nat, maxj: nat): int
    requires maxj >= 1
  {
    (j * 255 + maxj / 2) / maxj
  }

  /** The largest input value that maps to level j. */
  function LargestInput(j: nat, maxj: nat): int
    requires maxj >= 1
  {
    ((2 * j + 1) * 255 + maxj) / (2 * maxj)
  }

  /** What the divisions mean, as products. */
  lemma OutputBounds(j: nat, maxj: nat)
    requires maxj >= 1
    ensures var q := OutputValue(j, maxj);
      maxj * q <= j * 255 + maxj / 2 < maxj * q + maxj
  {
    var n := j * 255 + maxj / 2;
    assert n == maxj * (n / maxj) + n % maxj;
  }

  lemma InputBounds(j: nat, maxj: nat)
    requires maxj >= 1
    ensures var b := LargestInput(j, maxj);
      2 * (maxj * b) <= (2 * j + 1) * 255 + maxj < 2 * (maxj * b) + 2 * maxj
  {
    var n := (2 * j + 1) * 255 + maxj;
    assert n == (2 * maxj) * (n / (2 * maxj)) + n % (2 * maxj);
    ProductAssoc(2, maxj, n / (2 * maxj));
  }

  lemma OutputEnds(maxj: nat)
    requires maxj >= 1
    ensures OutputValue(0, maxj) == 0 && OutputValue(maxj, maxj) == 255
  {
    DivUnique(maxj / 2, maxj, 0, maxj / 2);
    DivUnique(maxj * 255 + maxj / 2, maxj, 255, maxj / 2);
  }

  lemma OutputNext(j: nat, maxj: nat)
    requires 1 <= maxj <= 255
    ensures OutputValue(j, maxj) < OutputValue(j + 1, maxj)
  {
    OutputBounds(j, maxj);
    OutputBounds(j + 1, maxj);
    var q, r := OutputValue(j, maxj), OutputValue(j + 1, maxj);
    hide OutputValue;
    assert maxj * (r - q) == maxj * r - maxj * q;
    Scaled(maxj, r - q);
  }

  /** The levels start at 0, end at 255 and increase strictly. */
  lemma LevelsIncrease(j: nat, maxj: nat)
    requires 1 <= maxj <= 255 && j < maxj
    ensures OutputValue(0, maxj) == 0 && OutputValue(maxj, maxj) == 255
    ensures 0 <= OutputValue(j, maxj) < OutputValue(j + 1, maxj) <= 255
  {
    hide OutputValue;
    OutputEnds(maxj);
    OutputNext(j, maxj);
    LevelsMonotone(0, j, maxj);
    LevelsMonotone(j + 1, maxj, maxj);
  }

  /** A product above -d has a nonnegative factor. */
  lemma Scaled(d: nat, e: int)
    requires d >= 1
    ensures d * e > 0 - d ==> e >= 0
    ensures d * e > 0 ==> e > 0
    ensures d * e < d ==> e <= 0
    ensures d * e < 2 * d ==> e <= 1
  {
    MultipleGrows(d, e);
    MultipleGrows(d, e - 1);
    assert d * (e - 1) == d * e - d;
  }

  /** Level val is the one chosen for input x. */
  ghost predicate Chosen(x: int, val: nat, maxj: nat)
    requires maxj >= 1
  {
    val <= maxj && x <= LargestInput(val, maxj) && (val > 0 ==> x > LargestInput(val - 1, maxj))
  }

  lemma LastInput(maxj: nat)
    requires maxj >= 1
    ensures LargestInput(maxj, maxj) >= 255
  {
    InputBounds(maxj, maxj);
    var b := LargestInput(maxj, maxj);
    Scaled(maxj, b - 255);
    assert maxj * (b - 255) == maxj * b - maxj * 255;
  }

  function Distance(x: int, y: int): nat {
    if x < y then y - x else x - y
  }

  lemma Expand(m: int, a: int, b: int, c: int)
    ensures m * (2 * b - a - c) == 2 * (m * b) - m * a - m * c
  {
  }

  /** Breakpoints against the levels on both sides. */
  lemma Breakpoint(j: nat, maxj: nat)
    requires 1 <= maxj <= 255 && j < maxj
    ensures var s := OutputValue(j, maxj) + OutputValue(j + 1, maxj); s - 1 <= 2 * LargestInput(j, maxj) <= s + 1
  {
    var a, b, c := OutputValue(j, maxj), LargestInput(j, maxj), OutputValue(j + 1, maxj);
    OutputBounds(j, maxj);
    OutputBounds(j + 1, maxj);
    InputBounds(j, maxj);
    hide OutputValue, LargestInput;
    Expand(maxj, a, b, c);
    Scaled(maxj, 2 * b - a - c + 1);
    Scaled(maxj, 2 * b - a - c);
    assert maxj * (2 * b - a - c + 1) == maxj * (2 * b - a - c) + maxj;
  }

  /** The neighbours of the chosen level: never nearer from below, at most 1 nearer from above. */
  lemma NearLevels(x: int, val: nat, maxj: nat)
    requires 1 <= maxj <= 255 && Chosen(x, val, maxj)
    ensures val > 0 ==> 2 * x >= OutputValue(val - 1, maxj) + OutputValue(val, maxj)
    ensures val < maxj ==> 2 * x <= OutputValue(val, maxj) + OutputValue(val + 1, maxj) + 1
  {
    hide OutputValue, LargestInput;
    if val > 0 { Breakpoint(val - 1, maxj); }
    if val < maxj { Breakpoint(val, maxj); }
  }

  lemma {:induction false} LevelsMonotone(i: nat, j: nat, maxj: nat)
    requires 1 <= maxj <= 255 && i <= j <= maxj
    ensures OutputValue(i, maxj) <= OutputValue(j, maxj)
    decreases j - i
  {
    if i < j {
      OutputNext(i, maxj);
      LevelsMonotone(i + 1, j, maxj);
    }
  }

  /** The chosen level is at most 1 farther from the input than any other level. */
  lemma ChosenIsNear(x: int, val: nat, k: nat, maxj: nat)
    requires 1 <= maxj <= 255 && Chosen(x, val, maxj) && k <= maxj
    ensures Distance(x, OutputValue(val, maxj)) <= Distance(x, OutputValue(k, maxj)) + 1
    ensures k < val ==> Distance(x, OutputValue(val, maxj)) <= Distance(x, OutputValue(k, maxj))
  {
    hide OutputValue, LargestInput;
    NearLevels(x, val, maxj);
    if k < val {
      LevelsMonotone(k, val - 1, maxj);
      LevelsMonotone(val - 1, val, maxj);
    } else if k > val {
      LevelsMonotone(val + 1, k, maxj);
      LevelsMonotone(val, val + 1, maxj);
    }
  }

  lemma InputNext(j: nat, maxj: nat)
    requires 1 <= maxj <= 255
    ensures LargestInput(j, maxj) < LargestInput(j + 1, maxj)
  {
    InputBounds(j, maxj);
    InputBounds(j + 1, maxj);
    var q, r := LargestInput(j, maxj), LargestInput(j + 1, maxj);
    hide LargestInput;
    assert maxj * (r - q) == maxj * r - maxj * q;
    Scaled(maxj, r - q);
  }

  lemma {:induction false} InputsIncrease(i: nat, j: nat, maxj: nat)
    requires 1 <= maxj <= 255 && i < j
    ensures LargestInput(i, maxj) < LargestInput(j, maxj)
    decreases j - i
  {
    InputNext(i, maxj);
    if i + 1 < j { InputsIncrease(i + 1, j, maxj); }
  }

  /** The last input of level j lies one half beyond the middle of the gap to the next level. */
  predicate PastMiddle(j: nat, maxj: nat)
    requires maxj >= 1
  {
    2 * LargestInput(j, maxj) == OutputValue(j, maxj) + OutputValue(j + 1, maxj) + 1
  }

  /** The input is the last one of a level that reaches past the middle. */
  predicate Unlucky(x: int, maxj: nat)
    requires maxj >= 1
  {
    exists j: nat :: j < maxj && x == LargestInput(j, maxj) && PastMiddle(j, maxj)
  }

  /** An input ends at most one level: the chosen one. */
  lemma UnluckyLevel(x: int, val: nat, maxj: nat)
    requires 1 <= maxj <= 255 && Chosen(x, val, maxj)
    ensures Unlucky(x, maxj) <==> val < maxj && x == LargestInput(val, maxj) && PastMiddle(val, maxj)
  {
    hide LargestInput, PastMiddle;
    forall j: nat | x == LargestInput(j, maxj) ensures j == val {
      if j < val {
        if j < val - 1 { InputsIncrease(j, val - 1, maxj); }
      } else if j > val {
        InputsIncrease(val, j, maxj);
      }
    }
  }

  ghost predicate NearestLevel(x: int, val: nat, maxj: nat)
    requires maxj >= 1
  {
    forall k: nat :: k <= maxj ==> Distance(x, OutputValue(val, maxj)) <= Distance(x, OutputValue(k, maxj))
  }

  /** Exactly when the chosen level is a nearest one. */
  lemma NearestExactly(x: int, val: nat, maxj: nat)
    requires 1 <= maxj <= 255 && Chosen(x, val, maxj)
    ensures NearestLevel(x, val, maxj) <==> !Unlucky(x, maxj)
  {
    UnluckyLevel(x, val, maxj);
    hide OutputValue, LargestInput, Unlucky;
    if Unlucky(x, maxj) {
      LevelsMonotone(val, val + 1, maxj);
      NearLevels(x, val, maxj);
      assert Distance(x, OutputValue(val, maxj)) > Distance(x, OutputValue(val + 1, maxj));
    } else {
      forall k: nat | k <= maxj ensures Distance(x, OutputValue(val, maxj)) <= Distance(x, OutputValue(k, maxj)) {
        LuckyIsNearest(x, val, k, maxj);
      }
    }
  }

  lemma LuckyIsNearest(x: int, val: nat, k: nat, maxj: nat)
    requires 1 <= maxj <= 255 && Chosen(x, val, maxj) && k <= maxj && !Unlucky(x, maxj)
    ensures Distance(x, OutputValue(val, maxj)) <= Distance(x, OutputValue(k, maxj))
  {
    UnluckyLevel(x, val, maxj);
    hide OutputValue, LargestInput, Unlucky;
    ChosenIsNear(x, val, k, maxj);
    if k > val {
      Breakpoint(val, maxj);
      LevelsMonotone(val + 1, k, maxj);
      LevelsMonotone(val, val + 1, maxj);
    }
  }

  /** With two levels the input 128 goes to 0 although 255 is nearer. */
  lemma NotAlwaysNearest()
    ensures Chosen(128, 0, 1) && Distance(128, OutputValue(1, 1)) < Distance(128, OutputValue(0, 1)) && Unlucky(128, 1)
  {
    assert 128 == LargestInput(0, 1) && PastMiddle(0, 1);
  }

  // ---------------------------------------------------------------- mixed radix

  function Product(ns: seq<nat>): nat {
    if ns == [] then 1 else ns[0] * Product(ns[1..])
  }

  /** Number of adjacent map entries that share a level of component i. */
  function Block(ns: seq<nat>, i: nat): nat
    requires i < |ns|
  {
    Product(ns[i + 1..])
  }

  /** The level of component i at map entry p. */
  function Digit(ns: seq<nat>, i: nat, p: nat): nat
    requires i < |ns| && AllPositive(ns)
  {
    PositiveProduct(ns[i + 1..]);
    p / Block(ns, i) % ns[i]
  }

  predicate AllPositive(ns: seq<nat>) {
    forall k :: 0 <= k < |ns| ==> ns[k] > 0
  }

  lemma {:induction false} PositiveProduct(ns: seq<nat>)
    requires AllPositive(ns)
    ensures Product(ns) > 0
  {
    if ns != [] { PositiveProduct(ns[1..]); MultipleGrows(ns[0], Product(ns[1..])); }
  }

  /** The map entry with the given levels: the sum of premultiplied table entries. */
  function Index(ns: seq<nat>, vals: seq<nat>): nat
    requires |ns| == |vals|
  {
    if ns == [] then 0 else vals[0] * Product(ns[1..]) + Index(ns[1..], vals[1..])
  }

  predicate InGrid(ns: seq<nat>, vals: seq<nat>) {
    |ns| == |vals| && forall k :: 0 <= k < |ns| ==> vals[k] < ns[k]
  }

  /** Sums of table entries are valid map indexes. */
  lemma {:induction false} IndexBound(ns: seq<nat>, vals: seq<nat>)
    requires InGrid(ns, vals)
    ensures Index(ns, vals) < Product(ns)
  {
    if ns != [] {
      IndexBound(ns[1..], vals[1..]);
      var p := Product(ns[1..]);
      AtMostOneLess(vals[0], ns[0], p);
    }
  }

  lemma AtMostOneLess(v: nat, n: nat, p: nat)
    requires v < n
    ensures v * p + p <= n * p
  {
    assert n * p == v * p + (n - v) * p;
    assert (n - v) * p == p + (n - v - 1) * p;
  }

  /** The entry found by addition has exactly the chosen level in every component. */
  lemma {:induction false} IndexDigits(ns: seq<nat>, vals: seq<nat>, i: nat)
    requires InGrid(ns, vals) && i < |ns|
    ensures AllPositive(ns) && Digit(ns, i, Index(ns, vals)) == vals[i]
  {
    assert AllPositive(ns);
    var p, t := Product(ns[1..]), Index(ns[1..], vals[1..]);
    IndexBound(ns[1..], vals[1..]);
    if i == 0 {
      QuotientIs(vals[0] * p + t, p, vals[0], t);
      DivUnique(vals[0], ns[0], 0, vals[0]);
    } else {
      IndexDigits(ns[1..], vals[1..], i - 1);
      assert ns[1..][i - 1 + 1..] == ns[i + 1..];
      BlockDivides(ns[1..], i - 1);
      var blk, n := Block(ns, i), ns[i];
      var m: nat :| p == m * (n * blk);
      PositiveProduct(ns[i + 1..]);
      HigherDigits(vals[0], m, n, blk, t);
    }
  }

  /** A block and its component's levels divide the product. */
  lemma {:induction false} BlockDivides(ns: seq<nat>, i: nat)
    requires i < |ns|
    ensures exists m: nat :: Product(ns) == m * (ns[i] * Block(ns, i))
  {
    if i == 0 {
      assert Product(ns) == 1 * (ns[0] * Block(ns, 0));
    } else {
      BlockDivides(ns[1..], i - 1);
      assert ns[1..][i - 1 + 1..] == ns[i + 1..];
      var q := ns[i] * Block(ns, i);
      var m: nat :| Product(ns[1..]) == m * q;
      ProductAssoc(ns[0], m, q);
      assert Product(ns) == (ns[0] * m) * q;
    }
  }

  /** What higher components add does not change a lower digit. */
  lemma HigherDigits(v: nat, m: nat, n: nat, blk: nat, t: nat)
    requires n > 0 && blk > 0
    ensures (v * (m * (n * blk)) + t) / blk % n == t / blk % n
  {
    var q, r := t / blk, t % blk;
    assert t == blk * q + r;
    var k := v * m;
    assert v * (m * (n * blk)) == k * (n * blk) by { ProductAssoc(v, m, n * blk); }
    assert k * (n * blk) == (k * n) * blk by { ProductAssoc(k, n, blk); }
    assert v * (m * (n * blk)) + t == (k * n + q) * blk + r;
    QuotientIs(v * (m * (n * blk)) + t, blk, k * n + q, r);
    ModShiftMultiple(q, n, k);
    assert q + n * k == k * n + q;
  }
}
