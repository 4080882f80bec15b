/** Building and using the one-pass quantizer's tables. */
module OnePassQuantizer {
  import opened Wrappers
  import opened Bits
  import opened NearestColor
  import opened OnePassMap

  // ---------------------------------------------------------------- products

  function Power(b: nat, n: nat): nat {
    if n == 0 then 1 else b * Power(b, n - 1)
  }

  lemma {:induction false} PowerGrows(b: nat, n: nat)
    requires b >= 1 && n >= 1
    ensures Power(b, n) >= b
  {
    if n > 1 {
      PowerGrows(b, n - 1);
      MultipleGrows(b, Power(b, n - 1));
    }
  }

  lemma {:induction false} PowerMonotone(a: nat, b: nat, n: nat)
    requires a <= b
    ensures Power(a, n) <= Power(b, n)
  {
    if n > 0 {
      PowerMonotone(a, b, n - 1);
      ProductMonotone(a, b, Power(a, n - 1), Power(b, n - 1));
    }
  }

  lemma ProductMonotone(a: nat, b: nat, x: nat, y: nat)
    requires a <= b && x <= y
    ensures a * x <= b * y
  {
    assert a * y == a * x + a * (y - x) && a * (y - x) >= 0;
    assert b * y == a * y + (b - a) * y && (b - a) * y >= 0;
  }

  /** The product of all components but j. */
  function Others(ns: seq<nat>, j: nat): nat
    requires j < |ns|
  {
    if j == 0 then Product(ns[1..]) else ns[0] * Others(ns[1..], j - 1)
  }

  lemma {:induction false} ProductParts(ns: seq<nat>, j: nat, v: nat)
    requires j < |ns|
    ensures Product(ns) == ns[j] * Others(ns, j) && Product(ns[j := v]) == v * Others(ns, j)
  {
    if j == 0 {
      assert ns[0 := v][1..] == ns[1..];
    } else {
      ProductParts(ns[1..], j - 1, v);
      assert ns[j := v][1..] == ns[1..][j - 1 := v];
      SwapFactors(ns[0], ns[j], Others(ns[1..], j - 1));
      SwapFactors(ns[0], v, Others(ns[1..], j - 1));
    }
  }

  lemma SwapFactors(a: nat, b: nat, c: nat)
    ensures a * (b * c) == b * (a * c)
  {
  }

  lemma {:induction false} ProductOfEqual(b: nat, ns: seq<nat>)
    requires forall k :: 0 <= k < |ns| ==> ns[k] == b
    ensures Product(ns) == Power(b, |ns|)
  {
    if ns != [] { ProductOfEqual(b, ns[1..]); }
  }

  // ---------------------------------------------------------------- select_ncolors

  /** Which component is tried i'th: green, red, blue for RGB. */
  function Order(rgb: bool, i: nat): nat {
    if rgb then (if i == 0 then 1 else if i == 1 then 0 else i) else i
  }

  /** The largest whole number whose n'th power is within max, and the first power beyond. */
  method IntegerRoot(n: nat, max: int) returns (root: nat)
    requires n >= 1
    ensures (root >= 1 ==> root == 1 || Power(root, n) <= max) && Power(root + 1, n) > max && root >= 1
  {
    root := 1;
    var temp := Power(2, n);
    while temp <= max
      invariant root >= 1 && temp == Power(root + 1, n) && (root == 1 || Power(root, n) <= max)
      decreases max - root
    {
      PowerGrows(root + 1, n);
      root := root + 1;
      temp := Power(root + 1, n);
    }
  }

  /** Levels are positive and their product, kept in total, is within max. */
  ghost predicate Allocation(ns: seq<nat>, total: int, max: int, least: nat) {
    total == Product(ns) <= max && forall k :: 0 <= k < |ns| ==> ns[k] >= least
  }

  lemma Increment(ns: seq<nat>, total: int, max: int, least: nat, j: nat)
    requires Allocation(ns, total, max, least) && least >= 2 && j < |ns|
    ensures total / ns[j] * (ns[j] + 1) == Product(ns[j := ns[j] + 1]) > total
    ensures total / ns[j] * (ns[j] + 1) <= max ==>
        Allocation(ns[j := ns[j] + 1], total / ns[j] * (ns[j] + 1), max, least)
  {
    ProductParts(ns, j, ns[j] + 1);
    PositiveProduct(ns);
    var r, n := Others(ns, j), ns[j];
    var more := Product(ns[j := n + 1]);
    hide Product, Others;
    OneMoreFactor(n, r, total, more);
  }

  lemma OneMoreFactor(n: nat, r: nat, total: int, more: int)
    requires n >= 1 && total == n * r > 0 && more == (n + 1) * r
    ensures total / n == r && total / n * (n + 1) == more > total
  {
    QuotientIs(total, n, r, 0) by { assert total == r * n; }
    assert (n + 1) * r == n * r + r;
  }

  // ---------------------------------------------------------------- the fairest allocation

  /** The numbers of levels in the order in which the components are tried. */
  function InOrder(ns: seq<nat>, rgb: bool): (m: seq<nat>)
    requires rgb ==> |ns| == 3
    ensures |m| == |ns| && forall i :: 0 <= i < |ns| ==> Order(rgb, i) < |ns| && m[i] == ns[Order(rgb, i)]
  {
    if rgb then [ns[1], ns[0], ns[2]] else ns
  }

  lemma SameProduct(ns: seq<nat>, rgb: bool)
    requires rgb ==> |ns| == 3
    ensures Product(InOrder(ns, rgb)) == Product(ns)
  {
    if rgb {
      ThreeFactors(ns);
      ThreeFactors(InOrder(ns, rgb));
      SwapFactors(ns[0], ns[1], ns[2]);
    }
  }

  lemma ThreeFactors(ns: seq<nat>)
    requires |ns| == 3
    ensures Product(ns) == ns[0] * (ns[1] * ns[2])
  {
    assert ns[1..][1..] == [ns[2]] && [ns[2]][1..] == [];
    assert Product([ns[2]]) == ns[2];
  }

  lemma OrderUpdates(ns: seq<nat>, rgb: bool, i: nat, v: nat)
    requires i < |ns| && (rgb ==> |ns| == 3)
    ensures Order(rgb, i) < |ns| && InOrder(ns[Order(rgb, i) := v], rgb) == InOrder(ns, rgb)[i := v]
  {
  }

  /** Component i with v levels, those before it with as many, and those behind it as they are. */
  function Weight(m: seq<nat>, i: nat, v: nat): nat
    requires i < |m|
  {
    Power(v, i + 1) * Product(m[i + 1..])
  }

  /** So many levels fit, and one more would not. */
  ghost predicate Fair(m: seq<nat>, max: int) {
    forall i :: 0 <= i < |m| ==> Weight(m, i, m[i]) <= max < Weight(m, i, m[i] + 1)
  }

  /** During a pass: the components before i have been raised to v + 1 levels, those up to open, not yet tried, have
      v, and the others, with no more than that, cannot have one more. */
  ghost predicate During(m: seq<nat>, i: nat, open: nat, v: nat, max: int) {
    && i <= open <= |m|
    && (forall k :: 0 <= k < i ==> m[k] == v + 1)
    && (forall k :: i <= k < open ==> m[k] == v)
    && (forall k :: open <= k < |m| ==> 1 <= m[k] <= v && Weight(m, k, m[k] + 1) > max)
    && (forall k, l :: 0 <= k < l < |m| ==> m[l] <= m[k])
  }

  /** Between passes. */
  ghost predicate Open(m: seq<nat>, open: nat, v: nat, max: int) {
    During(m, 0, open, v, max)
  }

  /** With the components before i at a levels each and component i at t. */
  lemma {:induction false} ProductWith(m: seq<nat>, i: nat, a: nat, t: nat)
    requires i < |m| && forall k :: 0 <= k < i ==> m[k] == a
    ensures Product(m[i := t]) == Power(a, i) * (t * Product(m[i + 1..]))
  {
    if i == 0 {
      assert m[0 := t][1..] == m[1..];
    } else {
      ProductWith(m[1..], i - 1, a, t);
      assert m[i := t][1..] == m[1..][i - 1 := t] && m[1..][i..] == m[i + 1..];
      Associate(a, Power(a, i - 1), t * Product(m[i + 1..]));
    }
  }

  lemma Associate(a: nat, b: nat, c: nat)
    ensures a * (b * c) == a * b * c && a * b == b * a
  {
  }

  lemma WeightMore(m: seq<nat>, i: nat, a: nat, t: nat)
    requires i < |m| && t <= a
    ensures Weight(m, i, t) <= Power(a, i) * (t * Product(m[i + 1..]))
    ensures t == a ==> Weight(m, i, t) == Power(a, i) * (t * Product(m[i + 1..]))
  {
    var r := Product(m[i + 1..]);
    PowerMonotone(t, a, i);
    Associate(Power(a, i), t, r);
    Associate(Power(t, i), t, r);
    ProductMonotone(Power(t, i), Power(a, i), t * r, t * r);
  }

  /** If one more does not fit at component k, it does not at the next, which has as many. */
  lemma NextBlocked(m: seq<nat>, k: nat, v: nat, max: int)
    requires k + 1 < |m| && m[k + 1] == v && Weight(m, k, v + 1) > max
    ensures Weight(m, k + 1, v + 1) > max
  {
    var p, r := Power(v + 1, k + 1), Product(m[k + 2..]);
    assert Product(m[k + 1..]) == v * r by { assert m[k + 1..][1..] == m[k + 2..]; }
    assert Power(v + 1, k + 2) == p * (v + 1) by { Associate(v + 1, p, 1); }
    hide Product, Power;
    ProductMonotone(v, v + 1, r, r);
    ProductMonotone(p, p, v * r, (v + 1) * r);
    Associate(p, v + 1, r);
    assert m[k + 1 + 1..] == m[k + 2..];
  }

  lemma RaiseKeeps(m: seq<nat>, i: nat, open: nat, v: nat, max: int)
    requires During(m, i, open, v, max) && i < open
    ensures During(m[i := v + 1], i + 1, open, v, max)
  {
    hide Power, Product;
    var m1 := m[i := v + 1];
    forall k | open <= k < |m| ensures Weight(m1, k, m1[k] + 1) > max {
      assert m1[k + 1..] == m[k + 1..];
    }
  }

  /** A closed component cannot be raised. */
  lemma ClosedStays(m: seq<nat>, i: nat, open: nat, v: nat, max: int)
    requires During(m, i, open, v, max) && i == open < |m|
    ensures Product(m[i := m[i] + 1]) > max
  {
    ProductWith(m, i, v + 1, m[i] + 1);
    WeightMore(m, i, v + 1, m[i] + 1);
    hide Weight, Power, Product;
  }

  /** The first component that cannot be raised closes all from there on. */
  lemma BlockedFrom(m: seq<nat>, i: nat, open: nat, v: nat, max: int)
    requires During(m, i, open, v, max) && i < |m| && Product(m[i := m[i] + 1]) > max && v >= 1
    ensures Open(m, i, if i == 0 then v else v + 1, max)
  {
    if i < open {
      ProductWith(m, i, v + 1, v + 1);
      WeightMore(m, i, v + 1, v + 1);
      hide Weight, Power, Product;
      forall k | i <= k < open ensures Weight(m, k, m[k] + 1) > max { StaysBlocked(m, i, k, v, max); }
    }
    hide Weight, Power, Product;
  }

  lemma {:induction false} StaysBlocked(m: seq<nat>, i: nat, k: nat, v: nat, max: int)
    requires i <= k < |m| && Weight(m, i, v + 1) > max && forall j :: i <= j <= k ==> m[j] == v
    ensures Weight(m, k, v + 1) > max
    decreases k
  {
    hide Weight;
    if i < k {
      StaysBlocked(m, i, k - 1, v, max);
      NextBlocked(m, k - 1, v, max);
    }
  }

  lemma AllRaised(m: seq<nat>, v: nat, max: int)
    requires During(m, |m|, |m|, v, max)
    ensures Open(m, |m|, v + 1, max)
  {
  }

  lemma {:induction false} AtLeastPower(m: seq<nat>, i: nat)
    requires i < |m| && forall k, l :: 0 <= k < l < |m| ==> m[l] <= m[k]
    ensures Weight(m, i, m[i]) <= Product(m)
  {
    PowerBelow(m, i + 1, m[i]);
    hide Power, Product;
  }

  lemma {:induction false} PowerBelow(m: seq<nat>, n: nat, t: nat)
    requires n <= |m| && forall k :: 0 <= k < n ==> t <= m[k]
    ensures Power(t, n) * Product(m[n..]) <= Product(m)
  {
    if n == 0 {
      assert m[0..] == m;
    } else {
      PowerBelow(m[1..], n - 1, t);
      assert m[1..][n - 1..] == m[n..];
      Associate(t, Power(t, n - 1), Product(m[n..]));
      ProductMonotone(t, m[0], Power(t, n - 1) * Product(m[n..]), Product(m[1..]));
    }
  }

  lemma AllClosed(m: seq<nat>, v: nat, max: int)
    requires Open(m, 0, v, max) && Product(m) <= max
    ensures Fair(m, max)
  {
    hide Weight, Product;
    forall i | 0 <= i < |m| ensures Weight(m, i, m[i]) <= max < Weight(m, i, m[i] + 1) { AtLeastPower(m, i); }
  }

  /** A fair allocation is determined from the last component to the first: there is only one. */
  lemma {:induction false} FairUnique(a: seq<nat>, b: seq<nat>, max: int, i: nat)
    requires Fair(a, max) && Fair(b, max) && |a| == |b| && i <= |a|
    ensures a[i..] == b[i..]
    decreases |a| - i
  {
    if i < |a| {
      FairUnique(a, b, max, i + 1);
      var r := Product(a[i + 1..]);
      assert Weight(a, i, a[i]) <= max < Weight(b, i, b[i] + 1) && Weight(b, i, b[i]) <= max < Weight(a, i, a[i] + 1);
      if a[i] < b[i] {
        WeightGrows(a, i, a[i] + 1, b[i]);
      } else if b[i] < a[i] {
        WeightGrows(a, i, b[i] + 1, a[i]);
      }
    }
  }

  lemma WeightGrows(m: seq<nat>, i: nat, s: nat, t: nat)
    requires i < |m| && s <= t
    ensures Weight(m, i, s) <= Weight(m, i, t)
  {
    PowerMonotone(s, t, i + 1);
    hide Power;
    ProductMonotone(Power(s, i + 1), Power(t, i + 1), Product(m[i + 1..]), Product(m[i + 1..]));
  }

  /** One pass over the components: increments in order until one does not fit. */
  method IncrementPass(ns: array<nat>, total: int, max: int, rgb: bool, ghost least: nat, ghost open: nat, ghost v: nat)
    returns (total': int, changed: bool, ghost open': nat, ghost v': nat)
    requires Allocation(ns[..], total, max, least) && least >= 2 && ns.Length >= 1 && (rgb ==> ns.Length == 3)
    requires Open(InOrder(ns[..], rgb), open, v, max) && v >= 1
    modifies ns
    ensures Allocation(ns[..], total', max, least) && Open(InOrder(ns[..], rgb), open', v', max) && v' >= 1
    ensures if changed then total' > total else total' == total && open' == 0
  {
    hide During, Product, InOrder;
    total', changed := total, false;
    var i := 0;
    while i < ns.Length
      invariant 0 <= i <= ns.Length && Allocation(ns[..], total', max, least)
      invariant During(InOrder(ns[..], rgb), i, open, v, max)
      invariant changed <==> i > 0
      invariant if changed then total' > total else total' == total
    {
      var j := Order(rgb, i);
      ghost var before := ns[..];
      Increment(before, total', max, least, j);
      OrderUpdates(before, rgb, i, before[j] + 1);
      SameProduct(before[j := before[j] + 1], rgb);
      var temp := total' / ns[j] * (ns[j] + 1);
      if temp > max {
        BlockedFrom(InOrder(before, rgb), i, open, v, max);
        open', v' := i, if i == 0 then v else v + 1;
        return;
      }
      NotYetTried(InOrder(before, rgb), i, open, v, max);
      if i == open { ClosedStays(InOrder(before, rgb), i, open, v, max); }
      RaiseKeeps(InOrder(before, rgb), i, open, v, max);
      ns[j] := ns[j] + 1;
      assert ns[..] == before[j := before[j] + 1];
      total' := temp;
      changed := true;
      i := i + 1;
    }
    NotYetTried(InOrder(ns[..], rgb), i, open, v, max);
    AllRaised(InOrder(ns[..], rgb), v, max);
    open', v' := ns.Length, v + 1;
  }

  lemma NotYetTried(m: seq<nat>, i: nat, open: nat, v: nat, max: int)
    requires During(m, i, open, v, max)
    ensures i <= open <= |m| && (i < open ==> m[i] == v)
  {
    hide Weight;
  }

  /** Numbers of levels that the tables can hold. */
  ghost predicate Levels(ns: seq<nat>) {
    forall k :: 0 <= k < |ns| ==> 2 <= ns[k] <= 256
  }

  /** No factor exceeds the product. */
  lemma {:induction false} FactorsBelow(ns: seq<nat>, k: nat)
    requires k < |ns| && forall i :: 0 <= i < |ns| ==> ns[i] >= 1
    ensures Product(ns) >= 1 && ns[k] <= Product(ns)
  {
    PositiveProduct(ns[1..]);
    if k > 0 { FactorsBelow(ns[1..], k - 1); }
    ProductMono(1, ns[0], Product(ns[1..]));
    ProductMono(1, Product(ns[1..]), ns[0]);
  }

  lemma LevelsFit(ns: seq<nat>)
    requires Product(ns) <= 256 && forall i :: 0 <= i < |ns| ==> ns[i] >= 2
    ensures Levels(ns)
  {
    forall k | 0 <= k < |ns| ensures ns[k] <= 256 { FactorsBelow(ns, k); }
  }

  lemma AllEqual(ns: seq<nat>, rgb: bool, v: nat, max: int)
    requires (rgb ==> |ns| == 3) && forall k :: 0 <= k < |ns| ==> ns[k] == v
    ensures Open(InOrder(ns, rgb), |ns|, v, max)
  {
  }

  /** select_ncolors; false is the error exit for too few colours.  The product of the levels is within the limit,
      every component gets at least the integer root, and the allocation is fair: in the order green, red, blue for
      RGB, no component could have had one more level together with those before it. */
  method SelectNcolors(nc: nat, max: int, rgb: bool) returns (ok: bool, ns: array<nat>, total: int)
    requires nc >= 1 && (rgb ==> nc == 3)
    ensures fresh(ns) && ns.Length == nc && (ok <==> Power(2, nc) <= max)
    ensures ok ==> Product(ns[..]) == total <= max
    ensures ok ==> forall k :: 0 <= k < nc ==> ns[k] >= 2 && Power(ns[k] + 1, nc) > max
    ensures ok ==> Fair(InOrder(ns[..], rgb), max)
    ensures ok && max <= 256 ==> Levels(ns[..])
  {
    hide Fair, Open, InOrder, Product, Power;
    var iroot := IntegerRoot(nc, max);
    ns := new nat[nc](_ => iroot);
    total := 1;
    if iroot < 2 {
      return false, ns, total;
    }
    PowerMonotone(2, iroot, nc);
    ProductOfEqual(iroot, ns[..]);
    total := Power(iroot, nc);
    var changed := true;
    ghost var open, v := nc, iroot;
    AllEqual(ns[..], rgb, iroot, max);
    while changed
      invariant Allocation(ns[..], total, max, iroot)
      invariant Open(InOrder(ns[..], rgb), open, v, max) && v >= 1 && (!changed ==> open == 0)
      decreases max - total, if changed then 1 else 0
    {
      total, changed, open, v := IncrementPass(ns, total, max, rgb, iroot, open, v);
    }
    SameProduct(ns[..], rgb);
    AllClosed(InOrder(ns[..], rgb), v, max);
    forall k | 0 <= k < nc ensures Power(ns[k] + 1, nc) > max {
      assert ns[..][k] >= iroot;
      PowerMonotone(iroot + 1, ns[k] + 1, nc);
    }
    if max <= 256 { LevelsFit(ns[..]); }
    ok := true;
  }

  // ---------------------------------------------------------------- create_colormap

  /** Component i of map entry p. */
  ghost predicate GridEntry(ns: seq<nat>, i: nat, p: nat, v: int)
    requires Levels(ns) && i < |ns|
  {
    v == OutputValue(Digit(ns, i, p), ns[i] - 1)
  }

  /** Entries between one group of level j and the next belong to it only while in the block. */
  lemma GroupOf(n: nat, blk: nat, m: nat, j: nat, t: nat)
    requires j < n && blk > 0 && t < n * blk
    ensures (m * (n * blk) + j * blk + t) / blk % n == j <==> t < blk
  {
    var q, r := t / blk, t % blk;
    assert t == blk * q + r;
    ProductAssoc(m, n, blk);
    Gather(m * n, j, q, blk);
    QuotientIs(m * (n * blk) + j * blk + t, blk, m * n + j + q, r);
    if q >= n { AtLeastTimes(q, n, blk); }
    SameDigit(m, n, j, q);
    SmallQuotient(t, blk);
  }

  lemma Gather(a: nat, b: nat, c: nat, blk: nat)
    ensures (a + b + c) * blk == a * blk + b * blk + blk * c
  {
  }

  lemma SameDigit(m: nat, n: nat, j: nat, q: nat)
    requires j < n && q < n
    ensures (m * n + j + q) % n == j <==> q == 0
  {
    ModShiftMultiple(j + q, n, m);
    assert j + q + n * m == m * n + j + q;
    if j + q < n { DivUnique(j + q, n, 0, j + q); } else { DivUnique(j + q, n, 1, j + q - n); }
  }

  lemma SmallQuotient(t: nat, blk: nat)
    requires blk > 0
    ensures t / blk == 0 <==> t < blk
  {
    if t < blk { DivUnique(t, blk, 0, t); }
  }

  lemma GroupSpan(ns: seq<nat>, i: nat, j: nat, blk: nat, m: nat, ptr: nat)
    requires Levels(ns) && i < |ns| && j < ns[i] && blk == Block(ns, i) && blk > 0 && ptr == m * (ns[i] * blk) + j * blk
    ensures forall p :: ptr <= p < ptr + ns[i] * blk ==> (Digit(ns, i, p) == j <==> p < ptr + blk)
  {
    forall p | ptr <= p < ptr + ns[i] * blk ensures Digit(ns, i, p) == j <==> p < ptr + blk {
      GroupOf(ns[i], blk, m, j, p - ptr);
      assert p == m * (ns[i] * blk) + j * blk + (p - ptr);
    }
  }

  lemma AtLeastTimes(q: nat, n: nat, blk: nat)
    requires q >= n
    ensures q * blk >= n * blk
  {
    assert q * blk == n * blk + (q - n) * blk;
  }

  /** Fills one group of identical entries. */
  method FillGroup(row: array<int>, ptr: nat, blk: nat, val: int)
    requires ptr + blk <= row.Length
    modifies row
    ensures forall p :: 0 <= p < row.Length ==> row[p] == if ptr <= p < ptr + blk then val else old(row[p])
  {
    for k := 0 to blk
      invariant forall p :: 0 <= p < row.Length ==> row[p] == if ptr <= p < ptr + k then val else old(row[p])
    {
      row[ptr + k] := val;
    }
  }

  /** ptr is where the group of level j begins in the m'th round of component i. */
  ghost predicate AtGroup(ns: seq<nat>, i: nat, j: nat, blk: nat, dist: nat, m: nat, ptr: nat) {
    && Levels(ns) && i < |ns| && j < ns[i] && blk == Block(ns, i) && blk > 0 && dist == ns[i] * blk
    && ptr == m * dist + j * blk
  }

  ghost predicate Rounds(length: nat, g: nat, dist: nat) {
    length == g * dist
  }

  /** The loop over the groups of one level. */
  method FillLevel(row: array<int>, ns: seq<nat>, i: nat, j: nat, blk: nat, dist: nat, val: int, ghost g: nat)
    requires Levels(ns) && i < |ns| && AtGroup(ns, i, j, blk, dist, 0, j * blk) && Rounds(row.Length, g, dist)
    modifies row
    ensures forall p :: 0 <= p < row.Length ==> row[p] == if Digit(ns, i, p) == j then val else old(row[p])
  {
    assert AllPositive(ns);
    hide *;
    var ptr := j * blk;
    ghost var m: nat := 0;
    FirstGroup(ns, i, j, blk, dist);
    while ptr < row.Length
      invariant AtGroup(ns, i, j, blk, dist, m, ptr)
      invariant forall p :: 0 <= p < row.Length ==>
          row[p] == if p < ptr && Digit(ns, i, p) == j then val else old(row[p])
      decreases row.Length - ptr
    {
      InGroup(ns, i, j, blk, dist, m, ptr, g, row.Length);
      FillGroup(row, ptr, blk, val);
      m := m + 1;
      ptr := ptr + dist;
    }
  }

  lemma GroupStart(n: nat, blk: nat, j: nat)
    requires j < n && blk > 0
    ensures forall p :: 0 <= p < j * blk ==> p / blk % n != j
  {
    forall p | 0 <= p < j * blk ensures p / blk % n != j {
      var q := p / blk;
      assert p == blk * q + p % blk;
      if q >= j { AtLeastTimes(q, j, blk); }
      DivUnique(q, n, 0, q);
    }
  }

  lemma FirstGroup(ns: seq<nat>, i: nat, j: nat, blk: nat, dist: nat)
    requires Levels(ns) && i < |ns| && AtGroup(ns, i, j, blk, dist, 0, j * blk)
    ensures AllPositive(ns) && forall p :: 0 <= p < j * blk ==> Digit(ns, i, p) != j
  {
    GroupStart(ns[i], blk, j);
  }

  /** One round: the group, and what lies between it and the next. */
  lemma InGroup(ns: seq<nat>, i: nat, j: nat, blk: nat, dist: nat, m: nat, ptr: nat, g: nat, length: nat)
    requires AtGroup(ns, i, j, blk, dist, m, ptr) && Rounds(length, g, dist) && ptr < length
    ensures Levels(ns) && i < |ns| && AllPositive(ns) && 0 < dist && ptr + blk <= length
    ensures forall p :: ptr <= p < ptr + dist ==> (Digit(ns, i, p) == j <==> p < ptr + blk)
    ensures AtGroup(ns, i, j, blk, dist, m + 1, ptr + dist)
  {
    InsideMap(g, dist, m, j, ns[i], blk, ptr);
    GroupSpan(ns, i, j, blk, m, ptr);
    NextGroup(m, dist);
    AtLeastTimes(ns[i], 1, blk);
    hide Levels, Block, Digit;
  }

  lemma NextGroup(m: nat, dist: nat)
    ensures (m + 1) * dist == m * dist + dist
  {
  }

  lemma InsideMap(g: nat, dist: nat, m: nat, j: nat, n: nat, blk: nat, ptr: nat)
    requires j < n && blk > 0 && dist == n * blk && ptr == m * dist + j * blk < g * dist
    ensures m < g && ptr + blk <= g * dist
  {
    if m >= g { AtLeastTimes(m, g, dist); }
    AtLeastTimes(g, m + 1, dist);
    assert (m + 1) * dist == m * dist + dist;
    AtMostOneLess(j, n, blk);
  }

  lemma BlockTimes(ns: seq<nat>, i: nat)
    requires Levels(ns) && i < |ns|
    ensures Product(ns[i..]) == ns[i] * Block(ns, i) && Block(ns, i) > 0
    ensures Product(ns[i..]) / ns[i] == Block(ns, i)
    ensures exists g: nat :: Product(ns) == g * Product(ns[i..])
  {
    assert ns[i..][1..] == ns[i + 1..];
    PositiveProduct(ns[i + 1..]);
    QuotientIs(Product(ns[i..]), ns[i], Block(ns, i), 0);
    BlockDivides(ns, i);
  }

  /** Row i of the map is right. */
  ghost predicate GridRow(ns: seq<nat>, i: nat, row: seq<int>)
    requires Levels(ns) && i < |ns|
  {
    |row| == Product(ns) && forall p :: 0 <= p < |row| ==> GridEntry(ns, i, p, row[p])
  }

  /** One row of create_colormap. */
  method FillRow(ns: seq<nat>, i: nat, blksize: nat, blkdist: nat, row: array<int>)
    requires Levels(ns) && i < |ns| && row.Length == Product(ns)
    requires blkdist == Product(ns[i..]) && blksize == Block(ns, i)
    modifies row
    ensures GridRow(ns, i, row[..])
  {
    hide OutputValue, Block, Digit, Product;
    BlockTimes(ns, i);
    ghost var g: nat :| Product(ns) == g * Product(ns[i..]);
    for j := 0 to ns[i]
      invariant forall p :: 0 <= p < row.Length && Digit(ns, i, p) < j ==> GridEntry(ns, i, p, row[p])
    {
      var val := OutputValue(j, ns[i] - 1);
      FillLevel(row, ns, i, j, blksize, blkdist, val, g);
    }
    forall p | 0 <= p < row.Length ensures Digit(ns, i, p) < ns[i] { DigitBound(ns, i, p); }
  }

  /** create_colormap, given the level counts: the map is the full grid, last component fastest. */
  method CreateColormap(ns: seq<nat>, total: nat) returns (cm: seq<array<int>>)
    requires Levels(ns) && total == Product(ns)
    ensures |cm| == |ns| && forall i :: 0 <= i < |ns| ==> GridRow(ns, i, cm[i][..])
  {
    hide GridRow, Block;
    cm := [];
    var blkdist := total;
    assert ns[0..] == ns;
    for i := 0 to |ns|
      invariant |cm| == i && blkdist == Product(ns[i..])
      invariant forall k :: 0 <= k < i ==> GridRow(ns, k, cm[k][..])
    {
      BlockTimes(ns, i);
      var blksize := blkdist / ns[i];
      var row := new int[total];
      FillRow(ns, i, blksize, blkdist, row);
      cm := cm + [row];
      BlockIsTail(ns, i);
      blkdist := blksize;
    }
  }

  lemma BlockIsTail(ns: seq<nat>, i: nat)
    requires i < |ns|
    ensures Block(ns, i) == Product(ns[i + 1..])
  {
  }

  lemma DigitBound(ns: seq<nat>, i: nat, p: nat)
    requires Levels(ns) && i < |ns|
    ensures Digit(ns, i, p) < ns[i]
  {
  }

  // ---------------------------------------------------------------- create_colorindex

  /** The premultiplied entry for input x of component i. */
  ghost predicate TableEntry(ns: seq<nat>, i: nat, x: int, v: int)
    requires Levels(ns) && i < |ns|
  {
    exists val: nat :: Chosen(x, val, ns[i] - 1) && v == val * Block(ns, i)
  }

  /** One component's table; base is where input 0 is found. */
  ghost predicate TableRow(ns: seq<nat>, i: nat, index: seq<int>, base: nat)
    requires Levels(ns) && i < |ns|
  {
    base + 256 <= |index| && forall p :: base <= p <= base + 255 ==> TableEntry(ns, i, p - base, index[p])
  }

  /** Inputs down to -255 and up to 510 map like the nearest input in range. */
  ghost predicate PaddedRow(index: seq<int>) {
    |index| == 766 && forall p :: 0 <= p < 766 ==>
        index[p] == index[if p < 255 then 255 else if p > 510 then 510 else p]
  }

  /** create_colorindex. */
  method CreateColorindex(ns: seq<nat>, total: nat, padded: bool) returns (index: seq<array<int>>, base: nat)
    requires Levels(ns) && total == Product(ns)
    ensures |index| == |ns| && base == (if padded then 255 else 0)
    ensures forall i :: 0 <= i < |ns| ==> TableRow(ns, i, index[i][..], base) && (padded ==> PaddedRow(index[i][..]))
  {
    hide TableRow, PaddedRow, Block;
    var pad := if padded then 2 * 255 else 0;
    base := if padded then 255 else 0;
    index := [];
    var blksize := total;
    assert ns[0..] == ns;
    for i := 0 to |ns|
      invariant |index| == i && blksize == Product(ns[i..])
      invariant forall k :: 0 <= k < i ==> TableRow(ns, k, index[k][..], base) && (padded ==> PaddedRow(index[k][..]))
    {
      BlockTimes(ns, i);
      BlockIsTail(ns, i);
      blksize := blksize / ns[i];
      var row := new int[256 + pad];
      FillIndex(row, ns, i, base, blksize);
      if padded {
        PadIndex(row, ns, i);
      }
      index := index + [row];
    }
  }

  method FillIndex(row: array<int>, ns: seq<nat>, i: nat, base: nat, blksize: nat)
    requires Levels(ns) && i < |ns| && base + 256 <= row.Length && blksize == Block(ns, i)
    modifies row
    ensures TableRow(ns, i, row[..], base)
  {
    hide LargestInput, Block;
    var maxj := ns[i] - 1;
    var val := 0;
    var k := LargestInput(0, maxj);
    LastInput(maxj);
    for j := 0 to 256
      invariant 0 <= val <= maxj && k == LargestInput(val, maxj) && (val > 0 ==> j > LargestInput(val - 1, maxj))
      invariant forall p :: base <= p < base + j ==> TableEntry(ns, i, p - base, row[p])
    {
      while j > k
        invariant 0 <= val <= maxj && k == LargestInput(val, maxj) && (val > 0 ==> j > LargestInput(val - 1, maxj))
        decreases maxj - val
      {
        val := val + 1;
        k := LargestInput(val, maxj);
      }
      row[base + j] := val * blksize;
      assert Chosen(j, val, maxj);
    }
  }

  method PadIndex(row: array<int>, ns: seq<nat>, i: nat)
    requires Levels(ns) && i < |ns| && row.Length == 766 && TableRow(ns, i, row[..], 255)
    modifies row
    ensures TableRow(ns, i, row[..], 255) && PaddedRow(row[..])
  {
    hide TableEntry;
    ghost var before := row[..];
    for j := 1 to 256
      invariant forall p :: 255 <= p <= 510 ==> row[p] == before[p]
      invariant forall p :: 255 - j < p < 255 ==> row[p] == row[255]
      invariant forall p :: 510 < p < 510 + j ==> row[p] == row[510]
    {
      row[255 - j] := row[255];
      row[510 + j] := row[510];
    }
    assert forall p :: 255 <= p <= 510 ==> row[..][p] == before[p];
  }

  // ---------------------------------------------------------------- color_quantize

  /** The levels chosen for a pixel. */
  ghost predicate ChosenLevels(ns: seq<nat>, pixel: seq<Sample>, vals: seq<nat>)
    requires Levels(ns)
  {
    |vals| == |pixel| == |ns| && forall i :: 0 <= i < |ns| ==> Chosen(pixel[i], vals[i], ns[i] - 1)
  }

  /** v is at most 1 farther from x than the nearest of the levels. */
  ghost predicate NearInput(x: int, v: int, maxj: nat)
    requires maxj >= 1
  {
    forall k: nat :: k <= maxj ==> Distance(x, v) <= Distance(x, OutputValue(k, maxj)) + 1
  }

  /** A pixel's code is a map index, and in every component the map's value there is at most 1
      farther from the pixel than the nearest level is. */
  ghost predicate NearCode(ns: seq<nat>, pixel: seq<Sample>, code: int)
    requires Levels(ns) && |pixel| == |ns|
  {
    && 0 <= code < Product(ns)
    && forall i :: 0 <= i < |ns| ==> NearInput(pixel[i], OutputValue(Digit(ns, i, code), ns[i] - 1), ns[i] - 1)
  }

  lemma ChosenCodeIsNear(ns: seq<nat>, pixel: seq<Sample>, vals: seq<nat>)
    requires Levels(ns) && ChosenLevels(ns, pixel, vals)
    ensures NearCode(ns, pixel, Index(ns, vals))
  {
    hide OutputValue, LargestInput, Digit, Index, Product;
    IndexBound(ns, vals);
    forall i | 0 <= i < |ns| ensures NearInput(pixel[i], OutputValue(Digit(ns, i, Index(ns, vals)), ns[i] - 1),
        ns[i] - 1) {
      IndexDigits(ns, vals, i);
      var maxj := ns[i] - 1;
      forall k: nat | k <= maxj ensures Distance(pixel[i], OutputValue(vals[i], maxj)) <= Distance(pixel[i],
          OutputValue(k, maxj)) + 1 {
        ChosenIsNear(pixel[i], vals[i], k, maxj);
      }
    }
  }

  /** Sum of the first n table entries. */
  ghost function Partial(ns: seq<nat>, vals: seq<nat>, n: nat): nat
    requires n <= |ns| && n <= |vals|
  {
    if n == 0 then 0 else Partial(ns, vals, n - 1) + vals[n - 1] * Block(ns, n - 1)
  }

  lemma {:induction false} PartialPrefix(ns: seq<nat>, vals: seq<nat>, val: nat, n: nat)
    requires n <= |ns| && n <= |vals|
    ensures Partial(ns, vals + [val], n) == Partial(ns, vals, n)
  {
    hide Block;
    if n > 0 { PartialPrefix(ns, vals, val, n - 1); }
  }

  lemma PartialNext(ns: seq<nat>, vals: seq<nat>, val: nat)
    requires |vals| < |ns|
    ensures Partial(ns, vals + [val], |vals| + 1) == Partial(ns, vals, |vals|) + val * Block(ns, |vals|)
  {
    PartialPrefix(ns, vals, val, |vals|);
    hide Block;
  }

  lemma PartialStart(ns: seq<nat>)
    ensures Partial(ns, [], 0) == 0
  {
  }

  /** What an entry of the table stands for. */
  lemma EntryLevel(ns: seq<nat>, i: nat, row: seq<int>, base: nat, x: Sample) returns (val: nat)
    requires Levels(ns) && i < |ns| && TableRow(ns, i, row, base)
    ensures base + x < |row| && Chosen(x, val, ns[i] - 1) && row[base + x] == val * Block(ns, i)
  {
    hide LargestInput, Block;
    assert TableEntry(ns, i, x, row[base + x]);
    val :| Chosen(x, val, ns[i] - 1) && row[base + x] == val * Block(ns, i);
  }

  lemma {:induction false} PartialIsIndex(ns: seq<nat>, vals: seq<nat>, n: nat)
    requires |ns| == |vals| && n <= |ns|
    ensures Partial(ns, vals, n) + Index(ns[n..], vals[n..]) == Index(ns, vals)
  {
    if n == 0 {
      assert ns[0..] == ns && vals[0..] == vals;
    } else {
      PartialIsIndex(ns, vals, n - 1);
      assert ns[n - 1..][1..] == ns[n..] && vals[n - 1..][1..] == vals[n..];
    }
  }

  /** color_quantize for one pixel: the table entries of its samples, added up. */
  method QuantizePixel(ns: seq<nat>, index: seq<array<int>>, base: nat, pixel: seq<Sample>) returns (code: int)
    requires Levels(ns) && |pixel| == |ns| == |index|
    requires forall i :: 0 <= i < |ns| ==> TableRow(ns, i, index[i][..], base)
    ensures NearCode(ns, pixel, code)
    ensures exists vals :: ChosenLevels(ns, pixel, vals) && code == Index(ns, vals)
  {
    hide Chosen, Block, Partial, TableRow;
    PartialStart(ns);
    code := 0;
    ghost var vals: seq<nat> := [];
    for i := 0 to |ns|
      invariant |vals| == i && forall k :: 0 <= k < i ==> Chosen(pixel[k], vals[k], ns[k] - 1)
      invariant code == Partial(ns, vals, i)
    {
      ghost var val := EntryLevel(ns, i, index[i][..], base, pixel[i]);
      PartialNext(ns, vals, val);
      code := code + index[i][base + pixel[i]];
      vals := vals + [val];
    }
    PartialIsIndex(ns, vals, |ns|);
    ChosenCodeIsNear(ns, pixel, vals);
  }
}
