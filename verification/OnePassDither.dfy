/** The one-pass quantizer's tables under Floyd-Steinberg dithering: the errors diffused, component by
    component, are those of the colour that the finished pixel code stands for. */
module OnePassDither {
  import opened Bits
  import opened NearestColor
  import opened OnePassMap
  import opened OnePassQuantizer
  import opened FsDither

  /** The tables of component i as the dithering loop reads them: the code from the index table, and
      the value from the colormap at that component's code alone. */
  ghost predicate Uses(ns: seq<nat>, i: nat, index: seq<int>, row: seq<int>, q: Quantizer)
    requires Levels(ns) && i < |ns|
  {
    && TableRow(ns, i, index, 0) && GridRow(ns, i, row)
    && forall x: Sample :: q.code[x] == index[x] && (index[x] < |row| ==> q.value[x] == row[index[x]])
  }

  /** A component's code alone is a map entry that has the level in that component. */
  lemma AloneDigit(ns: seq<nat>, i: nat, val: nat)
    requires Levels(ns) && i < |ns| && val < ns[i]
    ensures val * Block(ns, i) < Product(ns) && Digit(ns, i, val * Block(ns, i)) == val
  {
    PositiveProduct(ns);
    PositiveProduct(ns[i + 1..]);
    BlockDivides(ns, i);
    var m: nat :| Product(ns) == m * (ns[i] * Block(ns, i));
    hide Product, Block;
    FirstOf(m, ns[i], Block(ns, i), val);
  }

  lemma FirstOf(m: nat, n: nat, blk: nat, val: nat)
    requires m * (n * blk) > 0 && blk > 0 && val < n
    ensures val * blk < m * (n * blk) && val * blk / blk % n == val
  {
    AtMostOneLess(val, n, blk);
    AtLeastOnce(m, n * blk);
    QuotientIs(val * blk, blk, val, 0);
    DivUnique(val, n, 0, val);
  }

  lemma AtLeastOnce(m: nat, p: nat)
    requires m * p > 0
    ensures m * p >= p
  {
    assert m >= 1;
    assert m * p == p + (m - 1) * p;
  }

  /** The level chosen for sample x of component i. */
  ghost function LevelFor(ns: seq<nat>, i: nat, index: seq<int>, x: Sample): (val: nat)
    requires Levels(ns) && i < |ns| && TableRow(ns, i, index, 0)
    ensures Chosen(x, val, ns[i] - 1) && index[x] == val * Block(ns, i)
  {
    assert TableEntry(ns, i, x - 0, index[x]);
    var val: nat :| Chosen(x, val, ns[i] - 1) && index[x] == val * Block(ns, i);
    val
  }

  lemma ValueIsLevel(ns: seq<nat>, i: nat, index: seq<int>, row: seq<int>, q: Quantizer, x: Sample)
    requires Levels(ns) && i < |ns| && Uses(ns, i, index, row, q)
    ensures var val := LevelFor(ns, i, index, x);
      val < ns[i] && q.code[x] == val * Block(ns, i) && q.value[x] == OutputValue(val, ns[i] - 1)
  {
    var val := LevelFor(ns, i, index, x);
    AloneDigit(ns, i, val);
    assert GridEntry(ns, i, index[x], row[index[x]]);
  }

  /** The corrected sample of component k at column c. */
  ghost function SampleOf(qs: seq<Quantizer>, imgs: seq<seq<seq<Sample>>>, w: nat, c: int, k: nat): Sample
    requires k < |qs| == |imgs| && 0 <= c < w && imgs[k] != [] && IsImage(imgs[k], w)
  {
    Value(qs[k], imgs[k], w, c)
  }

  /** The levels chosen for the corrected samples of column c. */
  lemma LevelsAt(ns: seq<nat>, indexes: seq<seq<int>>, rows: seq<seq<int>>, qs: seq<Quantizer>,
      imgs: seq<seq<seq<Sample>>>, w: nat, c: int)
    returns (vals: seq<nat>)
    requires Levels(ns) && |ns| == |indexes| == |rows| == |qs| == |imgs| && 0 <= c < w
    requires forall k :: 0 <= k < |ns| ==> Uses(ns, k, indexes[k], rows[k], qs[k])
    requires forall k :: 0 <= k < |imgs| ==> imgs[k] != [] && IsImage(imgs[k], w)
    ensures InGrid(ns, vals)
    ensures forall k :: 0 <= k < |ns| ==> qs[k].code[SampleOf(qs, imgs, w, c, k)] == vals[k] * Block(ns, k)
    ensures forall k :: 0 <= k < |ns| ==> qs[k].value[SampleOf(qs, imgs, w, c, k)] == OutputValue(vals[k], ns[k] - 1)
  {
    hide SampleOf, IsImage, LevelFor, GridRow, Block, OutputValue;
    vals := seq(|ns|, k requires 0 <= k < |ns| => LevelFor(ns, k, indexes[k], SampleOf(qs, imgs, w, c, k)));
    forall k | 0 <= k < |ns|
      ensures vals[k] < ns[k] && qs[k].code[SampleOf(qs, imgs, w, c, k)] == vals[k] * Block(ns, k)
      ensures qs[k].value[SampleOf(qs, imgs, w, c, k)] == OutputValue(vals[k], ns[k] - 1)
    {
      ValueIsLevel(ns, k, indexes[k], rows[k], qs[k], SampleOf(qs, imgs, w, c, k));
    }
  }

  lemma {:induction false} CodesAddUp(ns: seq<nat>, qs: seq<Quantizer>, imgs: seq<seq<seq<Sample>>>, w: nat, c: int,
      vals: seq<nat>, n: nat)
    requires n <= |ns| == |qs| == |imgs| == |vals| && 0 <= c < w
    requires forall k :: 0 <= k < |imgs| ==> imgs[k] != [] && IsImage(imgs[k], w)
    requires forall k :: 0 <= k < |ns| ==> qs[k].code[SampleOf(qs, imgs, w, c, k)] == vals[k] * Block(ns, k)
    ensures PixelCode(qs, imgs, w, c, n) == Partial(ns, vals, n)
  {
    hide Value, Block, IsImage;
    if n == 0 {
      PixelCodeZero(qs, imgs, w, c);
    } else {
      CodesAddUp(ns, qs, imgs, w, c, vals, n - 1);
      PixelCodeStep(qs, imgs, w, c, n - 1);
    }
  }

  /** The colormap at the entry with the given levels. */
  lemma ColorAt(ns: seq<nat>, k: nat, row: seq<int>, vals: seq<nat>)
    requires Levels(ns) && k < |ns| && GridRow(ns, k, row) && InGrid(ns, vals)
    ensures Index(ns, vals) < Product(ns) == |row| && row[Index(ns, vals)] == OutputValue(vals[k], ns[k] - 1)
  {
    IndexBound(ns, vals);
    IndexDigits(ns, vals, k);
    assert GridEntry(ns, k, Index(ns, vals), row[Index(ns, vals)]);
  }

  /** The code put out for a pixel is a map index, and the colour there is, in every component, the
      value whose difference from the corrected sample was diffused; its level is the one chosen. */
  lemma DiffusedColor(ns: seq<nat>, indexes: seq<seq<int>>, rows: seq<seq<int>>, qs: seq<Quantizer>,
      imgs: seq<seq<seq<Sample>>>, w: nat, c: int)
    requires Levels(ns) && |ns| == |indexes| == |rows| == |qs| == |imgs| && 0 <= c < w
    requires forall k :: 0 <= k < |ns| ==> Uses(ns, k, indexes[k], rows[k], qs[k])
    requires forall k :: 0 <= k < |imgs| ==> imgs[k] != [] && IsImage(imgs[k], w)
    ensures var code := PixelCode(qs, imgs, w, c, |qs|);
      && 0 <= code < Product(ns)
      && forall k :: 0 <= k < |ns| ==>
          |rows[k]| == Product(ns) && rows[k][code] == qs[k].value[SampleOf(qs, imgs, w, c, k)]
  {
    hide IsImage, SampleOf, Block, Index, Product, OutputValue, PixelCode, Digit;
    var vals := LevelsAt(ns, indexes, rows, qs, imgs, w, c);
    CodesAddUp(ns, qs, imgs, w, c, vals, |ns|);
    PartialIsIndex(ns, vals, |ns|);
    NothingMore(ns, vals);
    IndexBound(ns, vals);
    forall k | 0 <= k < |ns|
      ensures |rows[k]| == Product(ns) && rows[k][Index(ns, vals)] == qs[k].value[SampleOf(qs, imgs, w, c, k)]
    {
      assert GridRow(ns, k, rows[k]);
      ColorAt(ns, k, rows[k], vals);
    }
  }

  lemma NothingMore(ns: seq<nat>, vals: seq<nat>)
    requires |ns| == |vals|
    ensures Index(ns[|ns|..], vals[|ns|..]) == 0
  {
  }
}
