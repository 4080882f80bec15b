/** The coefficient order of a block: zigzag index to natural (row-major) place. */
module Zigzag {

  const DCTSIZE := 8
  const DCTSIZE2 := 64

  type Place = p: nat | p < DCTSIZE2

  /** The next place on the zigzag walk; it ends in the bottom right corner and stays there. */
  function Step(p: Place): Place {
    var r, c := p / DCTSIZE, p % DCTSIZE;
    if p == 63 then 63
    else if (r + c) % 2 == 0 then
      if c == 7 then p + 8 else if r == 0 then p + 1 else p - 7
    else
      if r == 7 then p + 1 else if c == 0 then p + 8 else p + 7
  }

  /** jpeg_natural_order[k], defined for every k; all entries from 63 on are 63, which is what
      catches zero runs that lead past the end of a block. */
  function NaturalOrder(k: nat): Place {
    if k == 0 then 0 else Step(NaturalOrder(k - 1))
  }

  /** How many places lie on the diagonals before diagonal s. */
  function DiagonalStart(s: nat): nat
    requires s <= 14
  {
    [0, 1, 3, 6, 10, 15, 21, 28, 36, 43, 49, 54, 58, 61, 63][s]
  }

  /** How many places the walk visits before row r, column c. */
  function IndexAt(r: nat, c: nat): int
    requires r + c <= 14
  {
    DiagonalStart(r + c) + (if (r + c) % 2 == 0 then c else r) - (if r + c <= 7 then 0 else r + c - 7)
  }

  /** How many it visits before p. */
  function WalkIndex(p: Place): int {
    IndexAt(p / DCTSIZE, p % DCTSIZE)
  }

  lemma StepLands(p: Place)
    requires p != 63
    ensures var r, c := p / DCTSIZE, p % DCTSIZE;
      var q := Step(p);
      var r', c' := q / DCTSIZE, q % DCTSIZE;
      if (r + c) % 2 == 0 then
        if c == 7 then r' == r + 1 && c' == c else if r == 0 then r' == r && c' == c + 1 else r' == r - 1 && c' == c + 1
      else
        if r == 7 then r' == r && c' == c + 1 else if c == 0 then r' == r + 1 && c' == c else r' == r + 1 && c' == c - 1
  {
  }

  lemma DiagonalGrows(s: nat)
    requires s < 14
    ensures DiagonalStart(s + 1) == DiagonalStart(s) + (if s <= 7 then s + 1 else 15 - s)
  {
  }

  /** From one row and column to the next, as the walk goes. */
  lemma IndexAdvances(r: nat, c: nat, r': nat, c': nat)
    requires r <= 7 && c <= 7 && r' <= 7 && c' <= 7 && r + c < 14
    requires
      if (r + c) % 2 == 0 then
        if c == 7 then r' == r + 1 && c' == c else if r == 0 then r' == r && c' == c + 1 else r' == r - 1 && c' == c + 1
      else
        if r == 7 then r' == r && c' == c + 1 else if c == 0 then r' == r + 1 && c' == c else r' == r + 1 && c' == c - 1
    ensures IndexAt(r', c') == IndexAt(r, c) + 1
  {
    DiagonalGrows(r + c);
    hide DiagonalStart;
  }

  lemma StepAdvances(p: Place)
    requires p != 63
    ensures WalkIndex(Step(p)) == WalkIndex(p) + 1
  {
    StepLands(p);
    hide Step, IndexAt;
    IndexAdvances(p / DCTSIZE, p % DCTSIZE, Step(p) / DCTSIZE, Step(p) % DCTSIZE);
  }

  lemma WalkEnds()
    ensures WalkIndex(0) == 0 && WalkIndex(63) == 63
  {
  }

  /** The walk visits every place exactly once: WalkIndex undoes NaturalOrder. */
  lemma {:induction false} WalkIndexOf(k: nat)
    requires k < DCTSIZE2
    ensures WalkIndex(NaturalOrder(k)) == k
  {
    WalkEnds();
    if k > 0 {
      hide WalkIndex, Step;
      WalkIndexOf(k - 1);
      StepAdvances(NaturalOrder(k - 1));
    }
  }

  lemma LastPlace(p: Place)
    ensures WalkIndex(p) <= 63 && (WalkIndex(p) == 63 ==> p == 63)
  {
  }

  /** The places of one diagonal have consecutive indexes, and the next diagonal follows. */
  lemma OnDiagonal(p: Place)
    ensures var s := p / DCTSIZE + p % DCTSIZE;
      DiagonalStart(s) <= WalkIndex(p) < DiagonalStart(s) + if s <= 7 then s + 1 else 15 - s
  {
    hide DiagonalStart;
  }

  lemma {:induction false} DiagonalsApart(s: nat, t: nat)
    requires s < t <= 14
    ensures DiagonalStart(s) + (if s <= 7 then s + 1 else 15 - s) <= DiagonalStart(t)
    decreases t
  {
    DiagonalGrows(s);
    hide DiagonalStart;
    if s + 1 < t {
      DiagonalsApart(s, t - 1);
      DiagonalGrows(t - 1);
    }
  }

  /** No two places have the same index. */
  lemma IndexUnique(p: Place, q: Place)
    requires WalkIndex(p) == WalkIndex(q)
    ensures p == q
  {
    var s, t := p / DCTSIZE + p % DCTSIZE, q / DCTSIZE + q % DCTSIZE;
    OnDiagonal(p);
    OnDiagonal(q);
    if s < t { DiagonalsApart(s, t); }
    if t < s { DiagonalsApart(t, s); }
    hide DiagonalStart;
  }

  /** The walk comes to every place. */
  lemma WalkedTo(p: Place)
    ensures 0 <= WalkIndex(p) < DCTSIZE2 && NaturalOrder(WalkIndex(p)) == p
  {
    LastPlace(p);
    WalkIndexOf(WalkIndex(p));
    IndexUnique(p, NaturalOrder(WalkIndex(p)));
  }

  lemma {:induction false} PastTheEnd(k: nat)
    requires k >= 63
    ensures NaturalOrder(k) == 63
  {
    if k == 63 {
      WalkIndexOf(63);
      LastPlace(NaturalOrder(63));
    } else {
      PastTheEnd(k - 1);
    }
  }

  /** Eight steps of the walk. */
  ghost predicate Steps(p: Place, a: Place, b: Place, c: Place, d: Place, e: Place, f: Place, g: Place, h: Place) {
    Step(p) == a && Step(a) == b && Step(b) == c && Step(c) == d && Step(d) == e && Step(e) == f && Step(f) == g
        && Step(g) == h
  }

  /** The walk is the source's table, row by row. */
  lemma TableEntries()
    ensures NaturalOrder(0) == 0
    ensures Steps(0, 1, 8, 16, 9, 2, 3, 10, 17)
    ensures Steps(17, 24, 32, 25, 18, 11, 4, 5, 12)
    ensures Steps(12, 19, 26, 33, 40, 48, 41, 34, 27)
    ensures Steps(27, 20, 13, 6, 7, 14, 21, 28, 35)
    ensures Steps(35, 42, 49, 56, 57, 50, 43, 36, 29)
    ensures Steps(29, 22, 15, 23, 30, 37, 44, 51, 58)
    ensures Steps(58, 59, 52, 45, 38, 31, 39, 46, 53)
    ensures Steps(53, 60, 61, 54, 47, 55, 62, 63, 63)
  {
  }

  /** A coefficient order fit for decoding: distinct places for the indexes of a block. */
  type Order = o: seq<Place> | |o| == DCTSIZE2 + 16 && Distinct(o) witness TheOrder()

  predicate Distinct(o: seq<Place>) {
    forall i, j :: 0 <= i < j < DCTSIZE2 && j < |o| ==> o[i] != o[j]
  }

  function TheOrder(): (o: seq<Place>)
    ensures |o| == DCTSIZE2 + 16 && Distinct(o)
  {
    assert forall k :: 0 <= k < DCTSIZE2 ==> WalkIndex(NaturalOrder(k)) == k by {
      forall k | 0 <= k < DCTSIZE2 ensures WalkIndex(NaturalOrder(k)) == k { WalkIndexOf(k); }
    }
    seq(DCTSIZE2 + 16, k requires 0 <= k => NaturalOrder(k))
  }
}
