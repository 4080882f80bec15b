/** What the inverse transform means, without cosines: its eight basis vectors oscillate, are orthogonal and
    multiply as the cosines of a discrete cosine transform do, and a block of one coefficient varies only
    along the axes in which that coefficient has a frequency. */
module IdctBasis {
  import opened Bits
  import opened RangeLimit
  import opened Idct

  // ---------------------------------------------------------------- the basis vectors

  /** The input that is x at j and 0 elsewhere. */
  function Impulse(j: nat, x: int): Eight
    requires j < 8
  {
    seq(8, i => if i == j then x else 0)
  }

  /** Output k for a one at j. */
  function Basis(j: nat, k: nat): int
    requires j < 8 && k < 8
  {
    Output(Impulse(j, 1), k)
  }

  /** The first half of basis vector j; the multipliers, collected. */
  function Half(j: nat, k: nat): int
    requires j < 8 && k < 4
  {
    if j == 0 then 8192
    else if j == 1 then (if k == 0 then 11363 else if k == 1 then 9633 else if k == 2 then 6437 else 2260)
    else if j == 2 then (if k == 0 then 10703 else if k == 1 then 4433 else if k == 2 then -4433 else -10703)
    else if j == 3 then (if k == 0 then 9633 else if k == 1 then -2259 else if k == 2 then -11362 else -6436)
    else if j == 4 then (if k == 0 then 8192 else if k == 1 then -8192 else if k == 2 then -8192 else 8192)
    else if j == 5 then (if k == 0 then 6437 else if k == 1 then -11362 else if k == 2 then 2261 else 9633)
    else if j == 6 then (if k == 0 then 4433 else if k == 1 then -10704 else if k == 2 then 10704 else -4433)
    else (if k == 0 then 2260 else if k == 1 then -6436 else if k == 2 then 9633 else -11363)
  }

  lemma BasisIs(j: nat, k: nat)
    requires j < 8 && k < 8
    ensures Basis(j, k) == if k < 4 then Half(j, k) else if j % 2 == 0 then Half(j, 7 - k) else -Half(j, 7 - k)
  {
    var v := Impulse(j, 1);
    assert forall i :: 0 <= i < 8 ==> v[i] == if i == j then 1 else 0;
  }

  /** The transform is the combination of its basis vectors. */
  lemma Superposition(v: Eight, k: nat)
    requires k < 8
    ensures Output(v, k) == v[0] * Basis(0, k) + v[1] * Basis(1, k) + v[2] * Basis(2, k) + v[3] * Basis(3, k)
        + v[4] * Basis(4, k) + v[5] * Basis(5, k) + v[6] * Basis(6, k) + v[7] * Basis(7, k)
  {
    hide *;
    BasisFolds(k);
    if k < 4 {
      OutputParts(v, k);
      PartsCombine(v, k);
    } else {
      OutputParts(v, 7 - k);
      PartsCombine(v, 7 - k);
    }
  }

  lemma OutputParts(v: Eight, k: nat)
    requires k < 4
    ensures Output(v, k) == EvenPart(v, k) + OddPart(v, k) && Output(v, 7 - k) == EvenPart(v, k) - OddPart(v, k)
  {
    hide EvenPart, OddPart;
  }

  lemma PartsCombine(v: Eight, k: nat)
    requires k < 4
    ensures EvenPart(v, k) == v[0] * Half(0, k) + v[2] * Half(2, k) + v[4] * Half(4, k) + v[6] * Half(6, k)
    ensures OddPart(v, k) == v[1] * Half(1, k) + v[3] * Half(3, k) + v[5] * Half(5, k) + v[7] * Half(7, k)
  {
  }

  lemma BasisFolds(k: nat)
    requires k < 8
    ensures var i, s := if k < 4 then k else 7 - k, if k < 4 then 1 else -1;
      && Basis(0, k) == Half(0, i) && Basis(1, k) == s * Half(1, i) && Basis(2, k) == Half(2, i)
      && Basis(3, k) == s * Half(3, i) && Basis(4, k) == Half(4, i) && Basis(5, k) == s * Half(5, i)
      && Basis(6, k) == Half(6, i) && Basis(7, k) == s * Half(7, i)
  {
    BasisIs(0, k);
    BasisIs(1, k);
    BasisIs(2, k);
    BasisIs(3, k);
    BasisIs(4, k);
    BasisIs(5, k);
    BasisIs(6, k);
    BasisIs(7, k);
    hide *;
  }

  function Flip(a: int, b: int): nat {
    if (a < 0) != (b < 0) then 1 else 0
  }

  /** Number of places where the sign changes from one entry to the next. */
  function SignChanges(v: Eight): nat {
    Flip(v[0], v[1]) + Flip(v[1], v[2]) + Flip(v[2], v[3]) + Flip(v[3], v[4]) + Flip(v[4], v[5]) + Flip(v[5], v[6])
        + Flip(v[6], v[7])
  }

  function Wave(j: nat): Eight
    requires j < 8
  {
    seq(8, k requires 0 <= k < 8 => Basis(j, k))
  }

  function Dot(a: Eight, b: Eight): int {
    a[0] * b[0] + a[1] * b[1] + a[2] * b[2] + a[3] * b[3] + a[4] * b[4] + a[5] * b[5] + a[6] * b[6] + a[7] * b[7]
  }

  lemma ChangesOf(j: nat)
    requires j < 8
    ensures SignChanges(Wave(j)) == j
  {
    hide *;
    WaveIsFolded(j);
    FoldedChanges(j);
  }

  function Folded(j: nat): Eight
    requires j < 8
  {
    [Half(j, 0), Half(j, 1), Half(j, 2), Half(j, 3), Signed(j % 2 == 0, Half(j, 3)), Signed(j % 2 == 0, Half(j, 2)),
      Signed(j % 2 == 0, Half(j, 1)), Signed(j % 2 == 0, Half(j, 0))]
  }

  lemma WaveIsFolded(j: nat)
    requires j < 8
    ensures Wave(j) == Folded(j)
  {
    WaveFolds(j);
    hide Wave, Half, Signed;
    var a := Wave(j);
    assert a[7] == a[7 - 0] && a[6] == a[7 - 1] && a[5] == a[7 - 2] && a[4] == a[7 - 3];
  }

  lemma FoldedChanges(j: nat)
    requires j < 8
    ensures SignChanges(Folded(j)) == j
  {
    hide Wave, Basis;
  }

  /** Basis vector j starts positive, changes sign j times, and is even or odd about the middle as j is. */
  lemma Oscillates(j: nat, k: nat)
    requires j < 8 && k < 8
    ensures Basis(j, 0) > 0 && SignChanges(Wave(j)) == j && Basis(j, k) != 0
    ensures Basis(j, 7 - k) == if j % 2 == 0 then Basis(j, k) else -Basis(j, k)
  {
    hide *;
    ChangesOf(j);
    Reflects(j, k);
    FirstHalf(j, 0);
    if k < 4 {
      FirstHalf(j, k);
    } else {
      FirstHalf(j, 7 - k);
    }
  }

  lemma FirstHalf(j: nat, k: nat)
    requires j < 8 && k < 4
    ensures Basis(j, k) == Half(j, k) && Half(j, k) != 0 && (k == 0 ==> Half(j, k) > 0)
  {
    BasisIs(j, k);
    HalfSigns(j, k);
    hide *;
  }

  lemma Reflects(j: nat, k: nat)
    requires j < 8 && k < 8
    ensures Basis(j, 7 - k) == if j % 2 == 0 then Basis(j, k) else -Basis(j, k)
  {
    hide *;
    BasisIs(j, k);
    BasisIs(j, 7 - k);
    if k < 4 {
      assert 7 - (7 - k) == k;
    }
  }

  lemma HalfSigns(j: nat, k: nat)
    requires j < 8 && k < 4
    ensures Half(j, k) != 0 && Half(j, 0) > 0
  {
  }

  lemma WaveFolds(j: nat)
    requires j < 8
    ensures forall k :: 0 <= k < 4 ==> Wave(j)[k] == Half(j, k)
    ensures forall k :: 0 <= k < 4 ==> Wave(j)[7 - k] == Signed(j % 2 == 0, Half(j, k))
  {
    forall k | 0 <= k < 4 ensures Wave(j)[k] == Half(j, k) && Wave(j)[7 - k] == Signed(j % 2 == 0, Half(j, k)) {
      BasisIs(j, k);
      BasisIs(j, 7 - k);
      hide Basis, Half;
    }
  }

  function Signed(plus: bool, x: int): int {
    if plus then x else -x
  }

  function HalfDot(i: nat, j: nat): int
    requires i < 8 && j < 8
  {
    Half(i, 0) * Half(j, 0) + Half(i, 1) * Half(j, 1) + Half(i, 2) * Half(j, 2) + Half(i, 3) * Half(j, 3)
  }

  lemma DotFolds(i: nat, j: nat)
    requires i < 8 && j < 8
    ensures Dot(Wave(i), Wave(j)) == if i % 2 == j % 2 then 2 * HalfDot(i, j) else 0
  {
    hide Wave, Half, Basis;
    WaveFolds(i);
    WaveFolds(j);
    var e, f := i % 2 == 0, j % 2 == 0;
    SignedProduct(e, f, Half(i, 0), Half(j, 0));
    SignedProduct(e, f, Half(i, 1), Half(j, 1));
    SignedProduct(e, f, Half(i, 2), Half(j, 2));
    SignedProduct(e, f, Half(i, 3), Half(j, 3));
    var a, b := Wave(i), Wave(j);
    assert a[7] == a[7 - 0] && b[7] == b[7 - 0] && a[6] == a[7 - 1] && b[6] == b[7 - 1];
    assert a[5] == a[7 - 2] && b[5] == b[7 - 2] && a[4] == a[7 - 3] && b[4] == b[7 - 3];
  }

  lemma SignedProduct(e: bool, f: bool, x: int, y: int)
    ensures Signed(e, x) * Signed(f, y) == Signed(e == f, x * y)
  {
  }

  /** The basis vectors are orthogonal, and each has length 8192 times the root of 8, up to the rounding of the
      multipliers. */
  lemma Orthogonal(i: nat, j: nat)
    requires i < 8 && j < 8
    ensures -48120 <= Dot(Wave(i), Wave(j)) - (if i == j then 8 * 8192 * 8192 else 0) <= 39142
  {
    hide *;
    DotFolds(i, j);
    if i % 2 == j % 2 {
      if i % 2 == 0 { EvenOrthogonal(i, j); } else { OddOrthogonal(i, j); }
    }
  }

  lemma EvenOrthogonal(i: nat, j: nat)
    requires i < 8 && j < 8 && i % 2 == 0 && j % 2 == 0
    ensures -24060 <= HalfDot(i, j) - (if i == j then 4 * 8192 * 8192 else 0) <= 19571
  {
  }

  lemma OddOrthogonal(i: nat, j: nat)
    requires i < 8 && j < 8 && i % 2 == 1 && j % 2 == 1
    ensures -24060 <= HalfDot(i, j) - (if i == j then 4 * 8192 * 8192 else 0) <= 19571
  {
  }

  /** Up to rounding, the basis vectors multiply as cosines do: with Basis(j, k) for the cosine of
      (2k + 1) j pi / 16 times 8192 times the root of 2, the product of two cosines is half the sum of the
      cosines of sum and difference; 11585 and 5793 are 8192 times and by the root of 2. */
  lemma MultiplyAsCosines(j: nat, k: nat)
    requires 1 <= j < 8 && k < 8
    ensures var (below, above) := (if j == 1 then 11585 else Basis(j - 1, k), if j == 7 then 0 else Basis(j + 1, k));
      -14940 <= Basis(1, k) * Basis(j, k) - 5793 * (below + above) <= 14940
  {
    hide *;
    if k < 4 {
      CosinesOfHalf(j, k);
    } else {
      CosinesOfHalf(j, 7 - k);
      Reflects(1, k);
      Reflects(j, k);
      if j > 1 { Reflects(j - 1, k); }
      if j < 7 { Reflects(j + 1, k); }
      Negated(Basis(1, k), Basis(j, k));
    }
  }

  lemma Negated(x: int, y: int)
    ensures -x * y == -(x * y) && -x * -y == x * y
  {
  }

  lemma CosinesOfHalf(j: nat, k: nat)
    requires 1 <= j < 8 && k < 4
    ensures var (below, above) := (if j == 1 then 11585 else Basis(j - 1, k), if j == 7 then 0 else Basis(j + 1, k));
      -14940 <= Basis(1, k) * Basis(j, k) - 5793 * (below + above) <= 14940
  {
    hide *;
    HalfCosines(j, k);
    FirstHalf(1, k);
    FirstHalf(j, k);
    if j > 1 { FirstHalf(j - 1, k); }
    if j < 7 { FirstHalf(j + 1, k); }
  }

  lemma HalfCosines(j: nat, k: nat)
    requires 1 <= j < 8 && k < 4
    ensures var (below, above) := (if j == 1 then 11585 else Half(j - 1, k), if j == 7 then 0 else Half(j + 1, k));
      -14940 <= Half(1, k) * Half(j, k) - 5793 * (below + above) <= 14940
  {
  }

  // ---------------------------------------------------------------- one input, one coefficient

  ghost predicate OnlyAt(v: Eight, j: nat) {
    forall i :: 0 <= i < 8 && i != j ==> v[i] == 0
  }

  lemma OneInput(v: Eight, j: nat, k: nat)
    requires j < 8 && k < 8 && OnlyAt(v, j)
    ensures Output(v, k) == v[j] * Basis(j, k)
  {
    Superposition(v, k);
    hide Output, Basis;
    forall i | 0 <= i < 8 ensures v[i] * Basis(i, k) == if i == j then v[j] * Basis(j, k) else 0 {
      if i != j { ZeroProduct(v[i], Basis(i, k)); }
    }
  }

  lemma ZeroProduct(x: int, y: int)
    requires x == 0
    ensures x * y == 0
  {
  }

  function Outputs(v: Eight): Eight {
    seq(8, k requires 0 <= k < 8 => Output(v, k))
  }

  lemma FlipScales(x: int, a: int, b: int)
    requires x != 0 && a != 0 && b != 0
    ensures Flip(x * a, x * b) == Flip(a, b) && (x * a > 0 <==> (x > 0 <==> a > 0))
  {
    ProductSign(x, a);
    ProductSign(x, b);
  }

  lemma ProductSign(x: int, a: int)
    requires x != 0 && a != 0
    ensures x * a != 0 && (x * a > 0 <==> (x > 0 <==> a > 0))
  {
    if x > 0 && a > 0 {
      assert x * a > 0;
    } else if x > 0 {
      assert x * -a > 0;
    } else if a > 0 {
      assert -x * a > 0;
    } else {
      assert -x * -a > 0;
    }
  }

  /** A single nonzero input j gives outputs that start with its sign and change sign j times. */
  lemma OneInputOscillates(v: Eight, j: nat)
    requires j < 8 && OnlyAt(v, j) && v[j] != 0
    ensures SignChanges(Outputs(v)) == j && (Output(v, 0) > 0 <==> v[j] > 0)
  {
    hide Output, Basis, Half, Flip;
    Oscillates(j, 0);
    forall k | 0 <= k < 8 ensures Outputs(v)[k] == v[j] * Basis(j, k) { OneInput(v, j, k); }
    forall k | 0 <= k < 7 ensures Flip(v[j] * Basis(j, k), v[j] * Basis(j, k + 1)) == Flip(Wave(j)[k], Wave(j)[k + 1]) {
      Oscillates(j, k);
      Oscillates(j, k + 1);
      FlipScales(v[j], Basis(j, k), Basis(j, k + 1));
    }
    FlipScales(v[j], Basis(j, 0), Basis(j, 0));
  }

  /** The block has no other nonzero coefficient than the one in row u and column v. */
  ghost predicate OnlyCoefficient(coef: Matrix, u: nat, v: nat) {
    forall p :: 0 <= p < 64 && p != 8 * u + v ==> coef[p] == 0
  }

  /** One coefficient of dequantized value d gives in every sample the product of a vertical wave of frequency
      u and a horizontal wave of frequency v, rounded after each pass. */
  lemma OneCoefficient(coef: Matrix, quant: Matrix, u: nat, v: nat, r: nat, c: nat)
    requires u < 8 && v < 8 && r < 8 && c < 8 && OnlyCoefficient(coef, u, v)
    ensures var d := coef[8 * u + v] * quant[8 * u + v];
      SampleAt(coef, quant, r, c) == AfterIdct(Descale(Descale(d * Basis(u, r), 1024) * Basis(v, c), 131072))
  {
    hide Output, Basis, AfterIdct;
    var d := coef[8 * u + v] * quant[8 * u + v];
    var work := WorkRow(coef, quant, r);
    forall x | 0 <= x < 8 ensures work[x] == if x == v then Descale(d * Basis(u, r), 1024) else 0 {
      OneColumn(coef, quant, u, v, r, x);
    }
    OneInput(work, v, c);
  }

  lemma OneColumn(coef: Matrix, quant: Matrix, u: nat, v: nat, r: nat, c: nat)
    requires u < 8 && v < 8 && r < 8 && c < 8 && OnlyCoefficient(coef, u, v)
    ensures AfterColumns(coef, quant, r, c) ==
      if c == v then Descale(coef[8 * u + v] * quant[8 * u + v] * Basis(u, r), 1024) else 0
  {
    hide Output, Basis;
    var col := Column(coef, quant, c);
    forall i | 0 <= i < 8 && (c != v || i != u) ensures col[i] == 0 {
      assert 8 * i + c != 8 * u + v && coef[8 * i + c] == 0;
    }
    OneInput(col, u, r);
  }

  /** The samples of such a block are the same along an axis in which the coefficient has frequency 0. */
  lemma FlatAlongZeroFrequency(coef: Matrix, quant: Matrix, u: nat, v: nat, r: nat, c: nat)
    requires u < 8 && v < 8 && r < 8 && c < 8 && OnlyCoefficient(coef, u, v)
    ensures u == 0 ==> SampleAt(coef, quant, r, c) == SampleAt(coef, quant, 0, c)
    ensures v == 0 ==> SampleAt(coef, quant, r, c) == SampleAt(coef, quant, r, 0)
  {
    hide *;
    OneCoefficient(coef, quant, u, v, r, c);
    OneCoefficient(coef, quant, u, v, 0, c);
    OneCoefficient(coef, quant, u, v, r, 0);
    BasisZero(r);
    BasisZero(c);
    BasisZero(0);
  }

  lemma BasisZero(k: nat)
    requires k < 8
    ensures Basis(0, k) == 8192
  {
  }

  /** A block of a DC coefficient alone is flat, at an eighth of its dequantized value, rounded. */
  lemma FlatBlock(coef: Matrix, quant: Matrix, r: nat, c: nat)
    requires r < 8 && c < 8 && OnlyCoefficient(coef, 0, 0)
    ensures var x := (coef[0] * quant[0] + 4) / 8; -512 <= x < 512 ==> SampleAt(coef, quant, r, c) == Clamp(x + 128)
  {
    var d := coef[0] * quant[0];
    OneCoefficient(coef, quant, 0, 0, r, c);
    BasisZero(r);
    BasisZero(c);
    EighthOf(d);
    AfterIdctClamps((d + 4) / 8);
    hide SampleAt, AfterIdct, Basis;
  }

  lemma EighthOf(d: int)
    ensures Descale(Descale(d * 8192, 1024) * 8192, 131072) == (d + 4) / 8
  {
    assert (d * 8192 + 1024) / 2048 == 4 * d by { QuotientIs(d * 8192 + 1024, 2048, 4 * d, 1024); }
    var q, r := (d + 4) / 8, (d + 4) % 8;
    QuotientIs(4 * d * 8192 + 131072, 262144, q, 32768 * r);
  }
}
