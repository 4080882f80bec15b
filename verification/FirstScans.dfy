/** First scans and DC refinements are exact (sections G.1.2.1 and G.1.2.2 of ITU-T T.81): the
    decoder, fed the codes prescribed for some coefficients, stores them at the precision sent. */
module FirstScans {
  import opened Wrappers
  import opened Bits
  import opened HuffDecode
  import opened BitSources
  import opened Coefficients
  import opened Zigzag
  import opened Refine
  import opened Progressive
  import opened SuccessiveApproximation

  // ---------------------------------------------------------------- values

  /** Differences and scaled coefficients that have a category code. */
  type Codable = v: int | -0x8000 < v < 0x8000

  /** The category of v. */
  function SizeOf(v: Codable): (n: Width)
    ensures if v == 0 then n == 0 else n >= 1 && Category(v, n)
  {
    if v == 0 then 0
    else
      RunCategory(Abs(v));
      Log2(Abs(v)) + 1
  }

  function ValueBits(v: Codable): Token
    requires v != 0
  {
    Raw(SizeOf(v), Appended(v, SizeOf(v)))
  }

  // ---------------------------------------------------------------- DC

  /** (x >> al) << al, shifting arithmetically. */
  function DcLevel(x: int, al: nat): int {
    x / Pow2(al) * Pow2(al)
  }

  lemma DcLevelZero(x: int)
    ensures DcLevel(x, 0) == x
  {
  }

  /** What is sent for a difference. */
  function DiffTokens(v: Codable): seq<Token> {
    if v == 0 then [Sym(0)] else [Sym(SizeOf(v)), ValueBits(v)]
  }

  lemma DiffRead(tb: Table, v: Codable, rest: seq<Token>)
    ensures DecodeDiff(Script(tb), DiffTokens(v) + rest, tb) == Some((v, rest))
  {
    var ts := DiffTokens(v) + rest;
    if v == 0 {
      assert ts[1..] == rest;
    } else {
      assert ts[1..] == [ValueBits(v)] + rest;
      assert ts[1..][1..] == rest;
      ExtendInverse(v, 0, SizeOf(v));
    }
  }

  lemma FloorMultiple(x: int, p: nat, m: int)
    requires p >= 1 && p * m <= x
    ensures p * m <= x / p * p <= x
  {
    var q := x / p;
    assert x == p * q + x % p && 0 <= x % p < p;
    MultipleGrows(p, q - m);
    Differ(p, q, m);
  }

  lemma Differ(p: int, q: int, m: int)
    ensures p * (q - m) == p * q - p * m
  {
  }

  lemma DcLevelRange(x: Coefficient, al: nat)
    requires al <= 15
    ensures -0x8000 <= DcLevel(x, al) < 0x8000
  {
    var p, m: int := Pow2(al), Pow2(15 - al);
    assert p * m == 0x8000 by {
      Pow2Add(al, 15 - al);
      Pow2Small();
    }
    hide Pow2;
    Differ(p, 0, m);
    FloorMultiple(x, p, 0 - m);
  }

  /** First DC scan: every coefficient arrives at the precision sent, and the predictor follows. */
  lemma DcFirstExact(tb: Table, x: Coefficient, last: int, al: nat, rest: seq<Token>)
    requires al <= 13 && -0x8000 < x / Pow2(al) - last < 0x8000
    ensures DcFirst(Script(tb), DiffTokens(x / Pow2(al) - last) + rest, tb, last, al)
         == Some((DcLevel(x, al), x / Pow2(al), rest))
  {
    hide DecodeDiff, DiffTokens, Pow2, Wrap16;
    DiffRead(tb, x / Pow2(al) - last, rest);
    DcLevelRange(x, al);
  }

  /** DC refinement: one raw bit of the two's-complement value moves it one level down. */
  lemma DcRefineExact(tb: Table, x: Coefficient, al: nat, rest: seq<Token>)
    requires al <= 13
    ensures -0x8000 <= DcLevel(x, al + 1) < 0x8000
    ensures DcRefine(Script(tb), [Raw(1, x / Pow2(al) % 2)] + rest, DcLevel(x, al + 1), al)
         == Some((DcLevel(x, al), rest))
  {
    var ts := [Raw(1, x / Pow2(al) % 2)] + rest;
    assert ts[1..] == rest;
    DcLevelRange(x, al);
    DcLevelRange(x, al + 1);
    DcStep(x, al);
  }

  lemma DcStep(x: int, al: nat)
    ensures !HasBit(DcLevel(x, al + 1), al)
    ensures DcLevel(x, al) == DcLevel(x, al + 1) + (if HasBit(x, al) then Pow2(al) else 0)
  {
    var p, q := Pow2(al), x / Pow2(al);
    var e := q / 2;
    DivTwiceRight(x, p);
    assert q == 2 * e + q % 2;
    Distribute(e, q % 2, p);
    TwiceProduct(e, p);
    QuotientIs(2 * (e * p), p, 2 * e, 0) by { Distribute(e, 0, p); }
    if q % 2 == 0 { assert q % 2 * p == 0; }
  }

  // ---------------------------------------------------------------- AC: the encoder

  /** The coefficient scaled down towards zero. */
  function Scaled(x: Coefficient, al: nat): int {
    if x < 0 then 0 - Mag(x, al) else Mag(x, al)
  }

  /** The band has no coefficient too large for a category code (-32768 itself, at al == 0). */
  predicate CodableBand(X: Block, o: Order, d: Scan) {
    forall k :: d.ss <= k <= d.se ==> Mag(X[o[k]], d.al) < 0x8000
  }

  /** The first index from k on with something to send; one past the band if none. */
  function NextNonzero(X: Block, o: Order, d: Scan, k: nat): (j: nat)
    requires k <= d.se + 1
    ensures k <= j <= d.se + 1 && (j <= d.se ==> Mag(X[o[j]], d.al) != 0)
    ensures forall i :: k <= i < j ==> Mag(X[o[i]], d.al) == 0
    decreases d.se + 1 - k
  {
    if k > d.se then k else if Mag(X[o[k]], d.al) != 0 then k else NextNonzero(X, o, d, k + 1)
  }

  /** The codes of one block from index k on; e is the run announced if an end of band is due. */
  function FirstTokens(X: Block, o: Order, d: Scan, k: nat, e: RunLength): seq<Token>
    requires d.ss <= k <= d.se + 1 && CodableBand(X, o, d)
    decreases d.se + 1 - k
  {
    var j := NextNonzero(X, o, d, k);
    if k > d.se then []
    else if j > d.se then EobTokens(e)
    else if j - k >= 16 then [Sym(0xF0)] + FirstTokens(X, o, d, k + 16, e)
    else
      var v: Codable := Scaled(X[o[j]], d.al);
      [Sym(16 * (j - k) + SizeOf(v)), ValueBits(v)] + FirstTokens(X, o, d, j + 1, e)
  }

  /** The end-of-band run left after the block. */
  function FirstLeft(X: Block, o: Order, d: Scan, k: nat, e: RunLength): nat
    requires k <= d.se + 1
    decreases d.se + 1 - k
  {
    if k > d.se then 0
    else
      var j := NextNonzero(X, o, d, k);
      if j > d.se then e - 1 else FirstLeft(X, o, d, j + 1, e)
  }

  // ---------------------------------------------------------------- AC: the decoder

  /** The band still to be decoded is all zero. */
  ghost predicate Blank(b: Block, o: Order, d: Scan, k: nat) {
    forall i :: k <= i <= d.se ==> b[o[i]] == 0
  }

  lemma BlankLater(b: Block, X: Block, o: Order, d: Scan, k: nat, j: nat)
    requires Blank(b, o, d, k) && k <= j <= d.se + 1
    ensures Blank(SetLevels(b, X, o, k, j, d.al), o, d, j)
  {
    forall i | j <= i <= d.se ensures SetLevels(b, X, o, k, j, d.al)[o[i]] == 0 {
      SetLevelsAt(b, X, o, k, j, d.al, i);
    }
  }

  /** Coefficients that are zero at this level stay as they are. */
  lemma {:induction false} BlankStays(b: Block, X: Block, o: Order, d: Scan, k: nat, j: nat)
    requires Blank(b, o, d, k) && k <= j <= d.se + 1
    requires forall i :: k <= i < j ==> Mag(X[o[i]], d.al) == 0
    ensures SetLevels(b, X, o, k, j, d.al) == b
    decreases j - k
  {
    if k < j {
      LevelRange(X[o[k]], d.al);
      assert b[o[k] := 0] == b;
      BlankStays(b, X, o, d, k + 1, j);
    }
  }

  lemma BlankThenOne(b: Block, X: Block, o: Order, d: Scan, k: nat, j: nat)
    requires Blank(b, o, d, k) && k <= j <= d.se
    requires forall i :: k <= i < j ==> Mag(X[o[i]], d.al) == 0
    ensures SetLevels(b, X, o, k, j + 1, d.al) == b[o[j] := Level(X[o[j]], d.al)]
  {
    BlankStays(b, X, o, d, k, j);
    SetLevelsSplit(b, X, o, k, j, j + 1, d.al);
  }

  lemma NegativeProduct(m: int, p: int)
    ensures (0 - m) * p == -(m * p)
  {
  }

  lemma ScaledBack(x: Coefficient, al: nat)
    requires Mag(x, al) < 0x8000
    ensures Wrap16(Scaled(x, al) * Pow2(al)) == Level(x, al)
  {
    NegativeProduct(Mag(x, al), Pow2(al));
    assert Scaled(x, al) * Pow2(al) == Level(x, al);
    hide *;
  }

  lemma ValueStep<S>(src: BitSource<S>, s: S, tb: Table, o: Order, d: Scan, b: Block, k: nat, y: byte, s1: S, x: nat,
      s2: S)
    requires k <= d.se && y % 16 != 0
    requires src.symbol(s, tb) == Some((y, s1)) && src.receive(s1, y % 16) == Some((x, s2))
    ensures AcFirst(src, s, tb, o, d, b, k) ==
            AcFirst(src, s2, tb, o, d, b[o[k + y / 16] := Wrap16(Extend(x, y % 16) * Pow2(d.al))], k + y / 16 + 1)
  {
    hide Wrap16, Extend, Pow2;
  }

  lemma CoefRead(tb: Table, X: Block, o: Order, d: Scan, b: Block, k: nat, j: nat, rest: seq<Token>)
    requires k <= j <= d.se && j - k <= 15 && 0 < Mag(X[o[j]], d.al) < 0x8000
    ensures var v: Codable := Scaled(X[o[j]], d.al);
      AcFirst(Script(tb), [Sym(16 * (j - k) + SizeOf(v)), ValueBits(v)] + rest, tb, o, d, b, k)
      == AcFirst(Script(tb), rest, tb, o, d, b[o[j] := Level(X[o[j]], d.al)], j + 1)
  {
    assert Scaled(X[o[j]], d.al) != 0;
    hide *;
    var v: Codable := Scaled(X[o[j]], d.al);
    var n := SizeOf(v);
    RunAndSize(j - k, n);
    ScriptValue(tb, v, 16 * (j - k) + n, rest);
    ScaledBack(X[o[j]], d.al);
    ValueStep(Script(tb), [Sym(16 * (j - k) + n), ValueBits(v)] + rest, tb, o, d, b, k,
              16 * (j - k) + n, [ValueBits(v)] + rest, Appended(v, n), rest);
  }

  lemma RunAndSize(r: nat, n: nat)
    requires r <= 15 && n <= 15
    ensures 16 * r + n < 256 && (16 * r + n) / 16 == r && (16 * r + n) % 16 == n
  {
  }

  lemma ScriptValue(tb: Table, v: Codable, y: byte, rest: seq<Token>)
    requires v != 0 && y % 16 == SizeOf(v)
    ensures Script(tb).symbol([Sym(y), ValueBits(v)] + rest, tb) == Some((y, [ValueBits(v)] + rest))
    ensures Script(tb).receive([ValueBits(v)] + rest, SizeOf(v)) == Some((Appended(v, SizeOf(v)), rest))
    ensures SizeOf(v) >= 1 && Extend(Appended(v, SizeOf(v)), SizeOf(v)) == v
  {
    var bits := [ValueBits(v)] + rest;
    assert ([Sym(y), ValueBits(v)] + rest)[1..] == bits && bits[1..] == rest;
    ExtendInverse(v, 0, SizeOf(v));
    hide Extend, Appended, SizeOf;
  }

  lemma EndStep<S>(src: BitSource<S>, s: S, tb: Table, o: Order, d: Scan, b: Block, k: nat, s1: S)
    requires k <= d.se && src.symbol(s, tb) == Some((0, s1))
    ensures AcFirst(src, s, tb, o, d, b, k) == Some((s1, b, 0))
  {
  }

  lemma EndRunStep<S>(src: BitSource<S>, s: S, tb: Table, o: Order, d: Scan, b: Block, k: nat, y: byte, s1: S, v: nat,
      s2: S)
    requires k <= d.se && 0 < y / 16 < 15 && y % 16 == 0
    requires src.symbol(s, tb) == Some((y, s1)) && src.receive(s1, y / 16) == Some((v, s2))
    ensures AcFirst(src, s, tb, o, d, b, k) == Some((s2, b, Pow2(y / 16) + v - 1))
  {
  }

  lemma EndRead(tb: Table, o: Order, d: Scan, b: Block, k: nat, e: RunLength, rest: seq<Token>)
    requires k <= d.se
    ensures AcFirst(Script(tb), EobTokens(e) + rest, tb, o, d, b, k) == Some((rest, b, e - 1))
  {
    hide *;
    EobSplit(e, rest);
    var n := Log2(e);
    if n == 0 {
      ScriptSymbol(tb, 0, rest);
      EndStep(Script(tb), [Sym(0)] + rest, tb, o, d, b, k, rest);
    } else {
      var bits := [Raw(n, e - Pow2(n))] + rest;
      ScriptSymbol(tb, 16 * n, bits);
      ScriptRaw(tb, n, e - Pow2(n), rest);
      EndRunStep(Script(tb), [Sym(16 * n)] + bits, tb, o, d, b, k, 16 * n, bits, e - Pow2(n), rest);
    }
  }

  lemma SixteenRead(tb: Table, o: Order, d: Scan, b: Block, k: nat, rest: seq<Token>)
    requires k <= d.se
    ensures AcFirst(Script(tb), [Sym(0xF0)] + rest, tb, o, d, b, k) == AcFirst(Script(tb), rest, tb, o, d, b, k + 16)
  {
    assert ([Sym(0xF0)] + rest)[1..] == rest;
  }

  lemma {:induction false} SixteenOn(X: Block, o: Order, d: Scan, k: nat, m: nat, e: RunLength)
    requires m <= d.se + 1 && k <= m <= NextNonzero(X, o, d, k) <= d.se
    ensures NextNonzero(X, o, d, m) == NextNonzero(X, o, d, k) && FirstLeft(X, o, d, m, e) == FirstLeft(X, o, d, k, e)
    decreases m - k
  {
    if k < m { SixteenOn(X, o, d, k + 1, m, e); }
  }

  lemma SixteenFirst(X: Block, o: Order, d: Scan, k: nat, e: RunLength, rest: seq<Token>)
    requires d.ss <= k <= d.se + 1 && CodableBand(X, o, d) && k + 16 <= NextNonzero(X, o, d, k) <= d.se
    ensures FirstTokens(X, o, d, k, e) + rest == [Sym(0xF0)] + (FirstTokens(X, o, d, k + 16, e) + rest)
  {
    hide CodableBand, Mag, SizeOf, ValueBits, Scaled, EobTokens;
    var more := FirstTokens(X, o, d, k + 16, e);
    assert [Sym(0xF0)] + more + rest == [Sym(0xF0)] + (more + rest);
  }

  /** One code: sixteen zeros. */
  lemma SkipSixteen(tb: Table, X: Block, o: Order, d: Scan, b: Block, k: nat, e: RunLength, rest: seq<Token>)
    requires d.ss <= k <= d.se + 1 && CodableBand(X, o, d) && Blank(b, o, d, k)
    requires k + 16 <= NextNonzero(X, o, d, k) <= d.se
    ensures AcFirst(Script(tb), FirstTokens(X, o, d, k, e) + rest, tb, o, d, b, k) ==
              AcFirst(Script(tb), FirstTokens(X, o, d, k + 16, e) + rest, tb, o, d, b, k + 16)
    ensures SetLevels(b, X, o, k, k + 16, d.al) == b && Blank(b, o, d, k + 16)
    ensures FirstLeft(X, o, d, k, e) == FirstLeft(X, o, d, k + 16, e)
  {
    SixteenFirst(X, o, d, k, e, rest);
    hide *;
    SixteenRead(tb, o, d, b, k, FirstTokens(X, o, d, k + 16, e) + rest);
    BlankStays(b, X, o, d, k, k + 16);
    BlankLater(b, X, o, d, k, k + 16);
    SixteenOn(X, o, d, k, k + 16, e);
  }

  lemma FirstHead(X: Block, o: Order, d: Scan, k: nat, e: RunLength, rest: seq<Token>)
    requires d.ss <= k <= d.se + 1 && CodableBand(X, o, d)
    requires NextNonzero(X, o, d, k) <= d.se && NextNonzero(X, o, d, k) - k < 16
    ensures var j := NextNonzero(X, o, d, k);
      && 0 < Mag(X[o[j]], d.al) < 0x8000
      && FirstLeft(X, o, d, k, e) == FirstLeft(X, o, d, j + 1, e)
      && var v: Codable := Scaled(X[o[j]], d.al);
         FirstTokens(X, o, d, k, e) + rest ==
           [Sym(16 * (j - k) + SizeOf(v)), ValueBits(v)] + (FirstTokens(X, o, d, j + 1, e) + rest)
  {
    hide Mag, SizeOf, ValueBits;
  }

  /** One code: the next nonzero coefficient. */
  lemma SendNext(tb: Table, X: Block, o: Order, d: Scan, b: Block, k: nat, e: RunLength, rest: seq<Token>)
    requires d.ss <= k <= d.se + 1 && CodableBand(X, o, d) && Blank(b, o, d, k)
    requires NextNonzero(X, o, d, k) <= d.se && NextNonzero(X, o, d, k) - k < 16
    ensures var j := NextNonzero(X, o, d, k); var b1 := SetLevels(b, X, o, k, j + 1, d.al);
      && AcFirst(Script(tb), FirstTokens(X, o, d, k, e) + rest, tb, o, d, b, k) ==
         AcFirst(Script(tb), FirstTokens(X, o, d, j + 1, e) + rest, tb, o, d, b1, j + 1)
      && Blank(b1, o, d, j + 1) && FirstLeft(X, o, d, k, e) == FirstLeft(X, o, d, j + 1, e)
  {
    hide *;
    var j := NextNonzero(X, o, d, k);
    FirstHead(X, o, d, k, e, rest);
    CoefRead(tb, X, o, d, b, k, j, FirstTokens(X, o, d, j + 1, e) + rest);
    BlankThenOne(b, X, o, d, k, j);
    BlankLater(b, X, o, d, k, j + 1);
  }

  lemma LastCode(tb: Table, X: Block, o: Order, d: Scan, b: Block, k: nat, e: RunLength, rest: seq<Token>)
    requires d.ss <= k <= d.se + 1 && CodableBand(X, o, d) && Blank(b, o, d, k)
    requires NextNonzero(X, o, d, k) > d.se
    ensures AcFirst(Script(tb), FirstTokens(X, o, d, k, e) + rest, tb, o, d, b, k) ==
              Some((rest, SetLevels(b, X, o, k, d.se + 1, d.al), FirstLeft(X, o, d, k, e)))
  {
    if k > d.se {
      assert FirstTokens(X, o, d, k, e) + rest == rest;
    } else {
      assert FirstTokens(X, o, d, k, e) == EobTokens(e) && FirstLeft(X, o, d, k, e) == e - 1;
      hide *;
      EndRead(tb, o, d, b, k, e, rest);
      BlankStays(b, X, o, d, k, d.se + 1);
    }
  }

  /** One block of a first AC scan: every coefficient of the band arrives at the precision sent. */
  lemma {:induction false} FirstRun(tb: Table, X: Block, o: Order, d: Scan, b: Block, k: nat, e: RunLength,
      rest: seq<Token>)
    requires d.ss <= k <= d.se + 1 && CodableBand(X, o, d) && Blank(b, o, d, k)
    ensures AcFirst(Script(tb), FirstTokens(X, o, d, k, e) + rest, tb, o, d, b, k) ==
              Some((rest, SetLevels(b, X, o, k, d.se + 1, d.al), FirstLeft(X, o, d, k, e)))
    decreases d.se + 1 - k
  {
    hide *;
    var j := NextNonzero(X, o, d, k);
    if j > d.se {
      LastCode(tb, X, o, d, b, k, e, rest);
    } else if j - k >= 16 {
      SkipSixteen(tb, X, o, d, b, k, e, rest);
      FirstRun(tb, X, o, d, b, k + 16, e, rest);
      SetLevelsSplit(b, X, o, k, k + 16, d.se + 1, d.al);
    } else {
      SendNext(tb, X, o, d, b, k, e, rest);
      FirstRun(tb, X, o, d, SetLevels(b, X, o, k, j + 1, d.al), j + 1, e, rest);
      SetLevelsSplit(b, X, o, k, j + 1, d.se + 1, d.al);
    }
  }
}
