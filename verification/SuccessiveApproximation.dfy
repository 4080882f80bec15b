/** Successive approximation is exact: fed the codes that section G.1.2 of ITU-T T.81 prescribes
    for some coefficients, the progressive decoder rebuilds those coefficients bit by bit. */
module SuccessiveApproximation {
  import opened Wrappers
  import opened Bits
  import opened HuffTable
  import opened Canonical
  import opened BitStream
  import opened HuffDecode
  import opened BitSources
  import opened InsufficientData
  import opened Coefficients
  import opened Zigzag
  import opened Refine
  import opened Progressive

  // ---------------------------------------------------------------- scripts

  /** What an encoder sends: a Huffman-coded symbol, or n raw bits spelling v. */
  datatype Token = Sym(y: byte) | Raw(n: Width, v: nat)

  /** A source that plays a list of tokens, symbols under table tb0. */
  function Script(tb0: Table): BitSource<seq<Token>> {
    BitSource(
      (ts: seq<Token>, tb: Table) =>
        if ts != [] && ts[0].Sym? && tb == tb0 then Some((ts[0].y, ts[1..])) else None,
      (ts: seq<Token>, n: Width) =>
        if ts != [] && ts[0].Raw? && ts[0].n == n then Some((ts[0].v, ts[1..])) else None)
  }

  ghost predicate HasCode(tb: Table, y: byte) {
    exists p: nat :: IsEntry(tb.spec, p) && tb.spec.huffval[p] == y
  }

  ghost predicate Sendable(tb: Table, t: Token) {
    match t
    case Sym(y) => HasCode(tb, y)
    case Raw(n, v) => v < Pow2(n)
  }

  ghost predicate AllSendable(tb: Table, ts: seq<Token>) {
    forall i :: 0 <= i < |ts| ==> Sendable(tb, ts[i])
  }

  /** The bits of one token. */
  ghost function TokenBits(tb: Table, t: Token): seq<bool>
    requires Sendable(tb, t)
  {
    match t
    case Sym(y) =>
      var p: nat :| IsEntry(tb.spec, p) && tb.spec.huffval[p] == y;
      CodeBits(tb.spec, p)
    case Raw(n, v) => ToBits(v, n)
  }

  ghost function Emit(tb: Table, ts: seq<Token>): seq<bool>
    requires AllSendable(tb, ts)
  {
    if ts == [] then []
    else
      assert Sendable(tb, ts[0]);
      TokenBits(tb, ts[0]) + Emit(tb, ts[1..])
  }

  /** The stream carries exactly the bits of ts, and then rest. */
  ghost predicate Carries(tb: Table, rest: Stream, ts: seq<Token>, s: Stream) {
    AllSendable(tb, ts) && s == Stream(Emit(tb, ts) + rest.bits, rest.ended)
  }

  lemma CarriesNext(tb: Table, rest: Stream, ts: seq<Token>, s: Stream)
    requires ts != [] && Carries(tb, rest, ts, s)
    ensures Sendable(tb, ts[0])
    ensures var c := TokenBits(tb, ts[0]);
      |c| <= |s.bits| && c == s.bits[..|c|] && Carries(tb, rest, ts[1..], Drop(s, |c|))
  {
    assert Sendable(tb, ts[0]);
    assert AllSendable(tb, ts[1..]);
    HeadOff(TokenBits(tb, ts[0]), Emit(tb, ts[1..]), rest.bits);
  }

  lemma HeadOff(c: seq<bool>, e: seq<bool>, r: seq<bool>)
    ensures (c + e + r)[..|c|] == c && (c + e + r)[|c|..] == e + r
  {
  }

  lemma SymbolCarried(tb: Table, rest: Stream, ts: seq<Token>, s: Stream)
    requires ts != [] && ts[0].Sym? && Carries(tb, rest, ts, s)
    ensures var r := AbsSymbol(s, tb); r.Some? && r.value.0 == ts[0].y && Carries(tb, rest, ts[1..], r.value.1)
    ensures Decode(tb.spec, Peek(s, 17)).value.len <= |s.bits|
  {
    CarriesNext(tb, rest, ts, s);
    var y := ts[0].y;
    var p: nat :| IsEntry(tb.spec, p) && tb.spec.huffval[p] == y && TokenBits(tb, ts[0]) == CodeBits(tb.spec, p);
    var c := CodeBits(tb.spec, p);
    assert c <= Peek(s, 17);
    assert Begins(tb.spec, p, Peek(s, 17));
    DecodeIsPrefixMatch(tb.spec, Peek(s, 17));
  }

  lemma RawCarried(tb: Table, rest: Stream, ts: seq<Token>, s: Stream)
    requires ts != [] && ts[0].Raw? && Carries(tb, rest, ts, s)
    ensures var r := AbsReceive(s, ts[0].n); r.Some? && r.value.0 == ts[0].v && Carries(tb, rest, ts[1..], r.value.1)
    ensures ts[0].n <= |s.bits|
  {
    CarriesNext(tb, rest, ts, s);
    var n, v := ts[0].n, ts[0].v;
    ValToBits(v, n);
    DivUnique(v, Pow2(n), 0, v);
    assert Peek(s, n) == ToBits(v, n);
  }

  /** The reading is within the bits of ts, which are all there. */
  ghost predicate CarriesAll(tb: Table, rest: Stream, ts: seq<Token>, r: Reading) {
    Carries(tb, rest, ts, r.s) && !r.over
  }

  /** Whatever decodes from the script decodes from its bits, and nothing beyond them is read. */
  lemma ScriptMetered(tb: Table, rest: Stream)
    ensures Simulates(Script(tb), Metered(), (ts, r) => CarriesAll(tb, rest, ts, r))
  {
    var rel := (ts, r) => CarriesAll(tb, rest, ts, r);
    forall ts: seq<Token>, r: Reading, t: Table | rel(ts, r) && Script(tb).symbol(ts, t).Some?
      ensures Matched(Script(tb).symbol(ts, t), Metered().symbol(r, t), rel)
    {
      SymbolCarried(tb, rest, ts, r.s);
    }
    forall ts: seq<Token>, r: Reading, n: Width | rel(ts, r) && Script(tb).receive(ts, n).Some?
      ensures Matched(Script(tb).receive(ts, n), Metered().receive(r, n), rel)
    {
      RawCarried(tb, rest, ts, r.s);
    }
  }

  // ---------------------------------------------------------------- magnitudes

  function Abs(x: int): nat {
    if x < 0 then -x else x
  }

  /** |x| >> al. */
  function Mag(x: int, al: nat): nat {
    QuotientNat(Abs(x), Pow2(al));
    Abs(x) / Pow2(al)
  }

  /** sign(x) * ((|x| >> al) << al): what is known of x when bits below al are still to come. */
  function Level(x: Coefficient, al: nat): (y: Coefficient)
  {
    LevelRange(x, al);
    if x < 0 then -(Mag(x, al) * Pow2(al)) else Mag(x, al) * Pow2(al)
  }

  lemma LevelRange(x: Coefficient, al: nat)
    ensures Mag(x, al) * Pow2(al) <= Abs(x)
    ensures Mag(x, al) == 0 <==> Mag(x, al) * Pow2(al) == 0
  {
    assert Abs(x) == Pow2(al) * Mag(x, al) + Abs(x) % Pow2(al);
    if Mag(x, al) > 0 { MultipleGrows(Pow2(al), Mag(x, al)); }
  }

  /** At position 0 nothing is missing. */
  lemma LevelZero(x: Coefficient)
    ensures Level(x, 0) == x
  {
  }

  lemma MagStep(x: int, al: nat)
    ensures Mag(x, al) == 2 * Mag(x, al + 1) + Mag(x, al) % 2
  {
    DivTwiceRight(Abs(x), Pow2(al));
  }

  lemma DivTwiceRight(v: int, p: nat)
    requires p >= 1
    ensures v / p / 2 == v / (2 * p)
  {
    var q := v / p;
    var e := q / 2;
    assert v == p * q + v % p;
    assert v == (2 * p) * e + (p * (q % 2) + v % p) by {
      assert q == 2 * e + q % 2;
      assert p * q == p * (2 * e) + p * (q % 2);
      TwiceProduct(p, e);
    }
    assert 0 <= p * (q % 2) <= p;
    DivUnique(v, 2 * p, e, p * (q % 2) + v % p);
  }

  lemma CorrectionValues(x: Coefficient, al: nat, a: int, bit: nat)
    requires al <= 13 && bit <= 1 && Mag(x, al + 1) * Pow2(al + 1) == 2 * a
        && Mag(x, al) * Pow2(al) == 2 * a + bit * Pow2(al)
    requires Level(x, al + 1) != 0 && !HasBit(2 * a, al) && !HasBit(-(2 * a), al)
    ensures bit == 0 ==> Level(x, al) == Level(x, al + 1)
    ensures bit == 1 ==> Correct(Level(x, al + 1), al) == Level(x, al)
  {
    hide Mag, Pow2, HasBit, Wrap16;
  }

  /** The history of a coefficient has no bit al, so a correction bit equal to the next bit of
      its magnitude turns it into the next level. */
  lemma CorrectionExact(x: Coefficient, al: nat)
    requires al <= 13 && Level(x, al + 1) != 0
    ensures Mag(x, al + 1) != 0
    ensures Mag(x, al) % 2 == 0 ==> Level(x, al) == Level(x, al + 1)
    ensures Mag(x, al) % 2 == 1 ==> Correct(Level(x, al + 1), al) == Level(x, al)
  {
    LevelRange(x, al + 1);
    LevelRange(x, al);
    MagStep(x, al);
    SmallPower(al);
    var p, m, bit := Pow2(al), Mag(x, al + 1), Mag(x, al) % 2;
    var a := m * p;
    assert Pow2(al + 1) == 2 * p && Mag(x, al) == 2 * m + bit && (Level(x, al + 1) != 0 ==> m != 0);
    hide *;
    TwiceProduct(m, p);
    Distribute(m, bit, p);
    EvenMultiple(m, al);
    CorrectionValues(x, al, a, bit);
  }

  lemma Distribute(m: int, bit: int, p: int)
    ensures (2 * m + bit) * p == 2 * (m * p) + bit * p
  {
  }

  lemma EvenMultiple(m: int, al: nat)
    ensures !HasBit(2 * (m * Pow2(al)), al) && !HasBit(-(2 * (m * Pow2(al))), al)
  {
    var p := Pow2(al);
    Distribute(m, 0, p);
    Distribute(-m, 0, p);
    assert (-m) * p == -(m * p);
    QuotientIs(2 * (m * p), p, 2 * m, 0);
    QuotientIs(-(2 * (m * p)), p, 2 * -m, 0);
  }

  lemma NewExact(x: Coefficient, al: nat)
    requires al <= 13 && Level(x, al + 1) == 0
    ensures Mag(x, al) <= 1
    ensures Mag(x, al) == 0 ==> Level(x, al) == 0
    ensures Mag(x, al) == 1 ==> Level(x, al) == NewValue(if x > 0 then 1 else 0, al)
  {
    LevelRange(x, al + 1);
    MagStep(x, al);
    SmallPower(al);
  }

  // ---------------------------------------------------------------- AC refinement: the encoder

  predicate WasZero(x: Coefficient, al: nat) {
    Mag(x, al + 1) == 0
  }

  /** Becomes nonzero in this scan. */
  predicate IsNew(x: Coefficient, al: nat) {
    WasZero(x, al) && Mag(x, al) != 0
  }

  /** The first newly nonzero coefficient at or after index k; one past the band if none. */
  function NextNew(X: Block, o: Order, d: Scan, k: nat): (j: nat)
    requires k <= d.se + 1
    ensures k <= j <= d.se + 1 && (j <= d.se ==> IsNew(X[o[j]], d.al))
    ensures forall i :: k <= i < j ==> !IsNew(X[o[i]], d.al)
    decreases d.se + 1 - k
  {
    if k > d.se then k else if IsNew(X[o[k]], d.al) then k else NextNew(X, o, d, k + 1)
  }

  /** Zero-history coefficients with index in k..j-1. */
  function Zeros(X: Block, o: Order, d: Scan, k: nat, j: nat): nat
    requires k <= j <= d.se + 1
    decreases j - k
  {
    if k == j then 0 else (if WasZero(X[o[k]], d.al) then 1 else 0) + Zeros(X, o, d, k + 1, j)
  }

  function CorrectionBit(x: Coefficient, al: nat): Token {
    Raw(1, Mag(x, al) % 2)
  }

  /** Correction bits of the nonzero-history coefficients passed on the way over r zeros. */
  function PassTokens(X: Block, o: Order, d: Scan, k: nat, r: nat): seq<Token>
    requires k <= d.se + 1
    decreases d.se + 1 - k
  {
    if k > d.se then []
    else if !WasZero(X[o[k]], d.al) then [CorrectionBit(X[o[k]], d.al)] + PassTokens(X, o, d, k + 1, r)
    else if r > 0 then PassTokens(X, o, d, k + 1, r - 1)
    else []
  }

  /** The zero-history place reached after passing r others. */
  function PassEnd(X: Block, o: Order, d: Scan, k: nat, r: nat): (j: nat)
    requires k <= d.se + 1
    ensures k <= j <= d.se + 1 && (j <= d.se ==> WasZero(X[o[j]], d.al))
    decreases d.se + 1 - k
  {
    if k > d.se then k
    else if !WasZero(X[o[k]], d.al) then PassEnd(X, o, d, k + 1, r)
    else if r > 0 then PassEnd(X, o, d, k + 1, r - 1)
    else k
  }

  /** Correction bits of all nonzero-history coefficients from k to the end of the band. */
  function TailTokens(X: Block, o: Order, d: Scan, k: nat): seq<Token>
    requires k <= d.se + 1
    decreases d.se + 1 - k
  {
    if k > d.se then []
    else if !WasZero(X[o[k]], d.al) then [CorrectionBit(X[o[k]], d.al)] + TailTokens(X, o, d, k + 1)
    else TailTokens(X, o, d, k + 1)
  }

  /** The largest n with 2^n <= e. */
  function Log2(e: nat): (n: nat)
    requires e >= 1
    ensures Pow2(n) <= e < Pow2(n + 1)
  {
    if e == 1 then 0 else 1 + Log2(e / 2)
  }

  /** Lengths an end-of-band run can announce. */
  type RunLength = e: nat | 1 <= e < 0x8000 witness 1

  lemma RunCategory(e: RunLength)
    ensures Log2(e) <= 14
  {
    if Log2(e) >= 15 {
      Pow2Mono(15, Log2(e));
      Pow2Small();
    }
  }

  /** EOBn and its appended bits announce that e blocks have no more new coefficients. */
  function EobTokens(e: RunLength): seq<Token> {
    RunCategory(e);
    var n := Log2(e);
    if n == 0 then [Sym(0)] else [Sym(16 * n), Raw(n, e - Pow2(n))]
  }

  /** How many zeros the next code passes over: those before the next new coefficient, or, when
      there are sixteen or more of them, fifteen and then one more. */
  function Skip(X: Block, o: Order, d: Scan, k: nat): (r: nat)
    requires k <= d.se + 1 && NextNew(X, o, d, k) <= d.se
    ensures r <= 15
  {
    var z := Zeros(X, o, d, k, NextNew(X, o, d, k));
    if z >= 16 then 15 else z
  }

  /** The place the next code leads to. */
  function Reach(X: Block, o: Order, d: Scan, k: nat): (m: nat)
    requires k <= d.se + 1 && NextNew(X, o, d, k) <= d.se
    ensures k <= m <= NextNew(X, o, d, k)
    ensures m == PassEnd(X, o, d, k, Skip(X, o, d, k))
    ensures m < NextNew(X, o, d, k) <==> Zeros(X, o, d, k, NextNew(X, o, d, k)) >= 16
  {
    PassEndCount(X, o, d, k, Skip(X, o, d, k), NextNew(X, o, d, k));
    PassEnd(X, o, d, k, Skip(X, o, d, k))
  }

  /** The next code: ZRL, or a run of zeros and the sign of a new coefficient. */
  function StepCode(X: Block, o: Order, d: Scan, k: nat): seq<Token>
    requires k <= d.se + 1 && NextNew(X, o, d, k) <= d.se
  {
    var j := NextNew(X, o, d, k);
    var z := Zeros(X, o, d, k, j);
    if z >= 16 then [Sym(0xF0)] else [Sym(16 * z + 1), Raw(1, if X[o[j]] > 0 then 1 else 0)]
  }

  /** The codes of one block from index k on; e is the run announced if an end of band is due.
      The correction bits of the coefficients passed over follow the code that passes them. */
  function RefineTokens(X: Block, o: Order, d: Scan, k: nat, e: RunLength): seq<Token>
    requires k <= d.se + 1
    decreases d.se + 1 - k
  {
    if k > d.se then []
    else if NextNew(X, o, d, k) > d.se then EobTokens(e) + TailTokens(X, o, d, k)
    else
      StepCode(X, o, d, k) + (PassTokens(X, o, d, k, Skip(X, o, d, k)) + RefineTokens(X, o, d, Reach(X, o, d, k) + 1,
          e))
  }

  /** The end-of-band run left after the block. */
  function RunAfter(X: Block, o: Order, d: Scan, k: nat, e: RunLength): nat
    requires k <= d.se + 1
  {
    if LastNew(X, o, d, k) < d.se then e - 1 else 0
  }

  /** The last newly nonzero index from k on, or k - 1 (as an integer) if none. */
  function LastNew(X: Block, o: Order, d: Scan, k: nat): int
    requires k <= d.se + 1
    decreases d.se + 1 - k
  {
    var j := NextNew(X, o, d, k);
    if j > d.se then k - 1 else LastNew(X, o, d, j + 1)
  }

  lemma {:induction false} PassEndCount(X: Block, o: Order, d: Scan, k: nat, r: nat, j: nat)
    requires k <= j <= d.se && WasZero(X[o[j]], d.al)
    ensures Zeros(X, o, d, k, j) == r ==> PassEnd(X, o, d, k, r) == j
    ensures Zeros(X, o, d, k, j) > r ==> PassEnd(X, o, d, k, r) < j
    decreases j - k
  {
    if k < j {
      if !WasZero(X[o[k]], d.al) {
        PassEndCount(X, o, d, k + 1, r, j);
      } else if r > 0 {
        PassEndCount(X, o, d, k + 1, r - 1, j);
      }
    }
  }

  // ---------------------------------------------------------------- AC refinement: the decoder

  /** b with the coefficients of indexes from..to-1 at level al. */
  function SetLevels(b: Block, X: Block, o: Order, from: nat, to: nat, al: nat): Block
    requires to <= DCTSIZE2
    decreases if from < to then to - from else 0
  {
    if from >= to then b else SetLevels(b[o[from] := Level(X[o[from]], al)], X, o, from + 1, to, al)
  }

  lemma {:induction false} SetLevelsSplit(b: Block, X: Block, o: Order, from: nat, mid: nat, to: nat, al: nat)
    requires from <= mid <= to <= DCTSIZE2
    ensures SetLevels(SetLevels(b, X, o, from, mid, al), X, o, mid, to, al) == SetLevels(b, X, o, from, to, al)
    decreases mid - from
  {
    if from < mid {
      SetLevelsSplit(b[o[from] := Level(X[o[from]], al)], X, o, from + 1, mid, to, al);
    }
  }

  /** What SetLevels leaves and what it sets. */
  lemma {:induction false} SetLevelsAt(b: Block, X: Block, o: Order, from: nat, to: nat, al: nat, i: nat)
    requires from <= to <= DCTSIZE2 && i < DCTSIZE2
    ensures SetLevels(b, X, o, from, to, al)[o[i]] == (if from <= i < to then Level(X[o[i]], al) else b[o[i]])
    decreases DCTSIZE2 - from
  {
    if from < to {
      SetLevelsAt(b[o[from] := Level(X[o[from]], al)], X, o, from + 1, to, al, i);
      assert i != from ==> o[i] != o[from];
    }
  }

  /** From index k on, b holds the history: the coefficients one level up. */
  ghost predicate History(b: Block, X: Block, o: Order, d: Scan, k: nat) {
    forall i :: k <= i <= d.se ==> b[o[i]] == Level(X[o[i]], d.al + 1)
  }

  lemma HistoryLater(b: Block, X: Block, o: Order, d: Scan, k: nat, j: nat)
    requires History(b, X, o, d, k) && k <= j <= d.se + 1
    ensures History(SetLevels(b, X, o, k, j, d.al), X, o, d, j)
  {
    forall i | j <= i <= d.se ensures SetLevels(b, X, o, k, j, d.al)[o[i]] == Level(X[o[i]], d.al + 1) {
      SetLevelsAt(b, X, o, k, j, d.al, i);
    }
  }

  lemma HistoryZero(x: Coefficient, al: nat)
    ensures Level(x, al + 1) == 0 <==> WasZero(x, al)
    ensures WasZero(x, al) && !IsNew(x, al) ==> Level(x, al) == 0
  {
    LevelRange(x, al + 1);
    LevelRange(x, al);
  }

  lemma OneCorrection(tb: Table, b: Block, X: Block, o: Order, d: Scan, k: nat, rest: seq<Token>)
    requires k <= d.se && b[o[k]] == Level(X[o[k]], d.al + 1) && !WasZero(X[o[k]], d.al)
    ensures b[o[k]] != 0
    ensures Amend(Script(tb), [CorrectionBit(X[o[k]], d.al)] + rest, b, o[k], d.al) ==
              Some((b[o[k] := Level(X[o[k]], d.al)], rest))
  {
    HistoryZero(X[o[k]], d.al);
    CorrectionExact(X[o[k]], d.al);
    var ts := [CorrectionBit(X[o[k]], d.al)] + rest;
    assert ts[1..] == rest;
    assert b[o[k] := b[o[k]]] == b;
  }

  /** Setting one level, in the three ways the decoder passes a coefficient. */
  lemma OneLevel(b: Block, X: Block, o: Order, d: Scan, k: nat)
    requires k <= d.se && History(b, X, o, d, k)
    ensures var b1 := SetLevels(b, X, o, k, k + 1, d.al);
      && b1 == b[o[k] := Level(X[o[k]], d.al)]
      && History(b1, X, o, d, k + 1)
      && (b[o[k]] == 0 <==> WasZero(X[o[k]], d.al))
      && (WasZero(X[o[k]], d.al) && !IsNew(X[o[k]], d.al) ==> b1 == b)
  {
    HistoryZero(X[o[k]], d.al);
    HistoryLater(b, X, o, d, k, k + 1);
    assert b[o[k] := b[o[k]]] == b;
  }

  /** A nonzero coefficient is corrected exactly. */
  lemma PassCorrected(tb: Table, X: Block, o: Order, d: Scan, b: Block, k: nat, ph: Phase, ts: seq<Token>)
    requires k <= d.se && History(b, X, o, d, k) && !WasZero(X[o[k]], d.al) && !ph.Fetch?
    ensures Run(Script(tb), [CorrectionBit(X[o[k]], d.al)] + ts, tb, o, d, b, k, ph) ==
            Run(Script(tb), ts, tb, o, d, SetLevels(b, X, o, k, k + 1, d.al), k + 1, ph)
  {
    assert b[o[k]] == Level(X[o[k]], d.al + 1);
    hide *;
    OneLevel(b, X, o, d, k);
    OneCorrection(tb, b, X, o, d, k, ts);
    PassNonzero(Script(tb), [CorrectionBit(X[o[k]], d.al)] + ts, tb, o, d, b, k, ph);
  }

  lemma PassTokensHead(X: Block, o: Order, d: Scan, k: nat, r: nat, rest: seq<Token>)
    requires k <= d.se
    ensures PassTokens(X, o, d, k, r) + rest ==
      if !WasZero(X[o[k]], d.al) then [CorrectionBit(X[o[k]], d.al)] + (PassTokens(X, o, d, k + 1, r) + rest)
      else if r > 0 then PassTokens(X, o, d, k + 1, r - 1) + rest
      else rest
    ensures PassEnd(X, o, d, k, r) ==
      if !WasZero(X[o[k]], d.al) then PassEnd(X, o, d, k + 1, r)
      else if r > 0 then PassEnd(X, o, d, k + 1, r - 1)
      else k
  {
  }

  lemma {:induction false} PassRun(tb: Table, X: Block, o: Order, d: Scan, b: Block, k: nat, r: nat, v: Coefficient,
      rest: seq<Token>)
    requires k <= d.se && History(b, X, o, d, k)
    requires var j := PassEnd(X, o, d, k, r);
      j <= d.se && v == Level(X[o[j]], d.al) && forall i :: k <= i < j ==> !IsNew(X[o[i]], d.al)
    ensures var j := PassEnd(X, o, d, k, r);
      Run(Script(tb), PassTokens(X, o, d, k, r) + rest, tb, o, d, b, k, Approach(r, v)) ==
      Run(Script(tb), rest, tb, o, d, SetLevels(b, X, o, k, j + 1, d.al), j + 1, Fetch)
    decreases d.se + 1 - k
  {
    hide *;
    var j := PassEnd(X, o, d, k, r);
    var b1 := SetLevels(b, X, o, k, k + 1, d.al);
    OneLevel(b, X, o, d, k);
    PassTokensHead(X, o, d, k, r, rest);
    if !WasZero(X[o[k]], d.al) {
      PassCorrected(tb, X, o, d, b, k, Approach(r, v), PassTokens(X, o, d, k + 1, r) + rest);
      PassRun(tb, X, o, d, b1, k + 1, r, v, rest);
      SetLevelsSplit(b, X, o, k, k + 1, j + 1, d.al);
    } else if r > 0 {
      PassZero(Script(tb), PassTokens(X, o, d, k, r) + rest, tb, o, d, b, k, r, v);
      PassRun(tb, X, o, d, b1, k + 1, r - 1, v, rest);
      SetLevelsSplit(b, X, o, k, k + 1, j + 1, d.al);
    } else {
      Lands(Script(tb), rest, tb, o, d, b, k, 0, v);
      LandedLevel(b, X, o, d, k);
    }
  }

  lemma LandedLevel(b: Block, X: Block, o: Order, d: Scan, k: nat)
    requires k <= d.se && b[o[k]] == 0
    ensures Landed(b, o, k, Level(X[o[k]], d.al)) == SetLevels(b, X, o, k, k + 1, d.al)
  {
    assert b[o[k] := b[o[k]]] == b;
  }

  lemma TailTokensHead(X: Block, o: Order, d: Scan, k: nat, rest: seq<Token>)
    requires k <= d.se
    ensures TailTokens(X, o, d, k) + rest ==
      if !WasZero(X[o[k]], d.al) then [CorrectionBit(X[o[k]], d.al)] + (TailTokens(X, o, d, k + 1) + rest)
      else TailTokens(X, o, d, k + 1) + rest
  {
  }

  lemma {:induction false} TailRun(tb: Table, X: Block, o: Order, d: Scan, b: Block, k: nat, e: nat, rest: seq<Token>)
    requires k <= d.se + 1 && History(b, X, o, d, k) && e > 0
    requires forall i :: k <= i <= d.se ==> !IsNew(X[o[i]], d.al)
    ensures Run(Script(tb), TailTokens(X, o, d, k) + rest, tb, o, d, b, k, Tail(e)) ==
              Done(rest, SetLevels(b, X, o, k, d.se + 1, d.al), e - 1)
    decreases d.se + 1 - k
  {
    if k > d.se {
      assert TailTokens(X, o, d, k) + rest == rest;
    } else {
      hide *;
      var b1 := SetLevels(b, X, o, k, k + 1, d.al);
      OneLevel(b, X, o, d, k);
      TailTokensHead(X, o, d, k, rest);
      if !WasZero(X[o[k]], d.al) {
        PassCorrected(tb, X, o, d, b, k, Tail(e), TailTokens(X, o, d, k + 1) + rest);
      } else {
        PassTail(Script(tb), TailTokens(X, o, d, k) + rest, tb, o, d, b, k, e);
      }
      TailRun(tb, X, o, d, b1, k + 1, e, rest);
      SetLevelsSplit(b, X, o, k, k + 1, d.se + 1, d.al);
    }
  }

  /** A script begins with the token it is given. */
  lemma ScriptSymbol(tb: Table, y: byte, rest: seq<Token>)
    ensures Script(tb).symbol([Sym(y)] + rest, tb) == Some((y, rest))
  {
    assert ([Sym(y)] + rest)[1..] == rest;
  }

  lemma ScriptRaw(tb: Table, n: Width, v: nat, rest: seq<Token>)
    ensures Script(tb).receive([Raw(n, v)] + rest, n) == Some((v, rest))
  {
    assert ([Raw(n, v)] + rest)[1..] == rest;
  }

  lemma EobSplit(e: RunLength, rest: seq<Token>)
    ensures Log2(e) <= 14
    ensures EobTokens(e) + rest ==
      if Log2(e) == 0 then [Sym(0)] + rest else [Sym(16 * Log2(e))] + ([Raw(Log2(e), e - Pow2(Log2(e)))] + rest)
    ensures Log2(e) == 0 ==> e == 1
  {
    RunCategory(e);
  }

  lemma InterpretEnd<S>(src: BitSource<S>, s: S, tb: Table, al: nat, s1: S)
    requires al <= 13 && src.symbol(s, tb) == Some((0, s1))
    ensures Interpret(src, s, tb, al) == Some((Tail(1), s1))
  {
  }

  lemma InterpretRun<S>(src: BitSource<S>, s: S, tb: Table, al: nat, n: nat, s1: S, v: nat, s2: S)
    requires al <= 13 && 1 <= n <= 14 && src.symbol(s, tb) == Some((16 * n, s1)) && src.receive(s1, n) == Some((v, s2))
    ensures Interpret(src, s, tb, al) == Some((Tail(Pow2(n) + v), s2))
  {
    hide Pow2, NewValue;
    assert 16 * n / 16 == n && 16 * n % 16 == 0;
  }

  lemma EobRead(tb: Table, e: RunLength, al: nat, rest: seq<Token>)
    requires al <= 13
    ensures Interpret(Script(tb), EobTokens(e) + rest, tb, al) == Some((Tail(e), rest))
  {
    hide *;
    EobSplit(e, rest);
    var n := Log2(e);
    if n == 0 {
      ScriptSymbol(tb, 0, rest);
      InterpretEnd(Script(tb), [Sym(0)] + rest, tb, al, rest);
    } else {
      var bits := [Raw(n, e - Pow2(n))] + rest;
      ScriptSymbol(tb, 16 * n, bits);
      ScriptRaw(tb, n, e - Pow2(n), rest);
      InterpretRun(Script(tb), [Sym(16 * n)] + bits, tb, al, n, bits, e - Pow2(n), rest);
    }
  }

  lemma ZrlRead(tb: Table, al: nat, rest: seq<Token>)
    requires al <= 13
    ensures Interpret(Script(tb), [Sym(0xF0)] + rest, tb, al) == Some((Approach(15, 0), rest))
  {
    assert ([Sym(0xF0)] + rest)[1..] == rest;
  }

  lemma NewRead(tb: Table, x: Coefficient, z: nat, al: nat, rest: seq<Token>)
    requires al <= 13 && z <= 15 && IsNew(x, al)
    ensures Interpret(Script(tb), [Sym(16 * z + 1), Raw(1, if x > 0 then 1 else 0)] + rest, tb, al) ==
              Some((Approach(z, Level(x, al)), rest))
  {
    var bit := Raw(1, if x > 0 then 1 else 0);
    var ts := [Sym(16 * z + 1), bit] + rest;
    assert ts[1..] == [bit] + rest;
    assert ts[1..][1..] == rest;
    HistoryZero(x, al);
    NewExact(x, al);
  }

  lemma StepSplit(X: Block, o: Order, d: Scan, k: nat, e: RunLength, rest: seq<Token>)
    requires k <= d.se + 1 && NextNew(X, o, d, k) <= d.se
    ensures RefineTokens(X, o, d, k, e) + rest ==
         StepCode(X, o, d, k) +
         (PassTokens(X, o, d, k, Skip(X, o, d, k)) + (RefineTokens(X, o, d, Reach(X, o, d, k) + 1, e) + rest))
  {
    ConcatAssoc(StepCode(X, o, d, k), PassTokens(X, o, d, k, Skip(X, o, d, k)),
                RefineTokens(X, o, d, Reach(X, o, d, k) + 1, e), rest);
  }

  lemma ConcatAssoc<T>(a: seq<T>, b: seq<T>, c: seq<T>, d: seq<T>)
    ensures a + (b + c) + d == a + (b + (c + d))
  {
  }

  /** The decoder reads the code as: approach the place where the next value goes. */
  lemma StepRead(tb: Table, X: Block, o: Order, d: Scan, k: nat, rest: seq<Token>)
    requires k <= d.se + 1 && NextNew(X, o, d, k) <= d.se
    ensures Interpret(Script(tb), StepCode(X, o, d, k) + rest, tb, d.al)
         == Some((Approach(Skip(X, o, d, k), Level(X[o[Reach(X, o, d, k)]], d.al)), rest))
  {
    var j := NextNew(X, o, d, k);
    if Zeros(X, o, d, k, j) >= 16 {
      ZrlRead(tb, d.al, rest);
      HistoryZero(X[o[Reach(X, o, d, k)]], d.al);
    } else {
      NewRead(tb, X[o[j]], Zeros(X, o, d, k, j), d.al, rest);
    }
  }

  lemma StepRunAfter(X: Block, o: Order, d: Scan, k: nat, e: RunLength)
    requires k <= d.se + 1 && NextNew(X, o, d, k) <= d.se
    ensures RunAfter(X, o, d, Reach(X, o, d, k) + 1, e) == RunAfter(X, o, d, k, e)
  {
    var m := Reach(X, o, d, k);
    if m < NextNew(X, o, d, k) { RunAfterSkip(X, o, d, k, m + 1, e); }
  }

  lemma {:induction false} RunAfterSkip(X: Block, o: Order, d: Scan, k: nat, m: nat, e: RunLength)
    requires k <= d.se + 1 && m <= d.se + 1 && k <= m <= NextNew(X, o, d, k) <= d.se
    ensures NextNew(X, o, d, m) == NextNew(X, o, d, k) && RunAfter(X, o, d, m, e) == RunAfter(X, o, d, k, e)
    decreases m - k
  {
    if k < m { RunAfterSkip(X, o, d, k + 1, m, e); }
  }

  lemma FetchStep<S>(src: BitSource<S>, s: S, tb: Table, o: Order, d: Scan, b: Block, k: nat, ph: Phase, s1: S)
    requires k <= d.se && Interpret(src, s, tb, d.al) == Some((ph, s1))
    ensures Run(src, s, tb, o, d, b, k, Fetch) == Run(src, s1, tb, o, d, b, k, ph)
  {
  }

  /** One code: the decoder arrives right behind the place of its value. */
  lemma RefineStep(tb: Table, X: Block, o: Order, d: Scan, b: Block, k: nat, e: RunLength, rest: seq<Token>)
    requires k <= d.se + 1 && History(b, X, o, d, k) && NextNew(X, o, d, k) <= d.se
    ensures Run(Script(tb), RefineTokens(X, o, d, k, e) + rest, tb, o, d, b, k, Fetch) ==
         Run(Script(tb), RefineTokens(X, o, d, Reach(X, o, d, k) + 1, e) + rest, tb, o, d,
             SetLevels(b, X, o, k, Reach(X, o, d, k) + 1, d.al), Reach(X, o, d, k) + 1, Fetch)
  {
    var r := Skip(X, o, d, k);
    var m := Reach(X, o, d, k);
    var after := RefineTokens(X, o, d, m + 1, e) + rest;
    var v := Level(X[o[m]], d.al);
    var mid := PassTokens(X, o, d, k, r) + after;
    StepSplit(X, o, d, k, e, rest);
    StepRead(tb, X, o, d, k, mid);
    FetchStep(Script(tb), StepCode(X, o, d, k) + mid, tb, o, d, b, k, Approach(r, v), mid);
    PassRun(tb, X, o, d, b, k, r, v, after);
  }

  /** One block of an AC refinement scan: every coefficient of the band moves one level down. */
  lemma {:induction false} RefineRun(tb: Table, X: Block, o: Order, d: Scan, b: Block, k: nat, e: RunLength,
      rest: seq<Token>)
    requires k <= d.se + 1 && History(b, X, o, d, k)
    ensures Run(Script(tb), RefineTokens(X, o, d, k, e) + rest, tb, o, d, b, k, Fetch) ==
              Done(rest, SetLevels(b, X, o, k, d.se + 1, d.al), RunAfter(X, o, d, k, e))
    decreases d.se + 1 - k, 1
  {
    if k > d.se {
      assert RefineTokens(X, o, d, k, e) + rest == rest;
    } else if NextNew(X, o, d, k) > d.se {
      EndOfBand(tb, X, o, d, b, k, e, rest);
    } else {
      RefineNext(tb, X, o, d, b, k, e, rest);
    }
  }

  lemma {:induction false} RefineNext(tb: Table, X: Block, o: Order, d: Scan, b: Block, k: nat, e: RunLength,
      rest: seq<Token>)
    requires k <= d.se + 1 && History(b, X, o, d, k) && NextNew(X, o, d, k) <= d.se
    ensures Run(Script(tb), RefineTokens(X, o, d, k, e) + rest, tb, o, d, b, k, Fetch) ==
              Done(rest, SetLevels(b, X, o, k, d.se + 1, d.al), RunAfter(X, o, d, k, e))
    decreases d.se + 1 - k, 0
  {
    hide *;
    var m := Reach(X, o, d, k);
    var b1 := SetLevels(b, X, o, k, m + 1, d.al);
    RefineStep(tb, X, o, d, b, k, e, rest);
    StepRunAfter(X, o, d, k, e);
    HistoryLater(b, X, o, d, k, m + 1);
    RefineRun(tb, X, o, d, b1, m + 1, e, rest);
    SetLevelsSplit(b, X, o, k, m + 1, d.se + 1, d.al);
  }

  lemma EndOfBand(tb: Table, X: Block, o: Order, d: Scan, b: Block, k: nat, e: RunLength, rest: seq<Token>)
    requires k <= d.se && History(b, X, o, d, k) && NextNew(X, o, d, k) > d.se
    ensures Run(Script(tb), RefineTokens(X, o, d, k, e) + rest, tb, o, d, b, k, Fetch) ==
              Done(rest, SetLevels(b, X, o, k, d.se + 1, d.al), RunAfter(X, o, d, k, e))
  {
    var tail := TailTokens(X, o, d, k) + rest;
    assert RefineTokens(X, o, d, k, e) + rest == EobTokens(e) + tail;
    EobRead(tb, e, d.al, tail);
    FetchStep(Script(tb), EobTokens(e) + tail, tb, o, d, b, k, Tail(e), tail);
    TailRun(tb, X, o, d, b, k, e, rest);
  }
}
