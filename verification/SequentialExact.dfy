/** Sequential decoding is exact: fed the codes that sections F.1.2.1 and F.1.2.2 of ITU-T T.81 prescribe for
    some coefficients, the decoder stores exactly those coefficients. */
module SequentialExact {
  import opened Wrappers
  import opened Bits
  import opened BitStream
  import opened HuffDecode
  import opened BitSources
  import opened InsufficientData
  import opened Coefficients
  import opened Zigzag
  import opened Refine
  import opened SuccessiveApproximation
  import opened FirstScans
  import opened SequentialMcu
  import Dc = DcProgression

  // ---------------------------------------------------------------- the codes of one block

  /** All AC coefficients at full precision. */
  const WHOLE: Scan := Band(1, 63, 0)

  predicate AcCodable(X: Block) {
    CodableBand(X, TheOrder(), WHOLE)
  }

  /** The coefficient with zigzag index k. */
  function At(X: Block, k: nat): Coefficient
    requires k < 64
  {
    X[TheOrder()[k]]
  }

  /** The first index from k on with a nonzero coefficient; 64 if there is none. */
  function Next(X: Block, k: nat): (j: nat)
    requires k <= 64
    ensures k <= j <= 64 && (j < 64 ==> At(X, j) != 0)
    ensures forall i :: k <= i < j ==> At(X, i) == 0
  {
    NextNonzero(X, TheOrder(), WHOLE, k)
  }

  /** The codes of the AC coefficients from index k on: runs of zeros and values, and an end of block unless
      the last coefficient is not zero. */
  function AcTokens(X: Block, k: nat): seq<Token>
    requires 1 <= k <= 64 && AcCodable(X)
  {
    FirstTokens(X, TheOrder(), WHOLE, k, 1)
  }

  function Put(needed: bool, blk: nat, X: Block, k: nat): seq<Write>
    requires k < 64
  {
    if needed then [Write(blk, k, At(X, k))] else []
  }

  /** The stores of the nonzero AC coefficients from index k on. */
  function AcWrites(needed: bool, blk: nat, X: Block, k: nat): seq<Write>
    requires k <= 64
    decreases 64 - k
  {
    var j := Next(X, k);
    if j == 64 then [] else Put(needed, blk, X, j) + AcWrites(needed, blk, X, j + 1)
  }

  // ---------------------------------------------------------------- read back from a script

  lemma EndRead(tb: Table, needed: bool, blk: nat, k: nat, rest: seq<Token>)
    requires k < 64
    ensures DecodeAc(Script(tb), [Sym(0)] + rest, tb, needed, blk, k) == Attempt([], Some(rest))
  {
    assert ([Sym(0)] + rest)[1..] == rest;
  }

  lemma SixteenRead(tb: Table, needed: bool, blk: nat, k: nat, rest: seq<Token>)
    requires k < 64
    ensures DecodeAc(Script(tb), [Sym(0xF0)] + rest, tb, needed, blk, k)
         == DecodeAc(Script(tb), rest, tb, needed, blk, k + 16)
  {
    assert ([Sym(0xF0)] + rest)[1..] == rest;
  }

  lemma ValueRead(tb: Table, needed: bool, blk: nat, k: nat, r: nat, x: Codable, rest: seq<Token>)
    requires k + r < 64 && r <= 15 && x != 0
    ensures 16 * r + SizeOf(x) < 256
    ensures DecodeAc(Script(tb), [Sym(16 * r + SizeOf(x)), ValueBits(x)] + rest, tb, needed, blk, k)
         == Before(if needed then [Write(blk, k + r, x)] else [],
                   DecodeAc(Script(tb), rest, tb, needed, blk, k + r + 1))
  {
    RunAndSize(r, SizeOf(x));
    ScriptValue(tb, x, 16 * r + SizeOf(x), rest);
    CoefStep(Script(tb), [Sym(16 * r + SizeOf(x)), ValueBits(x)] + rest, tb, needed, blk, k, 16 * r + SizeOf(x),
        [ValueBits(x)] + rest, Appended(x, SizeOf(x)), rest);
    hide DecodeAc, Extend, Appended;
  }

  lemma CoefStep<S>(src: BitSource<S>, s: S, tb: Table, needed: bool, blk: nat, k: nat, y: byte, s1: S, v: nat, s2: S)
    requires k < 64 && y % 16 != 0
    requires src.symbol(s, tb) == Some((y, s1)) && src.receive(s1, y % 16) == Some((v, s2))
    ensures DecodeAc(src, s, tb, needed, blk, k)
         == Before(Keep(needed, blk, k + y / 16, Extend(v, y % 16)),
                   DecodeAc(src, s2, tb, needed, blk, k + y / 16 + 1))
  {
    hide Extend, Wrap16;
  }

  /** What AcTokens and AcWrites begin with, case by case. */
  lemma NothingLeft(needed: bool, blk: nat, X: Block)
    requires AcCodable(X)
    ensures AcTokens(X, 64) == [] && AcWrites(needed, blk, X, 64) == []
  {
  }

  lemma EndLeft(needed: bool, blk: nat, X: Block, k: nat)
    requires 1 <= k < 64 && AcCodable(X) && Next(X, k) == 64
    ensures AcTokens(X, k) == [Sym(0)] && AcWrites(needed, blk, X, k) == []
  {
    hide TheOrder, CodableBand;
  }

  lemma SixteenLeft(needed: bool, blk: nat, X: Block, k: nat)
    requires 1 <= k < 64 && AcCodable(X) && k + 16 <= Next(X, k) < 64
    ensures AcTokens(X, k) == [Sym(0xF0)] + AcTokens(X, k + 16)
    ensures AcWrites(needed, blk, X, k) == AcWrites(needed, blk, X, k + 16)
  {
    SixteenTokens(X, k);
    NextLater(X, k, k + 16);
    hide *;
    LaterWrites(needed, blk, X, k, k + 16);
  }

  lemma SixteenTokens(X: Block, k: nat)
    requires 1 <= k < 64 && AcCodable(X) && k + 16 <= Next(X, k) < 64
    ensures AcTokens(X, k) == [Sym(0xF0)] + AcTokens(X, k + 16)
  {
    hide TheOrder, CodableBand, NextNonzero, Mag, Scaled, SizeOf, ValueBits;
  }

  lemma NextLater(X: Block, k: nat, m: nat)
    requires k <= m <= 64 && m <= Next(X, k) < 64
    ensures Next(X, m) == Next(X, k)
  {
    SixteenOn(X, TheOrder(), WHOLE, k, m, 1);
    hide TheOrder, NextNonzero, FirstLeft;
  }

  lemma LaterWrites(needed: bool, blk: nat, X: Block, k: nat, m: nat)
    requires k <= 64 && m <= 64 && Next(X, m) == Next(X, k)
    ensures AcWrites(needed, blk, X, k) == AcWrites(needed, blk, X, m)
  {
    hide Next, Put;
  }

  lemma ValueLeft(needed: bool, blk: nat, X: Block, k: nat, rest: seq<Token>)
    requires 1 <= k < 64 && AcCodable(X) && Next(X, k) < 64 && Next(X, k) < k + 16
    ensures var j := Next(X, k); var x := At(X, j);
      && x != 0 && -0x8000 < x && 16 * (j - k) + SizeOf(x) < 256
      && AcTokens(X, k) + rest == [Sym(16 * (j - k) + SizeOf(x)), ValueBits(x)] + (AcTokens(X, j + 1) + rest)
      && AcWrites(needed, blk, X, k) == Put(needed, blk, X, j) + AcWrites(needed, blk, X, j + 1)
  {
    var j := Next(X, k);
    CodableAt(X, j);
    ValueTokens(X, k, rest);
    hide *;
    RunAndSize(j - k, SizeOf(At(X, j)));
    ValueWrites(needed, blk, X, k);
  }

  lemma CodableAt(X: Block, j: nat)
    requires 1 <= j < 64 && AcCodable(X)
    ensures -0x8000 < At(X, j)
  {
    FullPrecision(At(X, j));
    hide TheOrder, Mag;
  }

  lemma ValueWrites(needed: bool, blk: nat, X: Block, k: nat)
    requires k <= 64 && Next(X, k) < 64
    ensures AcWrites(needed, blk, X, k)
         == Put(needed, blk, X, Next(X, k)) + AcWrites(needed, blk, X, Next(X, k) + 1)
  {
    hide Next, Put;
  }

  lemma ValueTokens(X: Block, k: nat, rest: seq<Token>)
    requires 1 <= k < 64 && AcCodable(X) && Next(X, k) < 64 && Next(X, k) < k + 16 && -0x8000 < At(X, Next(X, k))
    ensures var j := Next(X, k); var x := At(X, j);
      16 * (j - k) + SizeOf(x) < 256 &&
      AcTokens(X, k) + rest == [Sym(16 * (j - k) + SizeOf(x)), ValueBits(x)] + (AcTokens(X, j + 1) + rest)
  {
    hide TheOrder, CodableBand, Mag, Scaled, SizeOf, ValueBits, NextNonzero;
    var j := Next(X, k);
    var x := At(X, j);
    RunAndSize(j - k, SizeOf(x));
    FullPrecision(x);
    assert AcTokens(X, k) == [Sym(16 * (j - k) + SizeOf(x)), ValueBits(x)] + AcTokens(X, j + 1);
    Regroup([Sym(16 * (j - k) + SizeOf(x)), ValueBits(x)], AcTokens(X, j + 1), rest);
  }

  lemma Regroup(a: seq<Token>, b: seq<Token>, c: seq<Token>)
    ensures a + b + c == a + (b + c)
  {
  }

  lemma FullPrecision(x: Coefficient)
    ensures Mag(x, 0) == Abs(x) && Scaled(x, 0) == x
  {
  }

  /** The AC coefficients from index k on, read back. */
  lemma {:induction false} AcRead(tb: Table, needed: bool, blk: nat, X: Block, k: nat, rest: seq<Token>)
    requires 1 <= k <= 64 && AcCodable(X)
    ensures DecodeAc(Script(tb), AcTokens(X, k) + rest, tb, needed, blk, k)
         == Attempt(AcWrites(needed, blk, X, k), Some(rest))
    decreases 64 - k
  {
    hide *;
    if k == 64 {
      NothingLeft(needed, blk, X);
      AllDecoded(tb, needed, blk, rest);
      assert [] + rest == rest;
    } else {
      var j := Next(X, k);
      if j == 64 {
        EndLeft(needed, blk, X, k);
        EndRead(tb, needed, blk, k, rest);
      } else if j >= k + 16 {
        SixteenLeft(needed, blk, X, k);
        assert [Sym(0xF0)] + AcTokens(X, k + 16) + rest == [Sym(0xF0)] + (AcTokens(X, k + 16) + rest);
        SixteenRead(tb, needed, blk, k, AcTokens(X, k + 16) + rest);
        AcRead(tb, needed, blk, X, k + 16, rest);
      } else {
        ValueLeft(needed, blk, X, k, rest);
        ValueRead(tb, needed, blk, k, j - k, At(X, j), AcTokens(X, j + 1) + rest);
        AcRead(tb, needed, blk, X, j + 1, rest);
        PutBefore(needed, blk, X, j, AcWrites(needed, blk, X, j + 1), rest);
      }
    }
  }

  lemma AllDecoded(tb: Table, needed: bool, blk: nat, rest: seq<Token>)
    ensures DecodeAc(Script(tb), rest, tb, needed, blk, 64) == Attempt([], Some(rest))
  {
  }

  lemma PutBefore(needed: bool, blk: nat, X: Block, j: nat, ws: seq<Write>, rest: seq<Token>)
    requires j < 64
    ensures Before(if needed then [Write(blk, j, At(X, j))] else [], Attempt(ws, Some(rest)))
         == Attempt(Put(needed, blk, X, j) + ws, Some(rest))
  {
    hide At;
  }

  // ---------------------------------------------------------------- one block on the bit stream

  lemma FromScript(tb: Table, ts: seq<Token>, rest: Stream)
    requires AllSendable(tb, ts)
    ensures CarriesAll(tb, rest, ts, Dc.There(Emit(tb, ts), rest))
  {
    hide Emit, AllSendable;
  }

  lemma ScriptPlayed(tb: Table, rest: Stream, r: Reading)
    requires CarriesAll(tb, rest, [], r)
    ensures r == Reading(rest, false)
  {
    assert [] + rest.bits == rest.bits;
  }

  lemma DiffOnStream(tb: Table, v: Codable, rest: Stream)
    requires AllSendable(tb, DiffTokens(v))
    ensures DecodeDiff(Metered(), Dc.There(Emit(tb, DiffTokens(v)), rest), tb) == Some((v, Reading(rest, false)))
  {
    var ts, rel := DiffTokens(v), (ts, r) => CarriesAll(tb, rest, ts, r);
    var r := Dc.There(Emit(tb, ts), rest);
    FromScript(tb, ts, rest);
    assert rel(ts, r);
    DiffRead(tb, v, []);
    assert ts + [] == ts;
    ScriptMetered(tb, rest);
    DiffSimulated(Script(tb), Metered(), rel, ts, r, tb);
    hide CarriesAll, DecodeDiff, Simulates, Emit, DiffTokens, Dc.There;
    ScriptPlayed(tb, rest, DecodeDiff(Metered(), r, tb).value.1);
  }

  lemma AcOnStream(tb: Table, needed: bool, blk: nat, X: Block, rest: Stream)
    requires AcCodable(X) && AllSendable(tb, AcTokens(X, 1))
    ensures DecodeAc(Metered(), Dc.There(Emit(tb, AcTokens(X, 1)), rest), tb, needed, blk, 1)
         == Attempt(AcWrites(needed, blk, X, 1), Some(Reading(rest, false)))
  {
    var ts, rel := AcTokens(X, 1), (ts, r) => CarriesAll(tb, rest, ts, r);
    var r := Dc.There(Emit(tb, ts), rest);
    FromScript(tb, ts, rest);
    assert rel(ts, r);
    AcRead(tb, needed, blk, X, 1, []);
    assert ts + [] == ts;
    ScriptMetered(tb, rest);
    AcSimulated(Script(tb), Metered(), rel, ts, r, tb, needed, blk, 1);
    hide CarriesAll, DecodeAc, Simulates, Emit, AcTokens, AcWrites, Dc.There, AcCodable;
    ScriptPlayed(tb, rest, DecodeAc(Metered(), r, tb, needed, blk, 1).out.value);
  }

  /** The block can be coded, with difference v from the DC value before it. */
  ghost predicate BlockCodable(plan: BlockPlan, v: int, X: Block) {
    && -0x8000 < v < 0x8000 && AllSendable(plan.dc, DiffTokens(v))
    && AcCodable(X) && AllSendable(plan.ac, AcTokens(X, 1))
  }

  ghost function BlockBits(plan: BlockPlan, v: int, X: Block): seq<bool>
    requires BlockCodable(plan, v, X)
  {
    Emit(plan.dc, DiffTokens(v)) + Emit(plan.ac, AcTokens(X, 1))
  }

  function BlockWrites(plan: BlockPlan, blk: nat, X: Block): seq<Write> {
    (if plan.dcNeeded then [Write(blk, 0, X[0])] else []) + AcWrites(plan.acNeeded, blk, X, 1)
  }

  function Tracked(plan: BlockPlan, last: seq<int>, X: Block): (r: seq<int>)
    requires plan.ci < |last|
    ensures |r| == |last|
  {
    if plan.dcNeeded then last[plan.ci := X[0]] else last
  }

  lemma BlockStep<S>(src: BitSource<S>, s: S, last: seq<int>, plan: BlockPlan, blk: nat, X: Block, s1: S, s2: S,
      diff: int)
    requires plan.ci < |last| && (plan.dcNeeded ==> X[0] == diff + last[plan.ci])
    requires DecodeDiff(src, s, plan.dc) == Some((diff, s1))
    requires DecodeAc(src, s1, plan.ac, plan.acNeeded, blk, 1)
          == Attempt(AcWrites(plan.acNeeded, blk, X, 1), Some(s2))
    ensures DecodeBlock(src, s, last, plan, blk)
         == Attempt(BlockWrites(plan, blk, X), Some((s2, Tracked(plan, last, X))))
  {
    hide DecodeDiff, DecodeAc, AcWrites;
    assert [] + AcWrites(plan.acNeeded, blk, X, 1) == AcWrites(plan.acNeeded, blk, X, 1);
  }

  lemma CodableParts(plan: BlockPlan, v: int, X: Block)
    requires BlockCodable(plan, v, X)
    ensures -0x8000 < v < 0x8000 && AllSendable(plan.dc, DiffTokens(v))
    ensures AcCodable(X) && AllSendable(plan.ac, AcTokens(X, 1))
    ensures BlockBits(plan, v, X) == Emit(plan.dc, DiffTokens(v)) + Emit(plan.ac, AcTokens(X, 1))
  {
    hide Emit, AllSendable, DiffTokens, AcTokens, AcCodable;
  }

  lemma BlockOnStream(plan: BlockPlan, blk: nat, last: seq<int>, v: int, X: Block, rest: Stream)
    requires BlockCodable(plan, v, X) && plan.ci < |last| && (plan.dcNeeded ==> X[0] == v + last[plan.ci])
    ensures DecodeBlock(Metered(), Dc.There(BlockBits(plan, v, X), rest), last, plan, blk)
         == Attempt(BlockWrites(plan, blk, X), Some((Reading(rest, false), Tracked(plan, last, X))))
  {
    hide *;
    CodableParts(plan, v, X);
    var dc, ac := Emit(plan.dc, DiffTokens(v)), Emit(plan.ac, AcTokens(X, 1));
    DiffOnStream(plan.dc, v, Dc.Before(ac, rest));
    AcOnStream(plan.ac, plan.acNeeded, blk, X, rest);
    Dc.BeforeBefore(dc, ac, rest);
    Dc.ThereIs(dc + ac, rest);
    Dc.ThereIs(ac, rest);
    Dc.ThereIs(dc, Dc.Before(ac, rest));
    BlockStep(Metered(), Dc.There(dc + ac, rest), last, plan, blk, X, Dc.There(ac, rest), Reading(rest, false), v);
  }

  // ---------------------------------------------------------------- one MCU on the bit stream

  /** Every block belongs to a component of the scan, and a component's DC is needed or not for all of its
      blocks. */
  predicate PlansOk(plans: seq<BlockPlan>, comps: nat) {
    && (forall b :: 0 <= b < |plans| ==> plans[b].ci < comps)
    && forall a, b :: 0 <= a < |plans| && 0 <= b < |plans| && plans[a].ci == plans[b].ci ==>
        plans[a].dcNeeded == plans[b].dcNeeded
  }

  /** The decoder's predictors are the true ones for every component whose DC is needed. */
  ghost predicate Tracks(plans: seq<BlockPlan>, last: seq<int>, preds: seq<int>) {
    && |last| == |preds| && PlansOk(plans, |preds|)
    && forall b :: 0 <= b < |plans| && plans[b].dcNeeded ==> last[plans[b].ci] == preds[plans[b].ci]
  }

  /** The DC values last coded, after block b. */
  function Pred(plans: seq<BlockPlan>, preds: seq<int>, Xs: seq<Block>, b: nat): (r: seq<int>)
    requires b < |plans| == |Xs| && PlansOk(plans, |preds|)
    ensures |r| == |preds|
  {
    preds[plans[b].ci := Xs[b][0]]
  }

  function Diff(plans: seq<BlockPlan>, preds: seq<int>, Xs: seq<Block>, b: nat): int
    requires b < |plans| == |Xs| && PlansOk(plans, |preds|)
  {
    Xs[b][0] - preds[plans[b].ci]
  }

  /** The blocks of an MCU from number b on can be coded. */
  ghost predicate McuCodable(plans: seq<BlockPlan>, preds: seq<int>, Xs: seq<Block>, b: nat)
    requires b <= |plans| == |Xs| && PlansOk(plans, |preds|)
    decreases |plans| - b
  {
    b < |plans| ==>
      BlockCodable(plans[b], Diff(plans, preds, Xs, b), Xs[b])
      && McuCodable(plans, Pred(plans, preds, Xs, b), Xs, b + 1)
  }

  ghost function McuBits(plans: seq<BlockPlan>, preds: seq<int>, Xs: seq<Block>, b: nat): seq<bool>
    requires b <= |plans| == |Xs| && PlansOk(plans, |preds|) && McuCodable(plans, preds, Xs, b)
    decreases |plans| - b
  {
    if b == |plans| then []
    else
      BlockBits(plans[b], Diff(plans, preds, Xs, b), Xs[b]) + McuBits(plans, Pred(plans, preds, Xs, b), Xs, b + 1)
  }

  function McuWrites(plans: seq<BlockPlan>, Xs: seq<Block>, b: nat): seq<Write>
    requires b <= |plans| == |Xs|
    decreases |plans| - b
  {
    if b == |plans| then [] else BlockWrites(plans[b], b, Xs[b]) + McuWrites(plans, Xs, b + 1)
  }

  /** The DC values last coded, after the whole MCU. */
  function PredsAfter(plans: seq<BlockPlan>, preds: seq<int>, Xs: seq<Block>, b: nat): (r: seq<int>)
    requires b <= |plans| == |Xs| && PlansOk(plans, |preds|)
    ensures |r| == |preds|
    decreases |plans| - b
  {
    if b == |plans| then preds else PredsAfter(plans, Pred(plans, preds, Xs, b), Xs, b + 1)
  }

  /** The decoder's predictors after the MCU. */
  function LastAfter(plans: seq<BlockPlan>, last: seq<int>, Xs: seq<Block>, b: nat): (r: seq<int>)
    requires b <= |plans| == |Xs| && PlansOk(plans, |last|)
    ensures |r| == |last|
    decreases |plans| - b
  {
    if b == |plans| then last else LastAfter(plans, Tracked(plans[b], last, Xs[b]), Xs, b + 1)
  }

  lemma StillTracks(plans: seq<BlockPlan>, last: seq<int>, preds: seq<int>, Xs: seq<Block>, b: nat)
    requires b < |plans| == |Xs| && Tracks(plans, last, preds)
    ensures Tracks(plans, Tracked(plans[b], last, Xs[b]), Pred(plans, preds, Xs, b))
  {
  }

  lemma {:induction false} TracksAfter(plans: seq<BlockPlan>, last: seq<int>, preds: seq<int>, Xs: seq<Block>, b: nat)
    requires b <= |plans| == |Xs| && Tracks(plans, last, preds)
    ensures Tracks(plans, LastAfter(plans, last, Xs, b), PredsAfter(plans, preds, Xs, b))
    decreases |plans| - b
  {
    if b < |plans| {
      StillTracks(plans, last, preds, Xs, b);
      hide Tracked, Pred;
      TracksAfter(plans, Tracked(plans[b], last, Xs[b]), Pred(plans, preds, Xs, b), Xs, b + 1);
    }
  }

  lemma BlocksStep<S>(src: BitSource<S>, s: S, last: seq<int>, plans: seq<BlockPlan>, b: nat, ws: seq<Write>, s1: S,
      last1: seq<int>, ws1: seq<Write>, out: (S, seq<int>))
    requires b < |plans| && DecodeBlock(src, s, last, plans[b], b) == Attempt(ws, Some((s1, last1)))
    requires DecodeBlocks(src, s1, last1, plans, b + 1) == Attempt(ws1, Some(out))
    ensures DecodeBlocks(src, s, last, plans, b) == Attempt(ws + ws1, Some(out))
  {
    hide DecodeBlock;
  }

  /** One MCU, from its codes. */
  lemma {:induction false} McuOnStream(plans: seq<BlockPlan>, last: seq<int>, preds: seq<int>, Xs: seq<Block>, b: nat,
      rest: Stream)
    requires b <= |plans| == |Xs| && Tracks(plans, last, preds) && McuCodable(plans, preds, Xs, b)
    ensures DecodeBlocks(Metered(), Dc.There(McuBits(plans, preds, Xs, b), rest), last, plans, b)
         == Attempt(McuWrites(plans, Xs, b), Some((Reading(rest, false), LastAfter(plans, last, Xs, b))))
    decreases |plans| - b
  {
    if b == |plans| {
      Dc.BeforeBefore([], [], rest);
    } else {
      var v, l1, p1 := Diff(plans, preds, Xs, b), Tracked(plans[b], last, Xs[b]), Pred(plans, preds, Xs, b);
      var head, more := BlockBits(plans[b], v, Xs[b]), McuBits(plans, p1, Xs, b + 1);
      assert plans[b].ci < |last| && (plans[b].dcNeeded ==> Xs[b][0] == v + last[plans[b].ci]);
      McuUnfolds(plans, last, preds, Xs, b);
      StillTracks(plans, last, preds, Xs, b);
      hide *;
      BlockOnStream(plans[b], b, last, v, Xs[b], Dc.Before(more, rest));
      McuOnStream(plans, l1, p1, Xs, b + 1, rest);
      Dc.BeforeBefore(head, more, rest);
      Dc.ThereIs(head + more, rest);
      Dc.ThereIs(more, rest);
      Dc.ThereIs(head, Dc.Before(more, rest));
      BlocksStep(Metered(), Dc.There(head + more, rest), last, plans, b, BlockWrites(plans[b], b, Xs[b]),
          Dc.There(more, rest), l1, McuWrites(plans, Xs, b + 1),
          (Reading(rest, false), LastAfter(plans, l1, Xs, b + 1)));
    }
  }

  lemma McuUnfolds(plans: seq<BlockPlan>, last: seq<int>, preds: seq<int>, Xs: seq<Block>, b: nat)
    requires b < |plans| == |Xs| && Tracks(plans, last, preds) && McuCodable(plans, preds, Xs, b)
    ensures var v, p1 := Diff(plans, preds, Xs, b), Pred(plans, preds, Xs, b);
      && PlansOk(plans, |p1|) && PlansOk(plans, |last|) && BlockCodable(plans[b], v, Xs[b])
      && McuCodable(plans, p1, Xs, b + 1)
      && McuBits(plans, preds, Xs, b) == BlockBits(plans[b], v, Xs[b]) + McuBits(plans, p1, Xs, b + 1)
      && McuWrites(plans, Xs, b) == BlockWrites(plans[b], b, Xs[b]) + McuWrites(plans, Xs, b + 1)
      && LastAfter(plans, last, Xs, b) == LastAfter(plans, Tracked(plans[b], last, Xs[b]), Xs, b + 1)
  {
    hide BlockCodable, BlockBits, BlockWrites, Diff, Pred, Tracked;
  }

  // ---------------------------------------------------------------- what the stores amount to

  /** The place is stored for the block: DC and AC are needed or not. */
  predicate Wanted(plan: BlockPlan, p: nat) {
    if p == 0 then plan.dcNeeded else plan.acNeeded
  }

  /** A coefficient of the MCU goes to its own place. */
  ghost predicate Right(w: Write, plans: seq<BlockPlan>, Xs: seq<Block>) {
    |plans| == |Xs| && w.blk < |plans| && w.k < 64 && Wanted(plans[w.blk], w.k) && w.val == At(Xs[w.blk], w.k)
  }

  lemma {:induction false} AcRight(needed: bool, blk: nat, X: Block, k: nat, w: Write)
    requires 1 <= k <= 64 && w in AcWrites(needed, blk, X, k)
    ensures needed && w.blk == blk && k <= w.k < 64 && w.val == At(X, w.k)
    decreases 64 - k
  {
    hide At, Next;
    var j := Next(X, k);
    if w !in Put(needed, blk, X, j) { AcRight(needed, blk, X, j + 1, w); }
  }

  lemma {:induction false} AcComplete(blk: nat, X: Block, k: nat, i: nat)
    requires 1 <= k <= i < 64 && At(X, i) != 0
    ensures Write(blk, i, At(X, i)) in AcWrites(true, blk, X, k)
    decreases 64 - k
  {
    hide At, Next;
    var j := Next(X, k);
    assert j <= i;
    if j < i {
      AcComplete(blk, X, j + 1, i);
    } else {
      assert Write(blk, i, At(X, i)) in Put(true, blk, X, j);
    }
  }

  lemma BlockRight(plans: seq<BlockPlan>, Xs: seq<Block>, b: nat, w: Write)
    requires b < |plans| == |Xs| && w in BlockWrites(plans[b], b, Xs[b])
    ensures Right(w, plans, Xs)
  {
    assert TheOrder()[0] == 0 by { assert NaturalOrder(0) == 0; }
    hide TheOrder, AcWrites;
    if w in AcWrites(plans[b].acNeeded, b, Xs[b], 1) { AcRight(plans[b].acNeeded, b, Xs[b], 1, w); }
  }

  lemma {:induction false} AllRight(plans: seq<BlockPlan>, Xs: seq<Block>, b: nat, w: Write)
    requires b <= |plans| == |Xs| && w in McuWrites(plans, Xs, b)
    ensures Right(w, plans, Xs)
    decreases |plans| - b
  {
    hide Right, BlockWrites;
    if b < |plans| {
      if w in BlockWrites(plans[b], b, Xs[b]) {
        BlockRight(plans, Xs, b, w);
      } else {
        AllRight(plans, Xs, b + 1, w);
      }
    }
  }

  lemma BlockStores(plan: BlockPlan, blk: nat, X: Block, k: nat)
    requires k < 64 && Wanted(plan, k) && At(X, k) != 0
    ensures Write(blk, k, At(X, k)) in BlockWrites(plan, blk, X)
  {
    assert TheOrder()[0] == 0 by { assert NaturalOrder(0) == 0; }
    hide TheOrder, AcWrites;
    if k > 0 {
      AcComplete(blk, X, 1, k);
    } else {
      assert Write(blk, 0, X[0]) in [Write(blk, 0, X[0])];
    }
  }

  /** Every nonzero coefficient that is wanted is stored. */
  lemma {:induction false} AllStored(plans: seq<BlockPlan>, Xs: seq<Block>, b: nat, blk: nat, k: nat)
    requires b <= blk < |plans| == |Xs| && k < 64 && Wanted(plans[blk], k) && At(Xs[blk], k) != 0
    ensures Write(blk, k, At(Xs[blk], k)) in McuWrites(plans, Xs, b)
    decreases |plans| - b
  {
    hide At, BlockWrites, Wanted;
    if b == blk {
      BlockStores(plans[b], b, Xs[b], k);
    } else {
      AllStored(plans, Xs, b + 1, blk, k);
    }
  }

  /** A place holds what was stored there, if all stores there agree, and otherwise what it held. */
  lemma {:induction false} AppliedAt(ws: seq<Write>, base: seq<int>, i: nat, v: int)
    requires i < |base| && forall n :: 0 <= n < |ws| && Offset(ws[n]) == i ==> ws[n].val == v
    ensures Apply(ws, base)[i] == v
         || (Apply(ws, base)[i] == base[i] && forall n :: 0 <= n < |ws| ==> Offset(ws[n]) != i)
  {
    if ws != [] {
      hide Offset;
      AppliedAt(ws[..|ws| - 1], base, i, v);
    }
  }

  lemma SamePlace(a: nat, p: nat, b: nat, q: nat)
    requires p < 64 && q < 64 && 64 * a + p == 64 * b + q
    ensures a == b && p == q
  {
  }

  /** Different indexes of a block go to different places. */
  lemma OffsetUnique(w: Write, blk: nat, k: nat)
    requires w.k < 64 && k < 64 && Offset(w) == 64 * blk + NaturalOrder(k)
    ensures w.blk == blk && w.k == k
  {
    WalkIndexOf(w.k);
    WalkIndexOf(k);
    hide NaturalOrder, WalkIndex;
    SamePlace(w.blk, NaturalOrder(w.k), blk, NaturalOrder(k));
  }

  /** The blocks of an MCU, laid end to end: wanted coefficients are those of Xs, the others zero. */
  ghost predicate Holds(out: seq<int>, plans: seq<BlockPlan>, Xs: seq<Block>) {
    && |plans| == |Xs| && |out| == 64 * |plans|
    && forall b, p :: 0 <= b < |plans| && 0 <= p < 64 ==>
        out[64 * b + p] == if Wanted(plans[b], p) then Xs[b][p] else 0
  }

  function Zeroed(n: nat): (z: seq<int>)
    ensures |z| == n && forall i :: 0 <= i < n ==> z[i] == 0
  {
    seq(n, _ => 0)
  }

  /** The zigzag index of a place. */
  lemma PlaceOf(p: Place) returns (k: nat)
    ensures k < 64 && NaturalOrder(k) == p && (k == 0 <==> p == 0) && forall X: Block :: At(X, k) == X[p]
  {
    k := WalkIndex(p);
    WalkedTo(p);
    WalkIndexOf(0);
    assert NaturalOrder(0) == 0;
    hide WalkIndex, NaturalOrder;
  }

  /** A store to the place of index k in block b puts that coefficient there. */
  lemma OneStore(plans: seq<BlockPlan>, Xs: seq<Block>, b: nat, k: nat, w: Write)
    requires b < |plans| == |Xs| && k < 64 && w in McuWrites(plans, Xs, 0) && Offset(w) == 64 * b + NaturalOrder(k)
    ensures Wanted(plans[b], k) && w.val == At(Xs[b], k)
  {
    hide NaturalOrder, At, McuWrites, Offset, Wanted;
    AllRight(plans, Xs, 0, w);
    OffsetUnique(w, b, k);
  }

  lemma IsStored(plans: seq<BlockPlan>, Xs: seq<Block>, b: nat, k: nat) returns (n: nat)
    requires b < |plans| == |Xs| && k < 64 && Wanted(plans[b], k) && At(Xs[b], k) != 0
    ensures var ws := McuWrites(plans, Xs, 0); n < |ws| && Offset(ws[n]) == 64 * b + NaturalOrder(k)
  {
    hide NaturalOrder, At, McuWrites, Wanted;
    AllStored(plans, Xs, 0, b, k);
    var ws := McuWrites(plans, Xs, 0);
    n :| 0 <= n < |ws| && ws[n] == Write(b, k, At(Xs[b], k));
  }

  lemma PlaceInside(b: nat, n: nat, p: Place)
    requires b < n
    ensures 64 * b + p < 64 * n
  {
  }

  lemma IndexHolds(plans: seq<BlockPlan>, Xs: seq<Block>, b: nat, k: nat)
    requires b < |plans| == |Xs| && k < 64
    ensures Apply(McuWrites(plans, Xs, 0), Zeroed(64 * |plans|))[64 * b + NaturalOrder(k)]
         == if Wanted(plans[b], k) then At(Xs[b], k) else 0
  {
    hide *;
    var ws, i := McuWrites(plans, Xs, 0), 64 * b + NaturalOrder(k);
    var v: int := if Wanted(plans[b], k) then At(Xs[b], k) else 0;
    PlaceInside(b, |plans|, NaturalOrder(k));
    forall n | 0 <= n < |ws| && Offset(ws[n]) == i ensures ws[n].val == v {
      OneStore(plans, Xs, b, k, ws[n]);
    }
    AppliedAt(ws, Zeroed(64 * |plans|), i, v);
    if v != 0 {
      var n := IsStored(plans, Xs, b, k);
      assert Offset(ws[n]) == i;
    }
  }

  lemma PlaceHolds(plans: seq<BlockPlan>, Xs: seq<Block>, b: nat, p: Place)
    requires b < |plans| == |Xs|
    ensures Apply(McuWrites(plans, Xs, 0), Zeroed(64 * |plans|))[64 * b + p]
         == if Wanted(plans[b], p) then Xs[b][p] else 0
  {
    var k := PlaceOf(p);
    assert At(Xs[b], k) == Xs[b][p] && (Wanted(plans[b], k) <==> Wanted(plans[b], p));
    hide NaturalOrder, At, McuWrites, Apply, Wanted;
    IndexHolds(plans, Xs, b, k);
  }

  lemma McuHolds(plans: seq<BlockPlan>, Xs: seq<Block>)
    requires |plans| == |Xs|
    ensures Holds(Apply(McuWrites(plans, Xs, 0), Zeroed(64 * |plans|)), plans, Xs)
  {
    hide McuWrites, Apply, Wanted;
    forall b, p: Place | 0 <= b < |plans| && p < 64
      ensures Apply(McuWrites(plans, Xs, 0), Zeroed(64 * |plans|))[64 * b + p]
           == if Wanted(plans[b], p) then Xs[b][p] else 0
    {
      PlaceHolds(plans, Xs, b, p);
    }
  }
}
