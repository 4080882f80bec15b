/** Whole progressive scans, end-of-band runs spanning blocks included, and the chain of scans
    that brings every coefficient to full precision. */
module Progression {
  import opened Wrappers
  import opened Bits
  import opened BitStream
  import opened HuffDecode
  import opened BitSources
  import opened Coefficients
  import opened Zigzag
  import opened Refine
  import opened Progressive
  import opened SuccessiveApproximation
  import opened FirstScans
  import opened InsufficientData
  import Mcu = ProgressiveMcu
  import Session = ProgressiveSession
  import Seq = SequentialMcu

  // ---------------------------------------------------------------- a scan, block by block

  /** Decoding one block: from a reading state, the block so far and the end-of-band run. */
  type Decoder<!S> = (S, Block, nat) -> Option<(S, Block, nat)>

  /** Once the data has run out the blocks are left alone. */
  function EachBlock<S>(step: Decoder<S>, over: S -> bool, s: S, bs: seq<Block>, e: nat): Option<(S, seq<Block>, nat)> {
    if bs == [] || over(s) then Some((s, bs, e))
    else
      match step(s, bs[0], e)
      case None => None
      case Some((s1, b1, e1)) =>
        match EachBlock(step, over, s1, bs[1..], e1)
        case None => None
        case Some((s2, rest, e2)) => Some((s2, [b1] + rest, e2))
  }

  /** A script does not run out. */
  function Never(ts: seq<Token>): bool {
    false
  }

  function First<S>(src: BitSource<S>, tb: Table, o: Order, d: Scan): Decoder<S> {
    (s: S, b: Block, e: nat) => AcFirstBlock(src, s, tb, o, d, b, e)
  }

  function Refinement<S>(src: BitSource<S>, tb: Table, o: Order, d: Scan): Decoder<S> {
    (s: S, b: Block, e: nat) =>
      match RefineBlock(src, s, tb, o, d, b, e)
      case Stop(_) => None
      case Done(s1, b1, e1) => Some((s1, b1, e1))
  }

  // ---------------------------------------------------------------- what is sent

  /** How a scan codes a block: code announces a run of blocks when the band ends early and
      left is what remains of it; inside a run only tail is sent, for blocks that are quiet. */
  datatype Coder = Coder(
    code: (Block, RunLength) -> seq<Token>,
    left: (Block, RunLength) -> nat,
    tail: Block -> seq<Token>,
    quiet: Block -> bool
  )

  function FirstCoder(o: Order, d: Scan): Coder {
    Coder((X: Block, e: RunLength) => if CodableBand(X, o, d) then FirstTokens(X, o, d, d.ss, e) else [],
          (X: Block, e: RunLength) => FirstLeft(X, o, d, d.ss, e),
          (X: Block) => [],
          (X: Block) => NextNonzero(X, o, d, d.ss) > d.se)
  }

  function RefinementCoder(o: Order, d: Scan): Coder {
    Coder((X: Block, e: RunLength) => RefineTokens(X, o, d, d.ss, e),
          (X: Block, e: RunLength) => RunAfter(X, o, d, d.ss, e),
          (X: Block) => TailTokens(X, o, d, d.ss),
          (X: Block) => NextNew(X, o, d, d.ss) > d.se)
  }

  /** runs[i] is the run announced at block i, if one is; blocks inside a run must be quiet. */
  predicate Honest(c: Coder, Xs: seq<Block>, runs: seq<RunLength>, e: nat)
    requires |runs| == |Xs|
  {
    Xs == [] ||
    if e > 0 then c.quiet(Xs[0]) && Honest(c, Xs[1..], runs[1..], e - 1)
    else Honest(c, Xs[1..], runs[1..], c.left(Xs[0], runs[0]))
  }

  function Send(c: Coder, Xs: seq<Block>, runs: seq<RunLength>, e: nat): seq<Token>
    requires |runs| == |Xs|
  {
    if Xs == [] then []
    else if e > 0 then c.tail(Xs[0]) + Send(c, Xs[1..], runs[1..], e - 1)
    else c.code(Xs[0], runs[0]) + Send(c, Xs[1..], runs[1..], c.left(Xs[0], runs[0]))
  }

  // ---------------------------------------------------------------- block by block exactness

  /** Whatever follows, the decoder turns b into goal when sent X. */
  ghost predicate Exact(step: Decoder<seq<Token>>, c: Coder, X: Block, b: Block, goal: Block) {
    && (forall e: RunLength, rest: seq<Token> :: step(c.code(X, e) + rest, b, 0) == Some((rest, goal, c.left(X, e))))
    && (c.quiet(X) ==> forall n: nat, rest: seq<Token> :: n > 0 ==>
        step(c.tail(X) + rest, b, n) == Some((rest, goal, n - 1)))
  }

  lemma {:induction false} EachExact(step: Decoder<seq<Token>>, c: Coder, Xs: seq<Block>, bs: seq<Block>,
      goals: seq<Block>, runs: seq<RunLength>, e: nat, rest: seq<Token>)
    requires |Xs| == |bs| == |goals| == |runs| && Honest(c, Xs, runs, e)
    requires forall i :: 0 <= i < |Xs| ==> Exact(step, c, Xs[i], bs[i], goals[i])
    ensures var r := EachBlock(step, Never, Send(c, Xs, runs, e) + rest, bs, e);
      r.Some? && r.value.0 == rest && r.value.1 == goals
  {
    if Xs == [] {
      assert Send(c, Xs, runs, e) + rest == rest;
    } else {
      assert Exact(step, c, Xs[0], bs[0], goals[0]);
      var e1 := if e > 0 then e - 1 else c.left(Xs[0], runs[0]);
      var after := Send(c, Xs[1..], runs[1..], e1) + rest;
      assert Send(c, Xs, runs, e) + rest == (if e > 0 then c.tail(Xs[0]) else c.code(Xs[0], runs[0])) + after;
      assert step(Send(c, Xs, runs, e) + rest, bs[0], e) == Some((after, goals[0], e1));
      EachExact(step, c, Xs[1..], bs[1..], goals[1..], runs[1..], e1, rest);
      assert [goals[0]] + goals[1..] == goals;
    }
  }

  lemma WholeScan(step: Decoder<seq<Token>>, c: Coder, Xs: seq<Block>, bs: seq<Block>, goals: seq<Block>,
      runs: seq<RunLength>)
    requires |Xs| == |bs| == |goals| == |runs| && Honest(c, Xs, runs, 0)
    requires forall i :: 0 <= i < |Xs| ==> Exact(step, c, Xs[i], bs[i], goals[i])
    ensures var r := EachBlock(step, Never, Send(c, Xs, runs, 0), bs, 0);
      r.Some? && r.value.0 == [] && r.value.1 == goals
  {
    hide *;
    EachExact(step, c, Xs, bs, goals, runs, 0, []);
    assert Send(c, Xs, runs, 0) + [] == Send(c, Xs, runs, 0);
  }

  lemma FirstExact(tb: Table, o: Order, d: Scan, X: Block, b: Block)
    requires CodableBand(X, o, d) && Blank(b, o, d, d.ss)
    ensures Exact(First(Script(tb), tb, o, d), FirstCoder(o, d), X, b, SetLevels(b, X, o, d.ss, d.se + 1, d.al))
  {
    var goal := SetLevels(b, X, o, d.ss, d.se + 1, d.al);
    var step, c := First(Script(tb), tb, o, d), FirstCoder(o, d);
    forall e: RunLength, rest: seq<Token>
      ensures step(c.code(X, e) + rest, b, 0) == Some((rest, goal, c.left(X, e)))
    {
      FirstRun(tb, X, o, d, b, d.ss, e, rest);
    }
    if c.quiet(X) {
      forall n: nat, rest: seq<Token> | n > 0
        ensures step(c.tail(X) + rest, b, n) == Some((rest, goal, n - 1))
      {
        BlankStays(b, X, o, d, d.ss, d.se + 1);
        assert c.tail(X) + rest == rest;
      }
    }
  }

  lemma RefinementExact(tb: Table, o: Order, d: Scan, X: Block, b: Block)
    requires History(b, X, o, d, d.ss)
    ensures Exact(Refinement(Script(tb), tb, o, d), RefinementCoder(o, d), X, b,
        SetLevels(b, X, o, d.ss, d.se + 1, d.al))
  {
    var goal := SetLevels(b, X, o, d.ss, d.se + 1, d.al);
    var step, c := Refinement(Script(tb), tb, o, d), RefinementCoder(o, d);
    forall e: RunLength, rest: seq<Token>
      ensures step(c.code(X, e) + rest, b, 0) == Some((rest, goal, c.left(X, e)))
    {
      RefineRun(tb, X, o, d, b, d.ss, e, rest);
    }
    if c.quiet(X) {
      forall n: nat, rest: seq<Token> | n > 0
        ensures step(c.tail(X) + rest, b, n) == Some((rest, goal, n - 1))
      {
        TailRun(tb, X, o, d, b, d.ss, n, rest);
      }
    }
  }

  // ---------------------------------------------------------------- from scripts to bytes

  ghost predicate StepSimulates<S(!new), T(!new)>(f: Decoder<S>, g: Decoder<T>, rel: (S, T) -> bool) {
    forall s: S, t: T, b: Block, e: nat :: rel(s, t) ==> Related(f(s, b, e), g(t, b, e), rel)
  }

  lemma {:induction false} EachSimulated<S(!new), T(!new)>(f: Decoder<S>, g: Decoder<T>, over: S -> bool,
      over': T -> bool, rel: (S, T) -> bool, s: S, t: T, bs: seq<Block>, e: nat)
    requires StepSimulates(f, g, rel) && rel(s, t) && forall s: S, t: T :: rel(s, t) ==> over(s) == over'(t)
    ensures var x, y := EachBlock(f, over, s, bs, e), EachBlock(g, over', t, bs, e);
      x.Some? ==> y.Some? && x.value.1 == y.value.1 && rel(x.value.0, y.value.0)
    decreases |bs|
  {
    assert over(s) == over'(t);
    if bs != [] && !over(s) && f(s, bs[0], e).Some? {
      assert Related(f(s, bs[0], e), g(t, bs[0], e), rel);
      EachSimulated(f, g, over, over', rel, f(s, bs[0], e).value.0, g(t, bs[0], e).value.0, bs[1..],
          f(s, bs[0], e).value.2);
    }
  }

  lemma FirstSimulated<S(!new), T(!new)>(a: BitSource<S>, b: BitSource<T>, rel: (S, T) -> bool, tb: Table, o: Order,
      d: Scan)
    requires Simulates(a, b, rel)
    ensures StepSimulates(First(a, tb, o, d), First(b, tb, o, d), rel)
  {
    forall s: S, t: T, blk: Block, e: nat | rel(s, t)
      ensures Related(First(a, tb, o, d)(s, blk, e), First(b, tb, o, d)(t, blk, e), rel)
    {
      AcFirstSimulated(a, b, rel, s, t, tb, o, d, blk, d.ss);
    }
  }

  lemma RefinementSimulated<S(!new), T(!new)>(a: BitSource<S>, b: BitSource<T>, rel: (S, T) -> bool, tb: Table,
      o: Order, d: Scan)
    requires Simulates(a, b, rel)
    ensures StepSimulates(Refinement(a, tb, o, d), Refinement(b, tb, o, d), rel)
  {
    forall s: S, t: T, blk: Block, e: nat | rel(s, t)
      ensures Related(Refinement(a, tb, o, d)(s, blk, e), Refinement(b, tb, o, d)(t, blk, e), rel)
    {
      RunSimulated(a, b, rel, s, t, tb, o, d, blk, d.ss, if e > 0 then Tail(e) else Fetch);
    }
  }

  /** The input of one scan: bytes, register, table, and what follows the scan. */
  datatype Input = Input(data: seq<byte>, st: Register, tb: Table, after: Stream)

  /** The unread bits are those of the tokens, which have all arrived, and then what follows. */
  ghost predicate Holds(x: Input, ts: seq<Token>) {
    AllSendable(x.tb, ts) && !x.st.short && Rest(x.data, x.st) == StreamOf(x.tb, x.after, ts).s
  }

  /** The bits of the tokens, all there, and then what follows. */
  ghost function StreamOf(tb: Table, after: Stream, ts: seq<Token>): Reading
    requires AllSendable(tb, ts)
  {
    Reading(Stream(Emit(tb, ts) + after.bits, after.ended), false)
  }

  ghost function Carried(tb: Table, after: Stream): (seq<Token>, Reading) -> bool {
    (ts, r) => CarriesAll(tb, after, ts, r)
  }

  ghost function Read(x: Input): (Register, Reading) -> bool {
    (st: Register, r: Reading) => Reads(x.data, st, r)
  }

  lemma ScriptAgrees(tb: Table, after: Stream)
    ensures Simulates(Script(tb), Metered(), Carried(tb, after))
  {
    ScriptMetered(tb, after);
  }

  lemma RegisterAgrees(x: Input)
    ensures Simulates(Concrete(x.data), Metered(), Read(x))
  {
    ConcreteMetered(x.data);
  }

  /** A decoder written for any source decodes from the bit stream what the script holds. */
  lemma ThroughTheStream(tb: Table, after: Stream, ts: seq<Token>, bs: seq<Block>, script: Decoder<seq<Token>>,
      stream: Decoder<Reading>)
    requires AllSendable(tb, ts) && StepSimulates(script, stream, Carried(tb, after))
    requires EachBlock(script, Never, ts, bs, 0).Some? && EachBlock(script, Never, ts, bs, 0).value.0 == []
    ensures var r := EachBlock(stream, IsOver, StreamOf(tb, after, ts), bs, 0);
      r.Some? && r.value.0 == Reading(after, false) && r.value.1 == EachBlock(script, Never, ts, bs, 0).value.1
  {
    EachSimulated(script, stream, Never, IsOver, Carried(tb, after), ts, StreamOf(tb, after, ts), bs, 0);
    assert [] + after.bits == after.bits;
  }

  /** And from the register what the stream holds. */
  lemma ThroughTheRegister(x: Input, ts: seq<Token>, bs: seq<Block>, stream: Decoder<Reading>,
      register: Decoder<Register>)
    requires Holds(x, ts) && StepSimulates(register, stream, Read(x))
    ensures var r, q := EachBlock(register, IsShort, x.st, bs, 0),
                EachBlock(stream, IsOver, StreamOf(x.tb, x.after, ts), bs, 0);
      r.Some? ==> q.Some? && r.value.1 == q.value.1
  {
    EachSimulated(register, stream, IsShort, IsOver, Read(x), x.st, StreamOf(x.tb, x.after, ts), bs, 0);
  }

  // ---------------------------------------------------------------- scans

  /** The blocks with the band at level al. */
  function AtLevel(bs: seq<Block>, Xs: seq<Block>, o: Order, d: Scan): (r: seq<Block>)
    requires |bs| == |Xs|
    ensures |r| == |bs|
    ensures forall i :: 0 <= i < |r| ==> r[i] == SetLevels(bs[i], Xs[i], o, d.ss, d.se + 1, d.al)
  {
    seq(|bs|, i requires 0 <= i < |bs| => SetLevels(bs[i], Xs[i], o, d.ss, d.se + 1, d.al))
  }

  lemma FirstScript(tb: Table, o: Order, d: Scan, Xs: seq<Block>, bs: seq<Block>, runs: seq<RunLength>)
    requires |Xs| == |bs| == |runs| && Honest(FirstCoder(o, d), Xs, runs, 0)
    requires forall i :: 0 <= i < |Xs| ==> CodableBand(Xs[i], o, d) && Blank(bs[i], o, d, d.ss)
    ensures var r := EachBlock(First(Script(tb), tb, o, d), Never, Send(FirstCoder(o, d), Xs, runs, 0), bs, 0);
      r.Some? && r.value.0 == [] && r.value.1 == AtLevel(bs, Xs, o, d)
  {
    hide *;
    var step, c, goals := First(Script(tb), tb, o, d), FirstCoder(o, d), AtLevel(bs, Xs, o, d);
    forall i | 0 <= i < |Xs| ensures Exact(step, c, Xs[i], bs[i], goals[i]) {
      FirstExact(tb, o, d, Xs[i], bs[i]);
      assert goals[i] == SetLevels(bs[i], Xs[i], o, d.ss, d.se + 1, d.al);
    }
    WholeScan(step, c, Xs, bs, goals, runs);
  }

  lemma RefinementScript(tb: Table, o: Order, d: Scan, Xs: seq<Block>, bs: seq<Block>, runs: seq<RunLength>)
    requires |Xs| == |bs| == |runs| && Honest(RefinementCoder(o, d), Xs, runs, 0)
    requires forall i :: 0 <= i < |Xs| ==> History(bs[i], Xs[i], o, d, d.ss)
    ensures var ts := Send(RefinementCoder(o, d), Xs, runs, 0);
      var r := EachBlock(Refinement(Script(tb), tb, o, d), Never, ts, bs, 0);
      r.Some? && r.value.0 == [] && r.value.1 == AtLevel(bs, Xs, o, d)
  {
    hide *;
    var step, c, goals := Refinement(Script(tb), tb, o, d), RefinementCoder(o, d), AtLevel(bs, Xs, o, d);
    forall i | 0 <= i < |Xs| ensures Exact(step, c, Xs[i], bs[i], goals[i]) {
      RefinementExact(tb, o, d, Xs[i], bs[i]);
      assert goals[i] == SetLevels(bs[i], Xs[i], o, d.ss, d.se + 1, d.al);
    }
    WholeScan(step, c, Xs, bs, goals, runs);
  }

  /** First AC scan of any number of blocks on the bit stream: it always finishes, at the end of the codes and
      never out of data, with every coefficient of the band at the precision sent and the others untouched. */
  lemma FirstOnStream(tb: Table, after: Stream, o: Order, d: Scan, Xs: seq<Block>, bs: seq<Block>, runs: seq<RunLength>)
    requires |Xs| == |bs| == |runs| && Honest(FirstCoder(o, d), Xs, runs, 0)
    requires AllSendable(tb, Send(FirstCoder(o, d), Xs, runs, 0))
    requires forall i :: 0 <= i < |Xs| ==> CodableBand(Xs[i], o, d) && Blank(bs[i], o, d, d.ss)
    ensures var ts := Send(FirstCoder(o, d), Xs, runs, 0);
      var r := EachBlock(First(Metered(), tb, o, d), IsOver, StreamOf(tb, after, ts), bs, 0);
      r.Some? && r.value.0 == Reading(after, false) && r.value.1 == AtLevel(bs, Xs, o, d)
  {
    hide *;
    FirstScript(tb, o, d, Xs, bs, runs);
    ScriptAgrees(tb, after);
    FirstSimulated(Script(tb), Metered(), Carried(tb, after), tb, o, d);
    ThroughTheStream(tb, after, Send(FirstCoder(o, d), Xs, runs, 0), bs, First(Script(tb), tb, o, d),
        First(Metered(), tb, o, d));
  }

  /** The same from the register, if the decoder does not run out of input. */
  lemma FirstScanExact(x: Input, o: Order, d: Scan, Xs: seq<Block>, bs: seq<Block>, runs: seq<RunLength>)
    requires |Xs| == |bs| == |runs| && Honest(FirstCoder(o, d), Xs, runs, 0)
    requires Holds(x, Send(FirstCoder(o, d), Xs, runs, 0))
    requires forall i :: 0 <= i < |Xs| ==> CodableBand(Xs[i], o, d) && Blank(bs[i], o, d, d.ss)
    ensures var r := EachBlock(First(Concrete(x.data), x.tb, o, d), IsShort, x.st, bs, 0);
      r.Some? ==> r.value.1 == AtLevel(bs, Xs, o, d)
  {
    hide *;
    var ts := Send(FirstCoder(o, d), Xs, runs, 0);
    HoldsSendable(x, ts);
    FirstOnStream(x.tb, x.after, o, d, Xs, bs, runs);
    RegisterAgrees(x);
    FirstSimulated(Concrete(x.data), Metered(), Read(x), x.tb, o, d);
    ThroughTheRegister(x, ts, bs, First(Metered(), x.tb, o, d), First(Concrete(x.data), x.tb, o, d));
  }

  lemma HoldsSendable(x: Input, ts: seq<Token>)
    requires Holds(x, ts)
    ensures AllSendable(x.tb, ts)
  {
  }

  /** An AC refinement scan: every coefficient of the band moves one level down. */
  lemma RefinementOnStream(tb: Table, after: Stream, o: Order, d: Scan, Xs: seq<Block>, bs: seq<Block>,
      runs: seq<RunLength>)
    requires |Xs| == |bs| == |runs| && Honest(RefinementCoder(o, d), Xs, runs, 0)
    requires AllSendable(tb, Send(RefinementCoder(o, d), Xs, runs, 0))
    requires forall i :: 0 <= i < |Xs| ==> History(bs[i], Xs[i], o, d, d.ss)
    ensures var ts := Send(RefinementCoder(o, d), Xs, runs, 0);
      var r := EachBlock(Refinement(Metered(), tb, o, d), IsOver, StreamOf(tb, after, ts), bs, 0);
      r.Some? && r.value.0 == Reading(after, false) && r.value.1 == AtLevel(bs, Xs, o, d)
  {
    hide *;
    RefinementScript(tb, o, d, Xs, bs, runs);
    ScriptAgrees(tb, after);
    RefinementSimulated(Script(tb), Metered(), Carried(tb, after), tb, o, d);
    ThroughTheStream(tb, after, Send(RefinementCoder(o, d), Xs, runs, 0), bs, Refinement(Script(tb), tb, o, d),
        Refinement(Metered(), tb, o, d));
  }

  /** The same from the register. */
  lemma RefinementScanExact(x: Input, o: Order, d: Scan, Xs: seq<Block>, bs: seq<Block>, runs: seq<RunLength>)
    requires |Xs| == |bs| == |runs| && Honest(RefinementCoder(o, d), Xs, runs, 0)
    requires Holds(x, Send(RefinementCoder(o, d), Xs, runs, 0))
    requires forall i :: 0 <= i < |Xs| ==> History(bs[i], Xs[i], o, d, d.ss)
    ensures var r := EachBlock(Refinement(Concrete(x.data), x.tb, o, d), IsShort, x.st, bs, 0);
      r.Some? ==> r.value.1 == AtLevel(bs, Xs, o, d)
  {
    hide *;
    var ts := Send(RefinementCoder(o, d), Xs, runs, 0);
    HoldsSendable(x, ts);
    RefinementOnStream(x.tb, x.after, o, d, Xs, bs, runs);
    RegisterAgrees(x);
    RefinementSimulated(Concrete(x.data), Metered(), Read(x), x.tb, o, d);
    ThroughTheRegister(x, ts, bs, Refinement(Metered(), x.tb, o, d), Refinement(Concrete(x.data), x.tb, o, d));
  }

  // ---------------------------------------------------------------- chains of scans

  /** Refinements from position d.al down to 0, one input each. */
  function RefineAll(ins: seq<Input>, o: Order, d: Scan, bs: seq<Block>): Option<seq<Block>>
    requires |ins| == d.al + 1
    decreases d.al
  {
    match EachBlock(Refinement(Concrete(ins[0].data), ins[0].tb, o, d), IsShort, ins[0].st, bs, 0)
    case None => None
    case Some((_, bs1, _)) => if d.al == 0 then Some(bs1) else RefineAll(ins[1..], o, d.(al := d.al - 1), bs1)
  }

  /** A first scan at position d.al and all refinements after it. */
  function DecodeBand(first: Input, ins: seq<Input>, o: Order, d: Scan, bs: seq<Block>): Option<seq<Block>>
    requires |ins| == d.al
  {
    match EachBlock(First(Concrete(first.data), first.tb, o, d), IsShort, first.st, bs, 0)
    case None => None
    case Some((_, bs1, _)) => if d.al == 0 then Some(bs1) else RefineAll(ins, o, d.(al := d.al - 1), bs1)
  }

  /** Every refinement scan holds the codes of Xs at its position, for some choice of runs. */
  ghost predicate AllHold(ins: seq<Input>, o: Order, d: Scan, Xs: seq<Block>)
    requires |ins| == d.al + 1
    decreases d.al
  {
    && HoldsRefinement(ins[0], o, d, Xs)
    && (d.al > 0 ==> AllHold(ins[1..], o, d.(al := d.al - 1), Xs))
  }

  ghost predicate HoldsRefinement(x: Input, o: Order, d: Scan, Xs: seq<Block>) {
    exists runs: seq<RunLength> ::
      |runs| == |Xs| && Honest(RefinementCoder(o, d), Xs, runs, 0) && Holds(x, Send(RefinementCoder(o, d), Xs, runs, 0))
  }

  ghost predicate HoldsFirst(x: Input, o: Order, d: Scan, Xs: seq<Block>) {
    exists runs: seq<RunLength> ::
      |runs| == |Xs| && Honest(FirstCoder(o, d), Xs, runs, 0) && Holds(x, Send(FirstCoder(o, d), Xs, runs, 0))
  }

  /** out has the band of Xs, and everything else from bs. */
  ghost predicate Finished(out: seq<Block>, bs: seq<Block>, Xs: seq<Block>, o: Order, ss: nat, se: nat) {
    |out| == |bs| == |Xs| &&
    forall i, k :: 0 <= i < |out| && 0 <= k < DCTSIZE2 ==>
      out[i][o[k]] == if ss <= k <= se then Xs[i][o[k]] else bs[i][o[k]]
  }

  /** Levels reached, seen coefficient by coefficient. */
  lemma LevelsReached(bs: seq<Block>, Xs: seq<Block>, o: Order, d: Scan, i: nat, k: nat)
    requires |bs| == |Xs| && i < |bs| && k < DCTSIZE2
    ensures AtLevel(bs, Xs, o, d)[i][o[k]] == if d.ss <= k <= d.se then Level(Xs[i][o[k]], d.al) else bs[i][o[k]]
  {
    SetLevelsAt(bs[i], Xs[i], o, d.ss, d.se + 1, d.al, k);
  }

  lemma LevelsAreHistory(bs: seq<Block>, Xs: seq<Block>, o: Order, d: Scan, i: nat)
    requires |bs| == |Xs| && i < |bs| && d.al > 0
    ensures History(AtLevel(bs, Xs, o, d)[i], Xs[i], o, d.(al := d.al - 1), d.ss)
  {
    forall k | d.ss <= k <= d.se ensures AtLevel(bs, Xs, o, d)[i][o[k]] == Level(Xs[i][o[k]], d.al) {
      LevelsReached(bs, Xs, o, d, i, k);
    }
  }

  lemma FullPrecision(bs: seq<Block>, Xs: seq<Block>, o: Order, d: Scan)
    requires |bs| == |Xs| && d.al == 0
    ensures Finished(AtLevel(bs, Xs, o, d), bs, Xs, o, d.ss, d.se)
  {
    forall i, k | 0 <= i < |bs| && 0 <= k < DCTSIZE2
      ensures AtLevel(bs, Xs, o, d)[i][o[k]] == if d.ss <= k <= d.se then Xs[i][o[k]] else bs[i][o[k]]
    {
      LevelsReached(bs, Xs, o, d, i, k);
      LevelZero(Xs[i][o[k]]);
    }
  }

  /** All blocks are ready for the next refinement. */
  ghost predicate Ready(bs: seq<Block>, Xs: seq<Block>, o: Order, d: Scan) {
    |bs| == |Xs| && forall i :: 0 <= i < |Xs| ==> History(bs[i], Xs[i], o, d, d.ss)
  }

  lemma AllLevelsAreHistory(bs: seq<Block>, Xs: seq<Block>, o: Order, d: Scan)
    requires |bs| == |Xs| && d.al > 0
    ensures Ready(AtLevel(bs, Xs, o, d), Xs, o, d.(al := d.al - 1))
  {
    forall i | 0 <= i < |Xs| ensures History(AtLevel(bs, Xs, o, d)[i], Xs[i], o, d.(al := d.al - 1), d.ss) {
      LevelsAreHistory(bs, Xs, o, d, i);
    }
  }

  lemma OutsideUntouched(out: seq<Block>, bs: seq<Block>, Xs: seq<Block>, o: Order, d: Scan)
    requires |bs| == |Xs| && Finished(out, AtLevel(bs, Xs, o, d), Xs, o, d.ss, d.se)
    ensures Finished(out, bs, Xs, o, d.ss, d.se)
  {
    forall i, k | 0 <= i < |out| && 0 <= k < DCTSIZE2
      ensures out[i][o[k]] == if d.ss <= k <= d.se then Xs[i][o[k]] else bs[i][o[k]]
    {
      LevelsReached(bs, Xs, o, d, i, k);
    }
  }

  lemma OneRefinement(x: Input, o: Order, d: Scan, Xs: seq<Block>, bs: seq<Block>)
    requires HoldsRefinement(x, o, d, Xs) && Ready(bs, Xs, o, d)
    ensures var r := EachBlock(Refinement(Concrete(x.data), x.tb, o, d), IsShort, x.st, bs, 0);
      r.Some? ==> r.value.1 == AtLevel(bs, Xs, o, d)
  {
    var runs: seq<RunLength> :| |runs| == |Xs| && Honest(RefinementCoder(o, d), Xs, runs, 0)
        && Holds(x, Send(RefinementCoder(o, d), Xs, runs, 0));
    RefinementScanExact(x, o, d, Xs, bs, runs);
  }

  lemma AllHoldParts(ins: seq<Input>, o: Order, d: Scan, Xs: seq<Block>)
    requires |ins| == d.al + 1 && AllHold(ins, o, d, Xs)
    ensures HoldsRefinement(ins[0], o, d, Xs)
    ensures d.al > 0 ==> AllHold(ins[1..], o, d.(al := d.al - 1), Xs)
  {
    hide HoldsRefinement;
  }

  lemma RefineAllStep(ins: seq<Input>, o: Order, d: Scan, bs: seq<Block>, bs1: seq<Block>)
    requires |ins| == d.al + 1
    requires var r := EachBlock(Refinement(Concrete(ins[0].data), ins[0].tb, o, d), IsShort, ins[0].st, bs, 0);
      r.Some? ==> r.value.1 == bs1
    ensures RefineAll(ins, o, d, bs) ==
      if EachBlock(Refinement(Concrete(ins[0].data), ins[0].tb, o, d), IsShort, ins[0].st, bs, 0).None? then None
      else if d.al == 0 then Some(bs1)
      else RefineAll(ins[1..], o, d.(al := d.al - 1), bs1)
  {
    hide EachBlock, Refinement, Concrete;
  }

  lemma {:induction false} RefineAllExact(ins: seq<Input>, o: Order, d: Scan, Xs: seq<Block>, bs: seq<Block>)
    requires |ins| == d.al + 1 && |bs| == |Xs| && AllHold(ins, o, d, Xs) && Ready(bs, Xs, o, d)
    requires RefineAll(ins, o, d, bs).Some?
    ensures Finished(RefineAll(ins, o, d, bs).value, bs, Xs, o, d.ss, d.se)
    decreases d.al
  {
    hide *;
    AllHoldParts(ins, o, d, Xs);
    OneRefinement(ins[0], o, d, Xs, bs);
    RefineAllStep(ins, o, d, bs, AtLevel(bs, Xs, o, d));
    if d.al == 0 {
      FullPrecision(bs, Xs, o, d);
    } else {
      AllLevelsAreHistory(bs, Xs, o, d);
      RefineAllExact(ins[1..], o, d.(al := d.al - 1), Xs, AtLevel(bs, Xs, o, d));
      OutsideUntouched(RefineAll(ins, o, d, bs).value, bs, Xs, o, d);
    }
  }

  lemma OneFirst(x: Input, o: Order, d: Scan, Xs: seq<Block>, bs: seq<Block>)
    requires HoldsFirst(x, o, d, Xs) && |bs| == |Xs|
    requires forall i :: 0 <= i < |Xs| ==> CodableBand(Xs[i], o, d) && Blank(bs[i], o, d, d.ss)
    ensures var r := EachBlock(First(Concrete(x.data), x.tb, o, d), IsShort, x.st, bs, 0);
      r.Some? ==> r.value.1 == AtLevel(bs, Xs, o, d)
  {
    var runs: seq<RunLength> :| |runs| == |Xs| && Honest(FirstCoder(o, d), Xs, runs, 0)
        && Holds(x, Send(FirstCoder(o, d), Xs, runs, 0));
    hide *;
    FirstScanExact(x, o, d, Xs, bs, runs);
  }

  lemma DecodeBandStep(first: Input, ins: seq<Input>, o: Order, d: Scan, bs: seq<Block>, bs1: seq<Block>)
    requires |ins| == d.al
    requires var r := EachBlock(First(Concrete(first.data), first.tb, o, d), IsShort, first.st, bs, 0);
      r.Some? ==> r.value.1 == bs1
    ensures DecodeBand(first, ins, o, d, bs) ==
      if EachBlock(First(Concrete(first.data), first.tb, o, d), IsShort, first.st, bs, 0).None? then None
      else if d.al == 0 then Some(bs1)
      else RefineAll(ins, o, d.(al := d.al - 1), bs1)
  {
    hide EachBlock, First, Concrete, RefineAll;
  }

  /** Main result: after a first scan at any position and the chain of refinements down to 0,
      the band of every block holds exactly the coefficients that were coded. */
  lemma BandIsExact(first: Input, ins: seq<Input>, o: Order, d: Scan, Xs: seq<Block>, bs: seq<Block>)
    requires |ins| == d.al && |bs| == |Xs|
    requires HoldsFirst(first, o, d, Xs) && (d.al > 0 ==> AllHold(ins, o, d.(al := d.al - 1), Xs))
    requires forall i :: 0 <= i < |Xs| ==> CodableBand(Xs[i], o, d) && Blank(bs[i], o, d, d.ss)
    requires DecodeBand(first, ins, o, d, bs).Some?
    ensures Finished(DecodeBand(first, ins, o, d, bs).value, bs, Xs, o, d.ss, d.se)
  {
    hide *;
    OneFirst(first, o, d, Xs, bs);
    DecodeBandStep(first, ins, o, d, bs, AtLevel(bs, Xs, o, d));
    if d.al == 0 {
      FullPrecision(bs, Xs, o, d);
    } else {
      AllLevelsAreHistory(bs, Xs, o, d);
      RefineAllExact(ins, o, d.(al := d.al - 1), Xs, AtLevel(bs, Xs, o, d));
      OutsideUntouched(DecodeBand(first, ins, o, d, bs).value, bs, Xs, o, d);
    }
  }

  // ---------------------------------------------------------------- finishing

  ghost predicate StepCompletes<S(!new)>(step: Decoder<S>, live: S -> bool) {
    forall s: S, b: Block, e: nat :: live(s) ==> step(s, b, e).Some? && live(step(s, b, e).value.0)
  }

  lemma {:induction false} EachCompletes<S(!new)>(step: Decoder<S>, live: S -> bool, over: S -> bool, s: S,
      bs: seq<Block>, e: nat)
    requires StepCompletes(step, live) && live(s)
    ensures EachBlock(step, over, s, bs, e).Some?
    decreases |bs|
  {
    if bs != [] {
      var r := step(s, bs[0], e);
      assert r.Some? && live(r.value.0);
      EachCompletes(step, live, over, r.value.0, bs[1..], r.value.2);
    }
  }

  /** The marker that ends the scan's data has arrived. */
  ghost predicate AllHere(x: Input) {
    Rest(x.data, x.st).ended
  }

  lemma FirstFinishes(x: Input, o: Order, d: Scan, bs: seq<Block>)
    requires AllHere(x)
    ensures EachBlock(First(Concrete(x.data), x.tb, o, d), IsShort, x.st, bs, 0).Some?
  {
    var src, live := Concrete(x.data), (st: Register) => Rest(x.data, st).ended;
    EndedNeverDry(x.data);
    var step := First(src, x.tb, o, d);
    forall s: Register, b: Block, e: nat | live(s) ensures step(s, b, e).Some? && live(step(s, b, e).value.0) {
      AcFirstCompletes(src, live, s, x.tb, o, d, b, d.ss);
      hide AcFirst, Concrete, NeverDry;
    }
    EachCompletes(step, live, IsShort, x.st, bs, 0);
  }

  lemma RefinementFinishes(x: Input, o: Order, d: Scan, bs: seq<Block>)
    requires AllHere(x)
    ensures EachBlock(Refinement(Concrete(x.data), x.tb, o, d), IsShort, x.st, bs, 0).Some?
  {
    var src, live := Concrete(x.data), (st: Register) => Rest(x.data, st).ended;
    EndedNeverDry(x.data);
    var step := Refinement(src, x.tb, o, d);
    forall s: Register, b: Block, e: nat | live(s) ensures step(s, b, e).Some? && live(step(s, b, e).value.0) {
      RunCompletes(src, live, s, x.tb, o, d, b, d.ss, if e > 0 then Tail(e) else Fetch);
      hide Run, Concrete, NeverDry;
    }
    EachCompletes(step, live, IsShort, x.st, bs, 0);
  }

  lemma {:induction false} RefineAllFinishes(ins: seq<Input>, o: Order, d: Scan, bs: seq<Block>)
    requires |ins| == d.al + 1 && forall i :: 0 <= i < |ins| ==> AllHere(ins[i])
    ensures RefineAll(ins, o, d, bs).Some?
    decreases d.al
  {
    RefinementFinishes(ins[0], o, d, bs);
    hide EachBlock, Refinement, Concrete, AllHere;
    if d.al > 0 {
      RefineAllFinishes(ins[1..], o, d.(al := d.al - 1),
          EachBlock(Refinement(Concrete(ins[0].data), ins[0].tb, o, d), IsShort, ins[0].st, bs, 0).value.1);
    }
  }

  /** Once the end of every scan's data has arrived the decoder finishes, whatever the bits are. */
  lemma BandFinishes(first: Input, ins: seq<Input>, o: Order, d: Scan, bs: seq<Block>)
    requires |ins| == d.al && AllHere(first) && forall i :: 0 <= i < |ins| ==> AllHere(ins[i])
    ensures DecodeBand(first, ins, o, d, bs).Some?
  {
    FirstFinishes(first, o, d, bs);
    hide EachBlock, First, Concrete, AllHere, RefineAll;
    if d.al > 0 {
      RefineAllFinishes(ins, o, d.(al := d.al - 1),
          EachBlock(First(Concrete(first.data), first.tb, o, d), IsShort, first.st, bs, 0).value.1);
    }
  }

  // ---------------------------------------------------------------- in pieces

  /** An AC scan has one block to the MCU, all with the same table, and no block comes twice. */
  predicate Singles(mcus: seq<seq<Mcu.Cover>>, tb: Table, blocks: nat) {
    && (forall m :: 0 <= m < |mcus| ==> |mcus[m]| == 1 && mcus[m][0].tb == tb && mcus[m][0].at < blocks)
    && (forall m, n :: 0 <= m < n < |mcus| ==> mcus[m][0].at != mcus[n][0].at)
  }

  function Picked(img: seq<Block>, mcus: seq<seq<Mcu.Cover>>, n: nat): (r: seq<Block>)
    requires n <= |mcus| && forall m :: 0 <= m < |mcus| ==> |mcus[m]| == 1 && mcus[m][0].at < |img|
    ensures |r| == n && forall m :: 0 <= m < n ==> r[m] == img[mcus[m][0].at]
  {
    seq(n, m requires 0 <= m < n => img[mcus[m][0].at])
  }

  function StepOf<S>(kind: Mcu.Kind, src: BitSource<S>, tb: Table): Decoder<S>
    requires kind.AcFirstScan? || kind.AcRefineScan?
  {
    if kind.AcFirstScan? then First(src, tb, kind.o, kind.d) else Refinement(src, tb, kind.o, kind.d)
  }

  lemma BlockIsStep<S>(kind: Mcu.Kind, src: BitSource<S>, w: Mcu.Work<S>, h: Mcu.Cover, b: Block)
    requires (kind.AcFirstScan? || kind.AcRefineScan?) && h.ci < |w.last|
    ensures var (b1, o) := Mcu.OneBlock(kind, src, w, h, b);
      StepOf(kind, src, h.tb)(w.s, b, w.eobRun)
          == match o case None => None case Some(w1) => Some((w1.s, b1, w1.eobRun))
  {
    if kind.AcFirstScan? { AcFirstIsPuts(src, w.s, h.tb, kind.o, kind.d, b, kind.d.ss); }
    hide AcFirst, AcFirstPuts, PutAll, Run;
  }

  lemma {:induction false} EachSnoc<S>(step: Decoder<S>, over: S -> bool, s: S, bs: seq<Block>, e: nat, b: Block)
    ensures EachBlock(step, over, s, bs + [b], e) ==
      match EachBlock(step, over, s, bs, e)
      case None => None
      case Some((s1, out, e1)) =>
        if over(s1) then Some((s1, out + [b], e1))
        else match step(s1, b, e1) case None => None case Some((s2, b2, e2)) => Some((s2, out + [b2], e2))
    decreases |bs|
  {
    var all := bs + [b];
    if bs == [] {
      assert all == [b] && all[1..] == [] && [] + [b] == [b];
      var r := step(s, b, e);
      if r.Some? { assert [r.value.1] + [] == [] + [r.value.1]; }
    } else if !over(s) {
      assert all[0] == bs[0] && all[1..] == bs[1..] + [b];
      match step(s, bs[0], e)
      case None =>
      case Some((s1, b1, e1)) =>
        EachSnoc(step, over, s1, bs[1..], e1, b);
        var r := EachBlock(step, over, s1, bs[1..], e1);
        if r.Some? {
          assert forall c :: ([b1] + r.value.1) + [c] == [b1] + (r.value.1 + [c]);
        }
    }
  }

  /** The image after n MCUs holds the n blocks decoded, and otherwise what it held. */
  ghost predicate Holding<S>(x: Option<(Mcu.Work<S>, seq<Block>)>, y: Option<(S, seq<Block>, nat)>, img: seq<Block>,
      mcus: seq<seq<Mcu.Cover>>, n: nat)
    requires n <= |mcus| && forall m :: 0 <= m < |mcus| ==> |mcus[m]| == 1 && mcus[m][0].at < |img|
  {
    && (x.Some? <==> y.Some?)
    && (x.Some? ==>
          && x.value.0.s == y.value.0 && x.value.0.eobRun == y.value.2 && |x.value.1| == |img| && |y.value.1| == n
          && (forall m :: 0 <= m < n ==> x.value.1[mcus[m][0].at] == y.value.1[m])
          && (forall i :: 0 <= i < |img| && (forall m :: 0 <= m < n ==> mcus[m][0].at != i) ==> x.value.1[i] == img[i]))
  }

  lemma {:induction false} McusAreBlocks<S>(kind: Mcu.Kind, src: BitSource<S>, over: S -> bool, w: Mcu.Work<S>,
      mcus: seq<seq<Mcu.Cover>>, tb: Table, n: nat, img: seq<Block>)
    requires (kind.AcFirstScan? || kind.AcRefineScan?) && Singles(mcus, tb, |img|) && n <= |mcus|
    requires Mcu.AllInside(mcus, |img|, |w.last|)
    ensures Holding(Mcu.Mcus(kind, src, over, w, mcus, 0, n, img),
                    EachBlock(StepOf(kind, src, tb), over, w.s, Picked(img, mcus, n), w.eobRun), img, mcus, n)
  {
    if n > 0 {
      var step := StepOf(kind, src, tb);
      McusAreBlocks(kind, src, over, w, mcus, tb, n - 1, img);
      assert Picked(img, mcus, n) == Picked(img, mcus, n - 1) + [img[mcus[n - 1][0].at]];
      var x := Mcu.Mcus(kind, src, over, w, mcus, 0, n - 1, img);
      var y := EachBlock(step, over, w.s, Picked(img, mcus, n - 1), w.eobRun);
      hide StepOf, Mcu.OneBlock, Mcu.OneMcu, Mcu.Mcus, EachBlock, Picked, Mcu.Inside, Mcu.AllInside;
      EachSnoc(step, over, w.s, Picked(img, mcus, n - 1), w.eobRun, img[mcus[n - 1][0].at]);
      Mcu.McusSnoc(kind, src, over, w, mcus, 0, n, img);
      if x.Some? {
        HoldingNext(kind, src, over, x.value.0, y, mcus, tb, n, img, x.value.1);
      }
    }
  }

  lemma HoldingNext<S>(kind: Mcu.Kind, src: BitSource<S>, over: S -> bool, w: Mcu.Work<S>,
      y: Option<(S, seq<Block>, nat)>, mcus: seq<seq<Mcu.Cover>>, tb: Table, n: nat, img: seq<Block>, now: seq<Block>)
    requires (kind.AcFirstScan? || kind.AcRefineScan?) && Singles(mcus, tb, |img|) && 0 < n <= |mcus|
    requires Holding(Some((w, now)), y, img, mcus, n - 1) && Mcu.Inside(mcus[n - 1], |now|, |w.last|)
    ensures var a := Mcu.OneMcu(kind, src, over, w, mcus[n - 1], now);
      var b := img[mcus[n - 1][0].at];
      Holding(match a.out case None => None case Some(w1) => Some((w1, a.img)),
              if over(y.value.0) then Some((y.value.0, y.value.1 + [b], y.value.2))
              else match StepOf(kind, src, tb)(y.value.0, b, y.value.2)
                case None => None
                case Some((s2, b2, e2)) => Some((s2, y.value.1 + [b2], e2)), img, mcus, n)
  {
    SingleMcu(kind, src, over, w, mcus[n - 1], now);
    BlockIsStep(kind, src, w, mcus[n - 1][0], now[mcus[n - 1][0].at]);
    hide Mcu.OneMcu, Mcu.OneBlock, StepOf, Mcu.Inside;
    assert forall m :: 0 <= m < n - 1 ==> mcus[m][0].at != mcus[n - 1][0].at;
  }

  lemma SingleMcu<S>(kind: Mcu.Kind, src: BitSource<S>, over: S -> bool, w: Mcu.Work<S>, mcu: seq<Mcu.Cover>,
      img: seq<Block>)
    requires |mcu| == 1 && Mcu.Inside(mcu, |img|, |w.last|) && !kind.DcRefineScan?
    ensures Mcu.OneMcu(kind, src, over, w, mcu, img) ==
      if over(w.s) then Mcu.Attempted(img, Some(w))
      else var (b, o) := Mcu.OneBlock(kind, src, w, mcu[0], img[mcu[0].at]); Mcu.Attempted(img[mcu[0].at := b], o)
  {
    var (b, o) := Mcu.OneBlock(kind, src, w, mcu[0], img[mcu[0].at]);
    hide Mcu.OneBlock;
    if o.Some? {
      assert Mcu.EachBlock(kind, src, o.value, mcu[1..], img[mcu[0].at := b]) == Mcu.Attempted(img[mcu[0].at := b], o);
    }
  }

  /** The state that start_pass leaves for an AC scan whose input is x. */
  predicate Begins(x0: Session.State, x: Input, plan: Session.Plan, img: seq<Block>) {
    && (plan.kind.AcFirstScan? || plan.kind.AcRefineScan?) && Singles(plan.mcus, x.tb, |img|)
        && plan.restartInterval == 0
    && Session.Fits(x0, plan) && x0.m == 0 && x0.img == img && x0.eobRun == 0 && Session.WorkOf(x0).s == x.st
  }

  function Played(x0: Session.State, plan: Session.Plan, es: seq<Seq.Event>): Session.Session
    requires Session.Fits(x0, plan)
  {
    Session.After(Session.Session([], x0), es, plan)
  }

  /** The blocks of the scan are bs, and the others are those of img. */
  predicate Leaves(out: seq<Block>, img: seq<Block>, mcus: seq<seq<Mcu.Cover>>, bs: seq<Block>) {
    && |out| == |img| && |bs| == |mcus|
    && (forall m :: 0 <= m < |mcus| ==> |mcus[m]| == 1 && mcus[m][0].at < |img| && out[mcus[m][0].at] == bs[m])
    && (forall i :: 0 <= i < |img| && (forall m :: 0 <= m < |mcus| ==> mcus[m][0].at != i) ==> out[i] == img[i])
  }

  lemma HoldingAll<S>(x: Option<(Mcu.Work<S>, seq<Block>)>, y: Option<(S, seq<Block>, nat)>, img: seq<Block>,
      mcus: seq<seq<Mcu.Cover>>, tb: Table)
    requires Singles(mcus, tb, |img|) && Holding(x, y, img, mcus, |mcus|) && x.Some?
    ensures y.Some? && Leaves(x.value.1, img, mcus, y.value.1)
  {
  }

  /** However the data of an AC scan arrives and whatever suspensions there are: once the scan is complete
      its blocks are those decoded from all of the data at once, and the others are untouched. */
  lemma AcScanInPieces(x: Input, plan: Session.Plan, img: seq<Block>, x0: Session.State, es: seq<Seq.Event>)
    requires Begins(x0, x, plan, img)
    requires Played(x0, plan, es).data == x.data && Played(x0, plan, es).x.m == |plan.mcus|
    ensures var r := EachBlock(StepOf(plan.kind, Concrete(x.data), x.tb), IsShort, x.st,
        Picked(img, plan.mcus, |plan.mcus|), 0);
      r.Some? && Leaves(Played(x0, plan, es).x.img, img, plan.mcus, r.value.1)
  {
    hide *;
    BeginsParts(x0, x, plan, img);
    var w, bs := Session.WorkOf(x0), Picked(img, plan.mcus, |plan.mcus|);
    var y := EachBlock(StepOf(plan.kind, Concrete(x.data), x.tb), IsShort, x.st, bs, 0);
    PlayedIs(x0, plan, es);
    Session.ScanInPieces(x0, es, plan);
    McusAreBlocks(plan.kind, Concrete(x.data), IsShort, w, plan.mcus, x.tb, |plan.mcus|, img);
    HoldingAll(Mcu.Mcus(plan.kind, Concrete(x.data), IsShort, w, plan.mcus, 0, |plan.mcus|, img), y, img, plan.mcus,
        x.tb);
  }

  lemma PlayedIs(x0: Session.State, plan: Session.Plan, es: seq<Seq.Event>)
    requires Session.Fits(x0, plan)
    ensures Played(x0, plan, es) == Session.After(Session.Session([], x0), es, plan)
  {
  }

  lemma BeginsParts(x0: Session.State, x: Input, plan: Session.Plan, img: seq<Block>)
    requires Begins(x0, x, plan, img)
    ensures (plan.kind.AcFirstScan? || plan.kind.AcRefineScan?) && Singles(plan.mcus, x.tb, |img|)
    ensures forall m :: 0 <= m < |plan.mcus| ==> |plan.mcus[m]| == 1 && plan.mcus[m][0].at < |img|
    ensures Session.Fits(x0, plan) && Session.NoRestart(x0, |plan.mcus| - x0.m, plan) && x0.m == 0 && x0.img == img
    ensures var w := Session.WorkOf(x0);
      && w.s == x.st && w.eobRun == 0 && Mcu.AllInside(plan.mcus, |img|, |w.last|)
      && forall data :: Session.Segment(data, x0, |plan.mcus|, plan)
                        == Mcu.Mcus(plan.kind, Concrete(data), IsShort, w, plan.mcus, 0, |plan.mcus|, img)
  {
  }

  /** The scan carries the codes of Xs, and the blocks it covers are ready for them. */
  ghost predicate Carrying(x: Input, plan: Session.Plan, bs: seq<Block>, Xs: seq<Block>)
    requires plan.kind.AcFirstScan? || plan.kind.AcRefineScan?
  {
    var o, d := plan.kind.o, plan.kind.d;
    |Xs| == |bs| &&
    if plan.kind.AcFirstScan? then
      HoldsFirst(x, o, d, Xs) && forall i :: 0 <= i < |Xs| ==> CodableBand(Xs[i], o, d) && Blank(bs[i], o, d, d.ss)
    else HoldsRefinement(x, o, d, Xs) && Ready(bs, Xs, o, d)
  }

  lemma CarriedExactly(x: Input, plan: Session.Plan, bs: seq<Block>, Xs: seq<Block>)
    requires (plan.kind.AcFirstScan? || plan.kind.AcRefineScan?) && Carrying(x, plan, bs, Xs)
    ensures |Xs| == |bs|
    ensures var r := EachBlock(StepOf(plan.kind, Concrete(x.data), x.tb), IsShort, x.st, bs, 0);
      r.Some? ==> r.value.1 == AtLevel(bs, Xs, plan.kind.o, plan.kind.d)
  {
    var o, d := plan.kind.o, plan.kind.d;
    if plan.kind.AcFirstScan? { OneFirst(x, o, d, Xs, bs); } else { OneRefinement(x, o, d, Xs, bs); }
    hide EachBlock, First, Refinement, HoldsFirst, HoldsRefinement, Ready, CodableBand, Blank, AtLevel;
  }

  /** What such a scan is for: fed the codes of Xs it leaves their levels, in whatever pieces they came. */
  lemma AcScanExactInPieces(x: Input, plan: Session.Plan, img: seq<Block>, Xs: seq<Block>, x0: Session.State,
      es: seq<Seq.Event>)
    requires Begins(x0, x, plan, img) && Carrying(x, plan, Picked(img, plan.mcus, |plan.mcus|), Xs)
    requires Played(x0, plan, es).data == x.data && Played(x0, plan, es).x.m == |plan.mcus|
    ensures |Xs| == |plan.mcus|
    ensures Leaves(Played(x0, plan, es).x.img, img, plan.mcus,
                   AtLevel(Picked(img, plan.mcus, |plan.mcus|), Xs, plan.kind.o, plan.kind.d))
  {
    BeginsParts(x0, x, plan, img);
    hide *;
    CarriedExactly(x, plan, Picked(img, plan.mcus, |plan.mcus|), Xs);
    AcScanInPieces(x, plan, img, x0, es);
  }
}
