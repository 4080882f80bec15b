/** Whole progressive scans with restart markers: segment after segment fed the prescribed codes, a scan of
    any kind brings every one of its blocks to its level, in whatever pieces the data arrived. */
module RestartedScans {
  import opened Wrappers
  import opened Bits
  import opened BitStream
  import opened HuffDecode
  import opened BitSources
  import opened InsufficientData
  import opened Zigzag
  import opened Refine
  import opened Progressive
  import opened SuccessiveApproximation
  import opened FirstScans
  import opened ProgressiveMcu
  import opened SegmentEnds
  import opened RestartIntervals
  import opened SegmentLayout
  import Dc = DcProgression
  import Ac = Progression
  import Session = ProgressiveSession
  import Seq = SequentialMcu

  // ---------------------------------------------------------------- what a scan is for

  function DcGoal(b: Block, X: Block, al: nat): Block
    requires al <= 15
  {
    DcLevelRange(X[0], al);
    SetDc(b, DcLevel(X[0], al))
  }

  /** What a block holds after the scan that codes X. */
  function Goal(kind: Kind, b: Block, X: Block): Block {
    match kind
    case DcFirstScan(al) => DcGoal(b, X, al)
    case DcRefineScan(al) => DcGoal(b, X, al)
    case AcFirstScan(o, d) => SetLevels(b, X, o, d.ss, d.se + 1, d.al)
    case AcRefineScan(o, d) => SetLevels(b, X, o, d.ss, d.se + 1, d.al)
  }

  /** The block is as the scan expects it: blank in a first AC scan, one level up in a refinement. */
  ghost predicate Ready(kind: Kind, b: Block, X: Block) {
    match kind
    case DcFirstScan(_) => true
    case DcRefineScan(al) => b[0] == DcLevel(X[0], al + 1)
    case AcFirstScan(o, d) => CodableBand(X, o, d) && Blank(b, o, d, d.ss)
    case AcRefineScan(o, d) => History(b, X, o, d, d.ss)
  }

  /** The blocks of the first n MCUs are done, the others as they were. */
  ghost predicate Done(kind: Kind, mcus: seq<seq<Cover>>, n: nat, out: seq<Block>, img: seq<Block>, Xs: seq<Block>)
    requires n <= |mcus|
  {
    && |out| == |img| == |Xs|
    && forall i :: 0 <= i < |img| ==> out[i] == if Dc.Covered(mcus, n, i) then Goal(kind, img[i], Xs[i]) else img[i]
  }

  ghost predicate AllReady(kind: Kind, mcus: seq<seq<Cover>>, img: seq<Block>, Xs: seq<Block>) {
    |img| == |Xs| && forall i :: 0 <= i < |img| && Dc.Covered(mcus, |mcus|, i) ==> Ready(kind, img[i], Xs[i])
  }

  // ---------------------------------------------------------------- the codes

  function DcsOf(Xs: seq<Block>): (xs: seq<Coefficient>)
    ensures |xs| == |Xs| && forall i :: 0 <= i < |xs| ==> xs[i] == Xs[i][0]
  {
    seq(|Xs|, i requires 0 <= i < |Xs| => Xs[i][0])
  }

  ghost predicate AcCodes(c: Ac.Coder, tb: Table, Ys: seq<Block>, bits: seq<bool>) {
    exists runs: seq<RunLength> :: AcCodesWith(c, tb, Ys, bits, runs)
  }

  /** The codes of Ys, with these announcements of end-of-band runs. */
  ghost predicate AcCodesWith(c: Ac.Coder, tb: Table, Ys: seq<Block>, bits: seq<bool>, runs: seq<RunLength>) {
    |runs| == |Ys| && Ac.Honest(c, Ys, runs, 0) &&
    var ts := Ac.Send(c, Ys, runs, 0);
    AllSendable(tb, ts) && bits == Emit(tb, ts)
  }

  /** The bits code the blocks of these MCUs, taken from Xs.  tb is the table of an AC scan. */
  ghost predicate Codes(kind: Kind, mcus: seq<seq<Cover>>, comps: nat, tb: Table, Xs: seq<Block>, bits: seq<bool>) {
    AllInside(mcus, |Xs|, comps) && Dc.AllIn(mcus, |Xs|) &&
    match kind
    case DcFirstScan(al) =>
      var last, xs := Dc.NoPredictors(comps), DcsOf(Xs);
      Dc.AllCodeable(mcus, 0, last, xs, al) && bits == Dc.FirstFrom(mcus, 0, last, xs, al)
    case DcRefineScan(al) => bits == Dc.RefineFrom(mcus, 0, DcsOf(Xs), al)
    case AcFirstScan(o, d) =>
      Ac.Singles(mcus, tb, |Xs|) && AcCodes(Ac.FirstCoder(o, d), tb, Ac.Picked(Xs, mcus, |mcus|), bits)
    case AcRefineScan(o, d) =>
      Ac.Singles(mcus, tb, |Xs|) && AcCodes(Ac.RefinementCoder(o, d), tb, Ac.Picked(Xs, mcus, |mcus|), bits)
  }

  // ---------------------------------------------------------------- a stretch on the bit stream

  /** The stretch has been decoded from its bits, no more and no fewer. */
  ghost predicate Finished(kind: Kind, mcus: seq<seq<Cover>>, img: seq<Block>, Xs: seq<Block>, rest: Stream,
      r: Option<(Work<Reading>, seq<Block>)>)
  {
    r.Some? && r.value.0.s == Reading(rest, false) && Done(kind, mcus, |mcus|, r.value.1, img, Xs)
  }

  function OnStream(kind: Kind, mcus: seq<seq<Cover>>, comps: nat, img: seq<Block>, bits: seq<bool>, rest: Stream)
    : Option<(Work<Reading>, seq<Block>)>
    requires AllInside(mcus, |img|, comps)
  {
    Mcus(kind, Metered(), IsOver, Work(Dc.There(bits, rest), Dc.NoPredictors(comps), 0), mcus, 0, |mcus|, img)
  }

  lemma DcDone(kind: Kind, mcus: seq<seq<Cover>>, img: seq<Block>, Xs: seq<Block>, al: nat)
    requires kind == DcFirstScan(al) || kind == DcRefineScan(al)
    requires al <= 13 && Dc.AllIn(mcus, |img|) && |Xs| == |img|
    ensures Done(kind, mcus, |mcus|, Dc.AtLevelUpTo(mcus, |mcus|, img, DcsOf(Xs), al), img, Xs)
  {
    var out := Dc.AtLevelUpTo(mcus, |mcus|, img, DcsOf(Xs), al);
    hide *;
    forall i | 0 <= i < |img|
      ensures out[i] == if Dc.Covered(mcus, |mcus|, i) then Goal(kind, img[i], Xs[i]) else img[i]
    {
      Dc.AtLevelUpToAt(mcus, |mcus|, img, DcsOf(Xs), al, i);
      DcGoalIs(kind, img[i], Xs[i], al);
    }
  }

  lemma DcGoalIs(kind: Kind, b: Block, X: Block, al: nat)
    requires al <= 13 && (kind == DcFirstScan(al) || kind == DcRefineScan(al))
    ensures -0x8000 <= DcLevel(X[0], al) < 0x8000 && Goal(kind, b, X) == SetDc(b, DcLevel(X[0], al))
  {
    DcLevelRange(X[0], al);
  }

  lemma NothingMore(rest: Stream)
    ensures Dc.Before([], rest) == rest && Dc.There([], rest) == Reading(rest, false)
  {
    Dc.BeforeBefore([], [], rest);
  }

  lemma DcFirstStretch(al: nat, mcus: seq<seq<Cover>>, comps: nat, tb: Table, img: seq<Block>, Xs: seq<Block>,
      bits: seq<bool>, rest: Stream)
    requires al <= 13 && |Xs| == |img| && Codes(DcFirstScan(al), mcus, comps, tb, Xs, bits)
    ensures Finished(DcFirstScan(al), mcus, img, Xs, rest, OnStream(DcFirstScan(al), mcus, comps, img, bits, rest))
  {
    var last, xs := Dc.NoPredictors(comps), DcsOf(Xs);
    Dc.FirstScanOnStream(mcus, |mcus|, last, img, xs, al, rest);
    assert Dc.FirstFrom(mcus, |mcus|, Dc.LastUpTo(mcus, |mcus|, last, xs, al), xs, al) == [];
    hide Mcus, Dc.FirstFrom, Dc.AllCodeable, Dc.AtLevelUpTo, Done, Dc.LastUpTo;
    NothingMore(rest);
    DcDone(DcFirstScan(al), mcus, img, Xs, al);
  }

  lemma DcRefineStretch(al: nat, mcus: seq<seq<Cover>>, comps: nat, tb: Table, img: seq<Block>, Xs: seq<Block>,
      bits: seq<bool>, rest: Stream)
    requires al <= 13 && |Xs| == |img| && Codes(DcRefineScan(al), mcus, comps, tb, Xs, bits)
    requires Dc.Distinct(mcus) && AllReady(DcRefineScan(al), mcus, img, Xs)
    ensures Finished(DcRefineScan(al), mcus, img, Xs, rest, OnStream(DcRefineScan(al), mcus, comps, img, bits, rest))
  {
    var xs := DcsOf(Xs);
    forall m, k | 0 <= m < |mcus| && 0 <= k < |mcus[m]|
      ensures img[mcus[m][k].at][0] == DcLevel(xs[mcus[m][k].at], al + 1)
    {
      var i := mcus[m][k].at;
      assert In(mcus[m], i);
      assert Dc.Covered(mcus, |mcus|, i);
      assert Ready(DcRefineScan(al), img[i], Xs[i]);
    }
    Dc.ReadingServes();
    Dc.RefineScanOnStream(Metered(), (s: Stream) => Reading(s, false), mcus, |mcus|, Dc.NoPredictors(comps), img, xs,
        al, rest, IsOver);
    assert Dc.RefineFrom(mcus, |mcus|, xs, al) == [];
    hide Mcus, Dc.RefineFrom, Dc.AtLevelUpTo, Done, Dc.Distinct, AllReady, Metered, IsOver;
    NothingMore(rest);
    DcDone(DcRefineScan(al), mcus, img, Xs, al);
  }

  /** The blocks of an AC scan, in its order, are ready. */
  lemma PickedReady(kind: Kind, mcus: seq<seq<Cover>>, tb: Table, img: seq<Block>, Xs: seq<Block>)
    requires Ac.Singles(mcus, tb, |img|) && AllReady(kind, mcus, img, Xs)
    ensures var bs, Ys := Ac.Picked(img, mcus, |mcus|), Ac.Picked(Xs, mcus, |mcus|);
      forall m :: 0 <= m < |mcus| ==> Ready(kind, bs[m], Ys[m])
  {
    hide Ready;
    forall m | 0 <= m < |mcus| ensures Ready(kind, img[mcus[m][0].at], Xs[mcus[m][0].at]) {
      assert In(mcus[m], mcus[m][0].at);
      assert Dc.Covered(mcus, |mcus|, mcus[m][0].at);
    }
  }

  /** Each block of the scan is left with its own goal. */
  lemma LeavesGoals(kind: Kind, mcus: seq<seq<Cover>>, tb: Table, out: seq<Block>, img: seq<Block>, Xs: seq<Block>,
      bs: seq<Block>)
    requires Ac.Singles(mcus, tb, |img|) && |img| == |Xs| && Ac.Leaves(out, img, mcus, bs)
    requires forall m :: 0 <= m < |mcus| ==> bs[m] == Goal(kind, img[mcus[m][0].at], Xs[mcus[m][0].at])
    ensures Done(kind, mcus, |mcus|, out, img, Xs)
  {
    hide Goal;
    forall i | 0 <= i < |img|
      ensures out[i] == if Dc.Covered(mcus, |mcus|, i) then Goal(kind, img[i], Xs[i]) else img[i]
    {
      if Dc.Covered(mcus, |mcus|, i) {
        var m :| 0 <= m < |mcus| && In(mcus[m], i);
        assert mcus[m][0].at == i;
      } else {
        forall m | 0 <= m < |mcus| ensures mcus[m][0].at != i { assert In(mcus[m], mcus[m][0].at); }
      }
    }
  }

  /** From blocks in order to the image. */
  lemma AcFinished(kind: Kind, mcus: seq<seq<Cover>>, comps: nat, tb: Table, img: seq<Block>, Xs: seq<Block>,
      bits: seq<bool>, rest: Stream, o: Order, d: Scan)
    requires AllInside(mcus, |img|, comps) && Ac.Singles(mcus, tb, |img|) && |img| == |Xs|
    requires kind == AcFirstScan(o, d) || kind == AcRefineScan(o, d)
    requires var bs, Ys := Ac.Picked(img, mcus, |mcus|), Ac.Picked(Xs, mcus, |mcus|);
      var y := Ac.EachBlock(Ac.StepOf(kind, Metered(), tb), IsOver, Dc.There(bits, rest), bs, 0);
      y.Some? && y.value.0 == Reading(rest, false) && y.value.1 == Ac.AtLevel(bs, Ys, o, d)
    ensures Finished(kind, mcus, img, Xs, rest, OnStream(kind, mcus, comps, img, bits, rest))
  {
    hide AllInside, Goal, SetLevels, Mcus, Ac.EachBlock, Ac.StepOf, Ac.Holding, Ac.Leaves, Metered, IsOver, Dc.There,
      Done;
    var w := Work(Dc.There(bits, rest), Dc.NoPredictors(comps), 0);
    var bs, Ys := Ac.Picked(img, mcus, |mcus|), Ac.Picked(Xs, mcus, |mcus|);
    var y := Ac.EachBlock(Ac.StepOf(kind, Metered(), tb), IsOver, Dc.There(bits, rest), bs, 0);
    var x := OnStream(kind, mcus, comps, img, bits, rest);
    Ac.McusAreBlocks(kind, Metered(), IsOver, w, mcus, tb, |mcus|, img);
    HoldingState(x, y, img, mcus);
    Ac.HoldingAll(x, y, img, mcus, tb);
    forall m | 0 <= m < |mcus| ensures y.value.1[m] == Goal(kind, img[mcus[m][0].at], Xs[mcus[m][0].at]) {
      AcGoalIs(kind, bs[m], Ys[m], o, d);
    }
    LeavesGoals(kind, mcus, tb, x.value.1, img, Xs, y.value.1);
  }

  lemma AcGoalIs(kind: Kind, b: Block, X: Block, o: Order, d: Scan)
    requires kind == AcFirstScan(o, d) || kind == AcRefineScan(o, d)
    ensures Goal(kind, b, X) == SetLevels(b, X, o, d.ss, d.se + 1, d.al)
  {
    hide SetLevels;
  }

  lemma HoldingState<S>(x: Option<(Work<S>, seq<Block>)>, y: Option<(S, seq<Block>, nat)>, img: seq<Block>,
      mcus: seq<seq<Cover>>)
    requires forall m :: 0 <= m < |mcus| ==> |mcus[m]| == 1 && mcus[m][0].at < |img|
    requires Ac.Holding(x, y, img, mcus, |mcus|) && y.Some?
    ensures x.Some? && x.value.0.s == y.value.0
  {
  }

  lemma TokensThere(tb: Table, ts: seq<Token>, rest: Stream)
    requires AllSendable(tb, ts)
    ensures Ac.StreamOf(tb, rest, ts) == Dc.There(Emit(tb, ts), rest)
  {
    hide Emit;
  }

  lemma FirstReady(o: Order, d: Scan, mcus: seq<seq<Cover>>, tb: Table, img: seq<Block>, Xs: seq<Block>)
    requires d.ss >= 1 && Ac.Singles(mcus, tb, |img|) && AllReady(AcFirstScan(o, d), mcus, img, Xs)
    ensures var bs, Ys := Ac.Picked(img, mcus, |mcus|), Ac.Picked(Xs, mcus, |mcus|);
      forall m :: 0 <= m < |mcus| ==> CodableBand(Ys[m], o, d) && Blank(bs[m], o, d, d.ss)
  {
    PickedReady(AcFirstScan(o, d), mcus, tb, img, Xs);
    hide AllReady, CodableBand, Blank, Ac.Singles;
  }

  lemma RefinementReady(o: Order, d: Scan, mcus: seq<seq<Cover>>, tb: Table, img: seq<Block>, Xs: seq<Block>)
    requires d.ss >= 1 && Ac.Singles(mcus, tb, |img|) && AllReady(AcRefineScan(o, d), mcus, img, Xs)
    ensures var bs, Ys := Ac.Picked(img, mcus, |mcus|), Ac.Picked(Xs, mcus, |mcus|);
      forall m :: 0 <= m < |mcus| ==> History(bs[m], Ys[m], o, d, d.ss)
  {
    PickedReady(AcRefineScan(o, d), mcus, tb, img, Xs);
    hide AllReady, History, Ac.Singles;
  }

  lemma RunsOf(c: Ac.Coder, tb: Table, Ys: seq<Block>, bits: seq<bool>) returns (runs: seq<RunLength>)
    requires AcCodes(c, tb, Ys, bits)
    ensures AcCodesWith(c, tb, Ys, bits, runs)
  {
    hide AcCodesWith;
    runs :| AcCodesWith(c, tb, Ys, bits, runs);
  }

  lemma AcCodesParts(kind: Kind, mcus: seq<seq<Cover>>, comps: nat, tb: Table, Xs: seq<Block>, bits: seq<bool>,
      o: Order, d: Scan)
    requires d.ss >= 1 && (kind == AcFirstScan(o, d) || kind == AcRefineScan(o, d))
    requires Codes(kind, mcus, comps, tb, Xs, bits)
    ensures AllInside(mcus, |Xs|, comps) && Ac.Singles(mcus, tb, |Xs|)
    ensures AcCodes(if kind.AcFirstScan? then Ac.FirstCoder(o, d) else Ac.RefinementCoder(o, d), tb,
                    Ac.Picked(Xs, mcus, |mcus|), bits)
  {
    hide AcCodes, AllInside, Ac.Singles, Ac.Picked, Ac.FirstCoder, Ac.RefinementCoder, Dc.AllIn;
  }

  lemma AcFirstStretch(o: Order, d: Scan, mcus: seq<seq<Cover>>, comps: nat, tb: Table, img: seq<Block>,
      Xs: seq<Block>, bits: seq<bool>, rest: Stream)
    requires d.ss >= 1 && |Xs| == |img| && Codes(AcFirstScan(o, d), mcus, comps, tb, Xs, bits)
    requires AllReady(AcFirstScan(o, d), mcus, img, Xs)
    ensures Finished(AcFirstScan(o, d), mcus, img, Xs, rest, OnStream(AcFirstScan(o, d), mcus, comps, img, bits, rest))
  {
    AcCodesParts(AcFirstScan(o, d), mcus, comps, tb, Xs, bits, o, d);
    var c, bs, Ys := Ac.FirstCoder(o, d), Ac.Picked(img, mcus, |mcus|), Ac.Picked(Xs, mcus, |mcus|);
    hide *;
    FirstReady(o, d, mcus, tb, img, Xs);
    var runs := RunsOf(c, tb, Ys, bits);
    WithParts(c, tb, Ys, bits, runs);
    TokensThere(tb, Ac.Send(c, Ys, runs, 0), rest);
    Ac.FirstOnStream(tb, rest, o, d, Ys, bs, runs);
    StepsAre(o, d, tb);
    AcFinished(AcFirstScan(o, d), mcus, comps, tb, img, Xs, bits, rest, o, d);
  }

  lemma WithParts(c: Ac.Coder, tb: Table, Ys: seq<Block>, bits: seq<bool>, runs: seq<RunLength>)
    requires AcCodesWith(c, tb, Ys, bits, runs)
    ensures |runs| == |Ys| && Ac.Honest(c, Ys, runs, 0) && AllSendable(tb, Ac.Send(c, Ys, runs, 0))
    ensures bits == Emit(tb, Ac.Send(c, Ys, runs, 0))
  {
    hide Ac.Honest, Ac.Send, AllSendable, Emit;
  }

  lemma StepsAre(o: Order, d: Scan, tb: Table)
    requires d.ss >= 1
    ensures Ac.StepOf(AcFirstScan(o, d), Metered(), tb) == Ac.First(Metered(), tb, o, d)
    ensures Ac.StepOf(AcRefineScan(o, d), Metered(), tb) == Ac.Refinement(Metered(), tb, o, d)
  {
    hide Ac.First, Ac.Refinement, Metered;
  }

  lemma AcRefineStretch(o: Order, d: Scan, mcus: seq<seq<Cover>>, comps: nat, tb: Table, img: seq<Block>,
      Xs: seq<Block>, bits: seq<bool>, rest: Stream)
    requires d.ss >= 1 && |Xs| == |img| && Codes(AcRefineScan(o, d), mcus, comps, tb, Xs, bits)
    requires AllReady(AcRefineScan(o, d), mcus, img, Xs)
    ensures Finished(AcRefineScan(o, d), mcus, img, Xs, rest,
                     OnStream(AcRefineScan(o, d), mcus, comps, img, bits, rest))
  {
    AcCodesParts(AcRefineScan(o, d), mcus, comps, tb, Xs, bits, o, d);
    var c, bs, Ys := Ac.RefinementCoder(o, d), Ac.Picked(img, mcus, |mcus|), Ac.Picked(Xs, mcus, |mcus|);
    hide *;
    RefinementReady(o, d, mcus, tb, img, Xs);
    var runs := RunsOf(c, tb, Ys, bits);
    WithParts(c, tb, Ys, bits, runs);
    TokensThere(tb, Ac.Send(c, Ys, runs, 0), rest);
    Ac.RefinementOnStream(tb, rest, o, d, Ys, bs, runs);
    StepsAre(o, d, tb);
    AcFinished(AcRefineScan(o, d), mcus, comps, tb, img, Xs, bits, rest, o, d);
  }

  /** Fed their codes, the MCUs of a stretch are decoded to their goals, and nothing beyond the codes is read. */
  lemma StretchOnStream(kind: Kind, mcus: seq<seq<Cover>>, comps: nat, tb: Table, img: seq<Block>, Xs: seq<Block>,
      bits: seq<bool>, rest: Stream)
    requires |Xs| == |img| && Codes(kind, mcus, comps, tb, Xs, bits)
    requires Dc.Distinct(mcus) && AllReady(kind, mcus, img, Xs)
    ensures AllInside(mcus, |img|, comps)
    ensures Finished(kind, mcus, img, Xs, rest, OnStream(kind, mcus, comps, img, bits, rest))
  {
    assert AllInside(mcus, |img|, comps);
    hide *;
    match kind
    case DcFirstScan(al) => DcFirstStretch(al, mcus, comps, tb, img, Xs, bits, rest);
    case DcRefineScan(al) => DcRefineStretch(al, mcus, comps, tb, img, Xs, bits, rest);
    case AcFirstScan(o, d) => AcFirstStretch(o, d, mcus, comps, tb, img, Xs, bits, rest);
    case AcRefineScan(o, d) => AcRefineStretch(o, d, mcus, comps, tb, img, Xs, bits, rest);
  }

  // ---------------------------------------------------------------- a stretch from the register

  /** The decoder stands at the beginning of a stretch. */
  ghost predicate AtStretch(x: Session.State, pos: nat, plan: Session.Plan) {
    && Session.Fits(x, plan) && Fresh(x.perm, pos) && x.perm.last == Dc.NoPredictors(plan.comps) && x.eobRun == 0
    && (plan.restartInterval != 0 ==> x.perm.toGo == plan.restartInterval)
  }

  /** Only the MCUs concerned matter. */
  lemma {:induction false} McusOfPart<S>(kind: Kind, src: BitSource<S>, over: S -> bool, w: Work<S>,
      mcus: seq<seq<Cover>>, m: nat, part: seq<seq<Cover>>, n: nat, img: seq<Block>)
    requires AllInside(mcus, |img|, |w.last|) && AllInside(part, |img|, |w.last|) && m + n <= |mcus| && n <= |part|
    requires forall i :: 0 <= i < n ==> part[i] == mcus[m + i]
    ensures Mcus(kind, src, over, w, mcus, m, n, img) == Mcus(kind, src, over, w, part, 0, n, img)
  {
    hide OneMcu;
    if n > 0 {
      McusOfPart(kind, src, over, w, mcus, m, part, n - 1, img);
      assert mcus[m + n - 1] == part[n - 1];
    }
  }

  function Part(plan: Session.Plan, m: nat, n: nat): (part: seq<seq<Cover>>)
    requires m + n <= |plan.mcus|
    ensures |part| == n && forall i :: 0 <= i < n ==> part[i] == plan.mcus[m + i]
  {
    plan.mcus[m..m + n]
  }

  /** What the register has in front of it when a stretch begins. */
  lemma StretchBegins(data: seq<byte>, x: Session.State, pos: nat, plan: Session.Plan, bits: seq<bool>)
    requires AtStretch(x, pos, plan) && bits <= Destuff(data, pos).bits
    ensures var w, rest := Session.WorkOf(x), Following(Destuff(data, pos), bits);
      && ReadsTo(data, MarkerAfter(data, pos), w.s, Dc.There(bits, rest))
      && w.last == Dc.NoPredictors(plan.comps) && w.eobRun == 0
  {
    FreshRest(data, x.perm, pos);
    hide Session.Fits, Destuff, MarkerAfter;
  }

  lemma StretchEnds(data: seq<byte>, pos: nat, bits: seq<bool>, st: Register)
    requires bits <= Destuff(data, pos).bits
    requires ReadsTo(data, MarkerAfter(data, pos), st, Reading(Following(Destuff(data, pos), bits), false))
    ensures ReadOff(data, pos, bits, st)
  {
    hide Destuff, Denotes, MarkerAfter, MarkerOf, Rest;
  }

  lemma FlagsAgree(data: seq<byte>, mk: Option<(byte, nat)>)
    ensures Agree(IsShort, IsOver, (st: Register, r: Reading) => ReadsTo(data, mk, st, r))
  {
    hide Denotes, MarkerOf;
  }

  lemma StretchParts(data: seq<byte>, x: Session.State, pos: nat, plan: Session.Plan, n: nat)
    requires AtStretch(x, pos, plan) && x.m + n <= |plan.mcus|
    ensures Session.Fits(x, plan) && (plan.restartInterval != 0 ==> x.perm.toGo == plan.restartInterval)
    ensures var w, part := Session.WorkOf(x), Part(plan, x.m, n);
      && AllInside(plan.mcus, |x.img|, plan.comps) && AllInside(part, |x.img|, plan.comps) && |w.last| == plan.comps
      && Session.Segment(data, x, n, plan) == Mcus(plan.kind, Concrete(data), IsShort, w, plan.mcus, x.m, n, x.img)
  {
    hide Mcus, Concrete, IsShort, Inside, Fresh;
  }

  lemma FinishedParts(kind: Kind, mcus: seq<seq<Cover>>, comps: nat, img: seq<Block>, Xs: seq<Block>, bits: seq<bool>,
      rest: Stream)
    requires AllInside(mcus, |img|, comps)
    requires Finished(kind, mcus, img, Xs, rest, OnStream(kind, mcus, comps, img, bits, rest))
    ensures var r := Mcus(kind, Metered(), IsOver, Work(Dc.There(bits, rest), Dc.NoPredictors(comps), 0), mcus, 0,
        |mcus|, img);
      r.Some? && r.value.0.s == Reading(rest, false) && Done(kind, mcus, |mcus|, r.value.1, img, Xs)
  {
    hide Mcus, Metered, IsOver, Dc.There, Done;
  }

  /** What the stream leads to, the register leads to, and it does not pass the marker ahead. */
  lemma RegisterFollows(data: seq<byte>, mk: Option<(byte, nat)>, kind: Kind, part: seq<seq<Cover>>, comps: nat,
      w: Work<Register>, img: seq<Block>, Xs: seq<Block>, bits: seq<bool>, rest: Stream, w1: Work<Register>,
      out: seq<Block>)
    requires AllInside(part, |img|, comps) && w.last == Dc.NoPredictors(comps) && w.eobRun == 0
    requires ReadsTo(data, mk, w.s, Dc.There(bits, rest))
    requires Finished(kind, part, img, Xs, rest, OnStream(kind, part, comps, img, bits, rest))
    requires Mcus(kind, Concrete(data), IsShort, w, part, 0, |part|, img) == Some((w1, out))
    ensures Done(kind, part, |part|, out, img, Xs) && ReadsTo(data, mk, w1.s, Reading(rest, false))
  {
    var rel := (st: Register, r: Reading) => ReadsTo(data, mk, st, r);
    var v := Work(Dc.There(bits, rest), Dc.NoPredictors(comps), 0);
    assert Alike(w, v, rel);
    hide *;
    FinishedParts(kind, part, comps, img, Xs, bits, rest);
    ConcreteToMarker(data, mk);
    FlagsAgree(data, mk);
    McusFollow(kind, Concrete(data), Metered(), IsShort, IsOver, rel, w, v, part, 0, |part|, img);
    AlikeState(w1, Mcus(kind, Metered(), IsOver, v, part, 0, |part|, img).value.0, rel);
  }

  lemma AlikeState<S(!new), T(!new)>(w: Work<S>, v: Work<T>, rel: (S, T) -> bool)
    requires Alike(w, v, rel)
    ensures rel(w.s, v.s)
  {
  }

  /** A stretch from the register: it ends at its goals and at the end of the codes. */
  lemma StretchFromRegister(data: seq<byte>, x: Session.State, pos: nat, plan: Session.Plan, tb: Table, Xs: seq<Block>,
      n: nat, bits: seq<bool>, y: Session.State)
    requires AtStretch(x, pos, plan) && x.m + n <= |plan.mcus| && Session.NoRestart(x, n, plan) && |Xs| == |x.img|
    requires Codes(plan.kind, Part(plan, x.m, n), plan.comps, tb, Xs, bits) && bits <= Destuff(data, pos).bits
    requires Dc.Distinct(Part(plan, x.m, n)) && AllReady(plan.kind, Part(plan, x.m, n), x.img, Xs)
    requires Session.Unbroken(data, x, n, plan) == Some(y)
    ensures Done(plan.kind, Part(plan, x.m, n), n, y.img, x.img, Xs)
    ensures ReadOff(data, pos, bits, Seq.RegisterOf(y.perm)) && y.perm.nextRst == x.perm.nextRst
    ensures plan.restartInterval != 0 ==> y.perm.toGo == plan.restartInterval - n
  {
    hide *;
    var part, rest, mk := Part(plan, x.m, n), Following(Destuff(data, pos), bits), MarkerAfter(data, pos);
    StretchBegins(data, x, pos, plan, bits);
    StretchParts(data, x, pos, plan, n);
    StretchOnStream(plan.kind, part, plan.comps, tb, x.img, Xs, bits, rest);
    Session.SegmentIsScan(data, x, n, plan);
    Session.ReachedParts(y, Session.Segment(data, x, n, plan), x, n, plan);
    McusOfPart(plan.kind, Concrete(data), IsShort, Session.WorkOf(x), plan.mcus, x.m, part, n, x.img);
    RegisterFollows(data, mk, plan.kind, part, plan.comps, Session.WorkOf(x), x.img, Xs, bits, rest,
        Session.WorkOf(y), y.img);
    StateOfWork(y);
    StretchEnds(data, pos, bits, Seq.RegisterOf(y.perm));
  }

  lemma StateOfWork(y: Session.State)
    ensures Session.WorkOf(y).s == Seq.RegisterOf(y.perm)
  {
    hide Seq.RegisterOf;
  }

  // ---------------------------------------------------------------- from stretch to stretch

  /** At the end of a segment the next call goes on behind the restart marker. */
  lemma AcrossRestart(data: seq<byte>, y: Session.State, next: nat, plan: Session.Plan) returns (q: Session.State)
    requires Session.Fits(y, plan) && y.m < |plan.mcus| && plan.restartInterval != 0 && y.perm.toGo == 0
    requires MarkerOf(data, Seq.RegisterOf(y.perm)) == Some((Markers.M_RST0 + y.perm.nextRst, next))
    ensures AtStretch(q, next, plan) && q.m == y.m && q.img == y.img && q.perm.nextRst == (y.perm.nextRst + 1) % 8
    ensures Session.DecodeMcu(data, y, plan) == Session.DecodeMcu(data, q, plan)
  {
    hide MarkerOf, Session.DecodeBody, Session.PlanOk, Seq.ProcessRestart;
    RestartAtMarker(data, y.perm, Session.Restarts(plan), next);
    q := Session.ProcessRestart(data, y, plan).0;
  }

  /** Up to where the next stretch begins. */
  lemma CoveredOn(mcus: seq<seq<Cover>>, m: nat, part: seq<seq<Cover>>, i: nat)
    requires m + |part| <= |mcus| && part == mcus[m..m + |part|]
    ensures Dc.Covered(mcus, m + |part|, i) <==> Dc.Covered(mcus, m, i) || Dc.Covered(part, |part|, i)
  {
    hide In;
    if Dc.Covered(mcus, m + |part|, i) && !Dc.Covered(mcus, m, i) {
      var k :| 0 <= k < m + |part| && In(mcus[k], i);
      assert In(part[k - m], i);
    }
    if Dc.Covered(part, |part|, i) {
      var k :| 0 <= k < |part| && In(part[k], i);
      assert In(mcus[m + k], i);
    }
  }

  lemma InOnce(mcus: seq<seq<Cover>>, a: nat, b: nat, i: nat)
    requires Dc.Distinct(mcus) && a < |mcus| && b < |mcus| && In(mcus[a], i) && In(mcus[b], i)
    ensures a == b
  {
    var k :| 0 <= k < |mcus[a]| && mcus[a][k].at == i;
    var l :| 0 <= l < |mcus[b]| && mcus[b][l].at == i;
    assert mcus[a][k].at == mcus[b][l].at;
  }

  lemma CoveredOnce(mcus: seq<seq<Cover>>, m: nat, part: seq<seq<Cover>>, i: nat)
    requires m + |part| <= |mcus| && part == mcus[m..m + |part|] && Dc.Distinct(mcus)
    ensures Dc.Covered(mcus, m, i) ==> !Dc.Covered(part, |part|, i)
  {
    hide In, Dc.Distinct;
    if Dc.Covered(mcus, m, i) {
      var a :| 0 <= a < m && In(mcus[a], i);
      forall b | 0 <= b < |part| ensures !In(part[b], i) {
        if In(part[b], i) { InOnce(mcus, a, m + b, i); }
      }
    }
  }

  lemma PartDistinct(mcus: seq<seq<Cover>>, m: nat, part: seq<seq<Cover>>)
    requires m + |part| <= |mcus| && part == mcus[m..m + |part|] && Dc.Distinct(mcus)
    ensures Dc.Distinct(part)
  {
    forall a, k, b, l | 0 <= a < |part| && 0 <= k < |part[a]| && 0 <= b < |part| && 0 <= l < |part[b]|
      && part[a][k].at == part[b][l].at
      ensures a == b && k == l
    {
      assert mcus[m + a][k].at == mcus[m + b][l].at;
    }
  }

  /** The blocks of the next stretch have not been touched, so they are still ready. */
  lemma StillReady(kind: Kind, mcus: seq<seq<Cover>>, m: nat, part: seq<seq<Cover>>, now: seq<Block>, img: seq<Block>,
      Xs: seq<Block>)
    requires m + |part| <= |mcus| && part == mcus[m..m + |part|] && Dc.Distinct(mcus)
    requires AllReady(kind, mcus, img, Xs) && Done(kind, mcus, m, now, img, Xs)
    ensures AllReady(kind, part, now, Xs)
  {
    hide Dc.Covered, Dc.Distinct, Ready, Goal;
    forall i | 0 <= i < |img| && Dc.Covered(part, |part|, i) ensures Ready(kind, now[i], Xs[i]) {
      CoveredOnce(mcus, m, part, i);
      CoveredOn(mcus, m, part, i);
      CoveredLater(mcus, m + |part|, i);
    }
  }

  lemma CoveredLater(mcus: seq<seq<Cover>>, n: nat, i: nat)
    requires n <= |mcus| && Dc.Covered(mcus, n, i)
    ensures Dc.Covered(mcus, |mcus|, i)
  {
    hide In;
  }

  lemma DoneFurther(kind: Kind, mcus: seq<seq<Cover>>, m: nat, part: seq<seq<Cover>>, out: seq<Block>, now: seq<Block>,
      img: seq<Block>, Xs: seq<Block>)
    requires m + |part| <= |mcus| && part == mcus[m..m + |part|] && Dc.Distinct(mcus)
    requires Done(kind, mcus, m, now, img, Xs) && Done(kind, part, |part|, out, now, Xs)
    ensures Done(kind, mcus, m + |part|, out, img, Xs)
  {
    hide Dc.Covered, Dc.Distinct, Goal;
    forall i | 0 <= i < |img|
      ensures out[i] == if Dc.Covered(mcus, m + |part|, i) then Goal(kind, img[i], Xs[i]) else img[i]
    {
      CoveredOn(mcus, m, part, i);
      CoveredOnce(mcus, m, part, i);
    }
  }

  /** What a segment of the scan carries: the codes of its MCUs' blocks, taken from Xs. */
  ghost function CodingOf(plan: Session.Plan, tb: Table, Xs: seq<Block>): Coding {
    (m: nat, n: nat, bits: seq<bool>) =>
      m + n <= |plan.mcus| && Codes(plan.kind, plan.mcus[m..m + n], plan.comps, tb, Xs, bits)
  }

  lemma CodingIs(plan: Session.Plan, tb: Table, Xs: seq<Block>, m: nat, n: nat, bits: seq<bool>)
    requires m + n <= |plan.mcus| && CodingOf(plan, tb, Xs)(m, n, bits)
    ensures Codes(plan.kind, Part(plan, m, n), plan.comps, tb, Xs, bits)
  {
    hide Codes;
  }

  /** The decoder stands at the beginning of a segment, everything before it is done, and the rest of the
      scan is laid out from there. */
  ghost predicate Underway(data: seq<byte>, x: Session.State, pos: nat, plan: Session.Plan, tb: Table, img: seq<Block>,
      Xs: seq<Block>)
  {
    && AtStretch(x, pos, plan) && Dc.Distinct(plan.mcus) && AllReady(plan.kind, plan.mcus, img, Xs)
    && Done(plan.kind, plan.mcus, x.m, x.img, img, Xs)
    && Laid(data, pos, x.perm.nextRst, plan.restartInterval, |plan.mcus|, x.m, CodingOf(plan, tb, Xs))
  }

  /** The codes of the stretch that begins here. */
  lemma HereAre(data: seq<byte>, x: Session.State, pos: nat, plan: Session.Plan, tb: Table, img: seq<Block>,
      Xs: seq<Block>)
    returns (bits: seq<bool>)
    requires Underway(data, x, pos, plan, tb, img, Xs)
    ensures x.m <= |plan.mcus| && |Xs| == |x.img| && Session.Fits(x, plan)
    ensures Session.NoRestart(x, Stretch(plan.restartInterval, |plan.mcus|, x.m), plan)
    ensures Segment(data, pos, x.perm.nextRst, plan.restartInterval, |plan.mcus|, x.m, CodingOf(plan, tb, Xs), bits)
  {
    hide Laid, CodingOf, AllReady, Dc.Distinct, Session.PlanOk;
    bits := FirstSegment(data, pos, x.perm.nextRst, plan.restartInterval, |plan.mcus|, x.m, CodingOf(plan, tb, Xs));
  }

  lemma UnderwayParts(data: seq<byte>, x: Session.State, pos: nat, plan: Session.Plan, tb: Table, img: seq<Block>,
      Xs: seq<Block>)
    requires Underway(data, x, pos, plan, tb, img, Xs)
    ensures AtStretch(x, pos, plan) && Dc.Distinct(plan.mcus) && AllReady(plan.kind, plan.mcus, img, Xs)
    ensures x.m <= |plan.mcus| && Done(plan.kind, plan.mcus, x.m, x.img, img, Xs)
  {
    hide Laid, AllReady, Dc.Distinct, Done, CodingOf;
  }

  /** One stretch, from the beginning of a segment to its end. */
  lemma OneStretch(data: seq<byte>, x: Session.State, pos: nat, plan: Session.Plan, tb: Table, img: seq<Block>,
      Xs: seq<Block>, n: nat, bits: seq<bool>, y: Session.State)
    requires Underway(data, x, pos, plan, tb, img, Xs)
    requires x.m <= |plan.mcus| && n == Stretch(plan.restartInterval, |plan.mcus|, x.m)
    requires Segment(data, pos, x.perm.nextRst, plan.restartInterval, |plan.mcus|, x.m, CodingOf(plan, tb, Xs), bits)
    requires Session.Fits(x, plan) && Session.NoRestart(x, n, plan) && |Xs| == |x.img|
    requires Session.Unbroken(data, x, n, plan) == Some(y)
    ensures Done(plan.kind, plan.mcus, x.m + n, y.img, img, Xs)
    ensures bits <= Destuff(data, pos).bits && ReadOff(data, pos, bits, Seq.RegisterOf(y.perm))
    ensures y.perm.nextRst == x.perm.nextRst
    ensures plan.restartInterval != 0 && x.m + n < |plan.mcus| ==> y.perm.toGo == 0
  {
    hide *;
    var part := Part(plan, x.m, n);
    UnderwayParts(data, x, pos, plan, tb, img, Xs);
    SegmentParts(data, pos, x.perm.nextRst, plan.restartInterval, |plan.mcus|, x.m, CodingOf(plan, tb, Xs), bits);
    CodingIs(plan, tb, Xs, x.m, n, bits);
    PartDistinct(plan.mcus, x.m, part);
    StillReady(plan.kind, plan.mcus, x.m, part, x.img, img, Xs);
    StretchFromRegister(data, x, pos, plan, tb, Xs, n, bits, y);
    DoneFurther(plan.kind, plan.mcus, x.m, part, y.img, x.img, img, Xs);
  }

  /** And on to the beginning of the next. */
  lemma NextStretch(data: seq<byte>, x: Session.State, pos: nat, plan: Session.Plan, tb: Table, img: seq<Block>,
      Xs: seq<Block>, n: nat, bits: seq<bool>, y: Session.State)
    returns (q: Session.State, next: nat)
    requires Underway(data, x, pos, plan, tb, img, Xs)
    requires x.m <= |plan.mcus| && n == Stretch(plan.restartInterval, |plan.mcus|, x.m) && x.m + n < |plan.mcus|
    requires Segment(data, pos, x.perm.nextRst, plan.restartInterval, |plan.mcus|, x.m, CodingOf(plan, tb, Xs), bits)
    requires Session.Fits(y, plan) && y.m == x.m + n && Done(plan.kind, plan.mcus, y.m, y.img, img, Xs)
    requires bits <= Destuff(data, pos).bits && ReadOff(data, pos, bits, Seq.RegisterOf(y.perm))
    requires y.perm.nextRst == x.perm.nextRst && y.perm.toGo == 0 && plan.restartInterval != 0
    ensures Underway(data, q, next, plan, tb, img, Xs) && q.m == y.m
    ensures MarkerAfter(data, pos).Some? && next == MarkerAfter(data, pos).value.1
    ensures Session.Fits(q, plan) && Session.DecodeMcu(data, y, plan) == Session.DecodeMcu(data, q, plan)
  {
    hide *;
    UnderwayParts(data, x, pos, plan, tb, img, Xs);
    SegmentParts(data, pos, x.perm.nextRst, plan.restartInterval, |plan.mcus|, x.m, CodingOf(plan, tb, Xs), bits);
    next := MarkerAfter(data, pos).value.1;
    ReadToMarker(data, pos, bits, Seq.RegisterOf(y.perm));
    q := AcrossRestart(data, y, next, plan);
    assert Session.Fits(q, plan) by { StretchParts(data, q, next, plan, 0); }
    Resumed(data, q, next, plan, tb, img, Xs);
  }

  lemma Resumed(data: seq<byte>, x: Session.State, pos: nat, plan: Session.Plan, tb: Table, img: seq<Block>,
      Xs: seq<Block>)
    requires AtStretch(x, pos, plan) && Dc.Distinct(plan.mcus) && AllReady(plan.kind, plan.mcus, img, Xs)
    requires x.m <= |plan.mcus| && Done(plan.kind, plan.mcus, x.m, x.img, img, Xs)
    requires Laid(data, pos, x.perm.nextRst, plan.restartInterval, |plan.mcus|, x.m, CodingOf(plan, tb, Xs))
    ensures Underway(data, x, pos, plan, tb, img, Xs)
  {
    hide Laid, AtStretch, AllReady, Dc.Distinct, Done, CodingOf;
  }

  /** From the beginning of a segment to the end of the scan. */
  lemma {:induction false} StretchesExact(data: seq<byte>, x: Session.State, pos: nat, plan: Session.Plan, tb: Table,
      img: seq<Block>, Xs: seq<Block>, k: nat, y: Session.State)
    requires Underway(data, x, pos, plan, tb, img, Xs) && x.m + k == |plan.mcus| && Session.Fits(x, plan)
    requires Session.Unbroken(data, x, k, plan) == Some(y)
    ensures Done(plan.kind, plan.mcus, |plan.mcus|, y.img, img, Xs)
    decreases k
  {
    hide *;
    var bits := HereAre(data, x, pos, plan, tb, img, Xs);
    var n := Stretch(plan.restartInterval, |plan.mcus|, x.m);
    Session.UnbrokenAdd(data, x, n, k - n, plan);
    var z := Session.Unbroken(data, x, n, plan).value;
    OneStretch(data, x, pos, plan, tb, img, Xs, n, bits, z);
    if n < k {
      var q, next := NextStretch(data, x, pos, plan, tb, img, Xs, n, bits, z);
      Session.UnbrokenSame(data, z, q, k - n, plan);
      StretchesExact(data, q, next, plan, tb, img, Xs, k - n, y);
    } else {
      NoMore(data, z, plan);
    }
  }

  lemma NoMore(data: seq<byte>, z: Session.State, plan: Session.Plan)
    requires Session.Fits(z, plan)
    ensures Session.Unbroken(data, z, 0, plan) == Some(z)
  {
  }

  /** Main result.  A scan of any kind, with or without restarts: when the segments of its data carry the codes
      of Xs, and its blocks are ready for them, it leaves every block of the scan at its goal and all others as
      they were, however the data is cut into deliveries and calls suspend. */
  lemma ScanExact(x0: Session.State, pos: nat, es: seq<Seq.Event>, plan: Session.Plan, tb: Table, Xs: seq<Block>)
    requires AtStretch(x0, pos, plan) && x0.m == 0
    requires Dc.Distinct(plan.mcus) && AllReady(plan.kind, plan.mcus, x0.img, Xs)
    requires var s := Session.After(Session.Session([], x0), es, plan);
      && s.x.m == |plan.mcus|
      && Laid(s.data, pos, x0.perm.nextRst, plan.restartInterval, |plan.mcus|, 0, CodingOf(plan, tb, Xs))
    ensures Done(plan.kind, plan.mcus, |plan.mcus|, Session.After(Session.Session([], x0), es, plan).x.img, x0.img, Xs)
  {
    assert Session.Fits(x0, plan) && Done(plan.kind, plan.mcus, 0, x0.img, x0.img, Xs);
    hide *;
    var k, y := Session.FinishedRun(x0, es, plan);
    var data := Session.After(Session.Session([], x0), es, plan).data;
    Resumed(data, x0, pos, plan, tb, x0.img, Xs);
    StretchesExact(data, x0, pos, plan, tb, x0.img, Xs, k, y);
  }

  // ---------------------------------------------------------------- finishing

  /** With its end there, no MCU of a segment suspends. */
  lemma StretchFinishes(data: seq<byte>, x: Session.State, pos: nat, plan: Session.Plan, n: nat)
    requires AtStretch(x, pos, plan) && x.m + n <= |plan.mcus| && Session.NoRestart(x, n, plan)
    requires MarkerAfter(data, pos).Some? && Session.TablesOk(plan)
    ensures Session.Unbroken(data, x, n, plan).Some?
  {
    var live := (st: Register) => Rest(data, st).ended;
    assert live(Session.WorkOf(x).s) by {
      FreshRest(data, x.perm, pos);
      EndedByMarker(data, pos);
    }
    StretchParts(data, x, pos, plan, n);
    assert Session.Unbroken(data, x, n, plan).Some? <==> Session.Segment(data, x, n, plan).Some? by {
      Session.SegmentIsScan(data, x, n, plan);
    }
    hide *;
    EndedNeverDry(data);
    McusComplete(plan.kind, Concrete(data), live, IsShort, Session.WorkOf(x), plan.mcus, x.m, n, x.img);
  }

  lemma {:induction false} StretchesFinish(data: seq<byte>, x: Session.State, pos: nat, plan: Session.Plan, tb: Table,
      img: seq<Block>, Xs: seq<Block>, k: nat)
    requires Underway(data, x, pos, plan, tb, img, Xs) && x.m + k == |plan.mcus| && Session.Fits(x, plan)
    requires Closed(data, pos, plan.restartInterval, |plan.mcus|, x.m)
    requires Session.TablesOk(plan)
    ensures Session.Unbroken(data, x, k, plan).Some?
    decreases k
  {
    hide *;
    var bits := HereAre(data, x, pos, plan, tb, img, Xs);
    var n := Stretch(plan.restartInterval, |plan.mcus|, x.m);
    UnderwayParts(data, x, pos, plan, tb, img, Xs);
    ClosedParts(data, pos, plan.restartInterval, |plan.mcus|, x.m);
    StretchFinishes(data, x, pos, plan, n);
    Session.UnbrokenAdd(data, x, n, k - n, plan);
    var z := Session.Unbroken(data, x, n, plan).value;
    if n < k {
      OneStretch(data, x, pos, plan, tb, img, Xs, n, bits, z);
      var q, next := NextStretch(data, x, pos, plan, tb, img, Xs, n, bits, z);
      Session.UnbrokenSame(data, z, q, k - n, plan);
      StretchesFinish(data, q, next, plan, tb, img, Xs, k - n);
    } else {
      NoMore(data, z, plan);
    }
  }

  /** And when all of it is there, marker at the end included, no call suspends. */
  lemma ScanFinishes(data: seq<byte>, x0: Session.State, pos: nat, plan: Session.Plan, tb: Table, Xs: seq<Block>)
    requires AtStretch(x0, pos, plan) && x0.m == 0
    requires Dc.Distinct(plan.mcus) && AllReady(plan.kind, plan.mcus, x0.img, Xs)
    requires Laid(data, pos, x0.perm.nextRst, plan.restartInterval, |plan.mcus|, 0, CodingOf(plan, tb, Xs))
    requires Closed(data, pos, plan.restartInterval, |plan.mcus|, 0)
    requires Session.TablesOk(plan)
    ensures Session.Unbroken(data, x0, |plan.mcus|, plan).Some?
  {
    assert Session.Fits(x0, plan) && Done(plan.kind, plan.mcus, 0, x0.img, x0.img, Xs);
    hide *;
    Resumed(data, x0, pos, plan, tb, x0.img, Xs);
    StretchesFinish(data, x0, pos, plan, tb, x0.img, Xs, |plan.mcus|);
  }

  /** The round trip: what an encoder writes for a scan decodes to the goals of its blocks, in whatever pieces it
      is delivered, and no call suspends once all of it has been. */
  lemma DecodesWhatWasEncoded(x0: Session.State, es: seq<Seq.Event>, plan: Session.Plan, tb: Table, Xs: seq<Block>,
      segs: seq<seq<bool>>)
    requires AtStretch(x0, 0, plan) && x0.m == 0 && Session.TablesOk(plan)
    requires Dc.Distinct(plan.mcus) && AllReady(plan.kind, plan.mcus, x0.img, Xs)
    requires Coded(segs, plan.restartInterval, |plan.mcus|, 0, CodingOf(plan, tb, Xs))
    ensures var data, s := LayOut(segs, x0.perm.nextRst), Session.After(Session.Session([], x0), es, plan);
      && Session.Unbroken(data, x0, |plan.mcus|, plan).Some?
      && (s.data == data && s.x.m == |plan.mcus| ==> Done(plan.kind, plan.mcus, |plan.mcus|, s.x.img, x0.img, Xs))
  {
    assert Session.Fits(x0, plan);
    hide *;
    var data, s := LayOut(segs, x0.perm.nextRst), Session.After(Session.Session([], x0), es, plan);
    LaidOut([], segs, x0.perm.nextRst, plan.restartInterval, |plan.mcus|, 0, CodingOf(plan, tb, Xs));
    assert [] + data == data;
    ScanFinishes(data, x0, 0, plan, tb, Xs);
    if s.data == data && s.x.m == |plan.mcus| {
      ScanExact(x0, 0, es, plan, tb, Xs);
    }
  }
}
