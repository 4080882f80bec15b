/** Whole sequential scans: segment after segment fed the prescribed codes, with or without restarts, every MCU
    is stored exactly as it was coded, in whatever pieces the data arrived. */
module SequentialScans {
  import opened Wrappers
  import opened Bits
  import opened BitStream
  import opened BitSources
  import opened InsufficientData
  import opened Coefficients
  import Refine
  import opened SequentialMcu
  import opened SequentialExact
  import opened SegmentEnds
  import opened RestartIntervals
  import opened SegmentLayout
  import Dc = DcProgression
  import Markers

  // ---------------------------------------------------------------- the codes of many MCUs

  /** The blocks of each MCU of a scan, in order. */
  type Mcus = seq<seq<Refine.Block>>

  predicate Fits(plan: ScanPlan, XS: Mcus) {
    PlansOk(plan.blocks, plan.comps) && forall m :: 0 <= m < |XS| ==> |XS[m]| == |plan.blocks|
  }

  /** The DC values last coded, after MCU m. */
  function PredsOn(plan: ScanPlan, XS: Mcus, preds: seq<int>, m: nat): (r: seq<int>)
    requires Fits(plan, XS) && |preds| == plan.comps && m < |XS|
    ensures |r| == plan.comps
  {
    PredsAfter(plan.blocks, preds, XS[m], 0)
  }

  /** And after n MCUs from m on. */
  function PredsUpTo(plan: ScanPlan, XS: Mcus, preds: seq<int>, m: nat, n: nat): (r: seq<int>)
    requires Fits(plan, XS) && |preds| == plan.comps && m + n <= |XS|
    ensures |r| == plan.comps
  {
    if n == 0 then preds else PredsOn(plan, XS, PredsUpTo(plan, XS, preds, m, n - 1), m + n - 1)
  }

  /** MCUs m to e - 1 can be coded. */
  ghost predicate AllCodable(plan: ScanPlan, XS: Mcus, preds: seq<int>, m: nat, e: nat)
    requires Fits(plan, XS) && |preds| == plan.comps && m <= e <= |XS|
    decreases e - m
  {
    m < e ==>
      McuCodable(plan.blocks, preds, XS[m], 0) && AllCodable(plan, XS, PredsOn(plan, XS, preds, m), m + 1, e)
  }

  ghost function AllBits(plan: ScanPlan, XS: Mcus, preds: seq<int>, m: nat, e: nat): seq<bool>
    requires Fits(plan, XS) && |preds| == plan.comps && m <= e <= |XS| && AllCodable(plan, XS, preds, m, e)
    decreases e - m
  {
    if m == e then []
    else
      McuBits(plan.blocks, preds, XS[m], 0) + AllBits(plan, XS, PredsOn(plan, XS, preds, m), m + 1, e)
  }

  /** What a segment carries: the codes of its MCUs, predictors starting from zero. */
  ghost function CodingOf(plan: ScanPlan, XS: Mcus): Coding
    requires Fits(plan, XS)
  {
    (m: nat, n: nat, bits: seq<bool>) =>
      var zero := ZeroPredictors(plan.comps);
      m + n <= |XS| && AllCodable(plan, XS, zero, m, m + n) && bits == AllBits(plan, XS, zero, m, m + n)
  }

  // ---------------------------------------------------------------- one MCU from the register

  /** A completed MCU stored exactly the blocks that were coded, and read exactly their bits. */
  lemma OneMcu(data: seq<byte>, mk: Option<(byte, nat)>, p: Perm, plan: ScanPlan, preds: seq<int>,
      Xs: seq<Refine.Block>, more: seq<bool>, rest: Stream)
    requires |Xs| == |plan.blocks| && Tracks(plan.blocks, p.last, preds) && McuCodable(plan.blocks, preds, Xs, 0)
    requires ReadsTo(data, mk, RegisterOf(p), Dc.There(McuBits(plan.blocks, preds, Xs, 0) + more, rest))
    requires !RestartDue(p, plan) && DecodeMcu(data, p, plan).done
    ensures var r := DecodeMcu(data, p, plan);
      && r.writes == McuWrites(plan.blocks, Xs, 0) && r.saved.nextRst == p.nextRst
      && ReadsTo(data, mk, RegisterOf(r.saved), Dc.There(more, rest))
      && Tracks(plan.blocks, r.saved.last, PredsAfter(plan.blocks, preds, Xs, 0))
      && (p.toGo > 0 ==> r.saved.toGo == p.toGo - 1)
  {
    var bits := McuBits(plan.blocks, preds, Xs, 0);
    var rel := (st: Register, r: Reading) => ReadsTo(data, mk, st, r);
    assert rel(RegisterOf(p), Dc.There(bits + more, rest));
    BodyIs(data, mk, p, plan, Dc.There(bits + more, rest));
    var a := DecodeBlocks(Concrete(data), RegisterOf(p), p.last, plan.blocks, 0);
    hide *;
    ConcreteToMarker(data, mk);
    BlocksSimulated(Concrete(data), Metered(), rel, RegisterOf(p), Dc.There(bits + more, rest), p.last, plan.blocks, 0);
    McuOnStream(plan.blocks, p.last, preds, Xs, 0, Dc.Before(more, rest));
    Dc.BeforeBefore(bits, more, rest);
    Dc.ThereIs(bits + more, rest);
    Dc.ThereIs(bits, Dc.Before(more, rest));
    Dc.ThereIs(more, rest);
    TracksAfter(plan.blocks, p.last, preds, Xs, 0);
    PairParts(a, DecodeBlocks(Metered(), Dc.There(bits + more, rest), p.last, plan.blocks, 0), rel);
    Retained(p, a.out.value.0, a.out.value.1);
  }

  /** decode_mcu while there is data and no restart due. */
  lemma BodyIs(data: seq<byte>, mk: Option<(byte, nat)>, p: Perm, plan: ScanPlan, r: Reading)
    requires ReadsTo(data, mk, RegisterOf(p), r) && !r.over && !RestartDue(p, plan)
    ensures var a := DecodeBlocks(Concrete(data), RegisterOf(p), p.last, plan.blocks, 0);
      DecodeMcu(data, p, plan) == match a.out
        case None => Call(p, false, a.writes)
        case Some((st, last)) => Call(CountDown(Retain(p, st, last)), true, a.writes)
  {
    hide DecodeBlocks, Concrete, Denotes, MarkerOf, CountDown, Retain;
  }

  lemma PairParts<S(!new), T(!new)>(a: Attempt<(S, seq<int>)>, b: Attempt<(T, seq<int>)>, rel: (S, T) -> bool)
    requires Extends(a, b, Paired(rel)) && a.out.Some?
    ensures b.out.Some? && a.writes == b.writes
    ensures rel(a.out.value.0, b.out.value.0) && a.out.value.1 == b.out.value.1
  {
    assert Paired(rel)(a.out.value, b.out.value);
  }

  lemma Retained(p: Perm, st: Register, last: seq<int>)
    ensures var q := CountDown(Retain(p, st, last));
      && RegisterOf(q) == st && q.last == last && q.nextRst == p.nextRst && (p.toGo > 0 ==> q.toGo == p.toGo - 1)
  {
  }

  // ---------------------------------------------------------------- a stretch between restarts

  /** Between MCUs: the register has the codes of MCUs m to e - 1 in front of it, then rest, and the predictors
      are right. */
  ghost predicate Between(data: seq<byte>, mk: Option<(byte, nat)>, p: Perm, plan: ScanPlan, XS: Mcus, preds: seq<int>,
      m: nat, e: nat, rest: Stream)
  {
    && Fits(plan, XS) && |preds| == plan.comps && m <= e <= |XS| && AllCodable(plan, XS, preds, m, e)
    && ReadsTo(data, mk, RegisterOf(p), Dc.There(AllBits(plan, XS, preds, m, e), rest))
    && Tracks(plan.blocks, p.last, preds)
  }

  /** One MCU further. */
  lemma McuFurther(data: seq<byte>, mk: Option<(byte, nat)>, p: Perm, plan: ScanPlan, XS: Mcus, preds: seq<int>,
      m: nat, e: nat, rest: Stream)
    requires Between(data, mk, p, plan, XS, preds, m, e, rest) && m < e
    requires plan.restartInterval == 0 || p.toGo > 0
    requires DecodeMcu(data, p, plan).done
    ensures var r := DecodeMcu(data, p, plan);
      && IsStored(r.writes, plan, XS[m]) && r.saved.nextRst == p.nextRst
      && |preds| == plan.comps && Fits(plan, XS)
      && Between(data, mk, r.saved, plan, XS, PredsOn(plan, XS, preds, m), m + 1, e, rest)
      && (p.toGo > 0 ==> r.saved.toGo == p.toGo - 1)
  {
    hide ReadsTo, Tracks, McuCodable, McuBits, McuWrites, PredsAfter, DecodeMcu, Dc.There, RegisterOf, PlansOk;
    OneMcu(data, mk, p, plan, preds, XS[m], AllBits(plan, XS, PredsOn(plan, XS, preds, m), m + 1, e), rest);
  }

  /** These stores are those of the MCU. */
  predicate IsStored(ws: seq<Write>, plan: ScanPlan, Xs: seq<Refine.Block>) {
    |Xs| == |plan.blocks| && ws == McuWrites(plan.blocks, Xs, 0)
  }

  /** What n MCUs from number m on store. */
  predicate Stores(ms: seq<seq<Write>>, plan: ScanPlan, XS: Mcus, m: nat, n: nat) {
    |ms| == n && m + n <= |XS| && forall j :: 0 <= j < n ==> IsStored(ms[j], plan, XS[m + j])
  }

  lemma StoresOne(ms: seq<seq<Write>>, w: seq<Write>, plan: ScanPlan, XS: Mcus, m: nat, n: nat)
    requires Stores(ms, plan, XS, m, n) && m + n < |XS| && IsStored(w, plan, XS[m + n])
    ensures Stores(ms + [w], plan, XS, m, n + 1)
  {
    hide IsStored;
    forall j | 0 <= j < n + 1 ensures IsStored((ms + [w])[j], plan, XS[m + j]) {
      if j < n { assert IsStored(ms[j], plan, XS[m + j]); }
    }
  }

  lemma UnbrokenBack(data: seq<byte>, p: Perm, n: nat, plan: ScanPlan, q: Perm, ms: seq<seq<Write>>)
    returns (q1: Perm, ms1: seq<seq<Write>>)
    requires n > 0 && Unbroken(data, p, n, plan) == Some((q, ms))
    ensures Unbroken(data, p, n - 1, plan) == Some((q1, ms1))
    ensures var r := DecodeMcu(data, q1, plan); r.done && q == r.saved && ms == ms1 + [r.writes]
  {
    hide DecodeMcu;
    q1, ms1 := Unbroken(data, p, n - 1, plan).value.0, Unbroken(data, p, n - 1, plan).value.1;
  }

  lemma BetweenParts(data: seq<byte>, mk: Option<(byte, nat)>, p: Perm, plan: ScanPlan, XS: Mcus, preds: seq<int>,
      m: nat, e: nat, rest: Stream)
    requires Between(data, mk, p, plan, XS, preds, m, e, rest)
    ensures Fits(plan, XS) && |preds| == plan.comps && m <= e <= |XS|
  {
    hide Fits, AllCodable, ReadsTo, Tracks;
  }

  lemma StretchStart(data: seq<byte>, p: Perm, plan: ScanPlan, XS: Mcus, preds: seq<int>, m: nat)
    requires Fits(plan, XS) && |preds| == plan.comps && m <= |XS|
    ensures Unbroken(data, p, 0, plan) == Some((p, [])) && Stores([], plan, XS, m, 0)
    ensures PredsUpTo(plan, XS, preds, m, 0) == preds
  {
    hide Fits;
  }

  lemma PredsNext(plan: ScanPlan, XS: Mcus, preds: seq<int>, m: nat, n: nat)
    requires Fits(plan, XS) && |preds| == plan.comps && m + n <= |XS| && n > 0
    ensures PredsUpTo(plan, XS, preds, m, n) == PredsOn(plan, XS, PredsUpTo(plan, XS, preds, m, n - 1), m + n - 1)
  {
    hide Fits, PredsOn;
  }

  lemma {:induction false} StretchFurther(data: seq<byte>, mk: Option<(byte, nat)>, p: Perm, plan: ScanPlan, XS: Mcus,
      preds: seq<int>, m: nat, e: nat, rest: Stream, n: nat, q: Perm, ms: seq<seq<Write>>)
    requires Between(data, mk, p, plan, XS, preds, m, e, rest) && m + n <= e
    requires plan.restartInterval == 0 || n <= p.toGo
    requires Unbroken(data, p, n, plan) == Some((q, ms))
    ensures Fits(plan, XS) && |preds| == plan.comps && m + n <= |XS|
    ensures Stores(ms, plan, XS, m, n) && q.nextRst == p.nextRst
    ensures Between(data, mk, q, plan, XS, PredsUpTo(plan, XS, preds, m, n), m + n, e, rest)
    ensures plan.restartInterval != 0 ==> q.toGo == p.toGo - n
    decreases n
  {
    hide *;
    BetweenParts(data, mk, p, plan, XS, preds, m, e, rest);
    if n > 0 {
      var q1, ms1 := UnbrokenBack(data, p, n, plan, q, ms);
      StretchFurther(data, mk, p, plan, XS, preds, m, e, rest, n - 1, q1, ms1);
      McuFurther(data, mk, q1, plan, XS, PredsUpTo(plan, XS, preds, m, n - 1), m + n - 1, e, rest);
      PredsNext(plan, XS, preds, m, n);
      StoresOne(ms1, DecodeMcu(data, q1, plan).writes, plan, XS, m, n - 1);
    } else {
      StretchStart(data, p, plan, XS, preds, m);
    }
  }

  /** The decoder stands at the beginning of a stretch. */
  ghost predicate AtStretch(p: Perm, pos: nat, plan: ScanPlan) {
    && Fresh(p, pos) && p.last == ZeroPredictors(plan.comps)
    && (plan.restartInterval != 0 ==> p.toGo == plan.restartInterval)
  }

  lemma StretchBegins(data: seq<byte>, p: Perm, pos: nat, plan: ScanPlan, XS: Mcus, m: nat, n: nat, bits: seq<bool>)
    requires AtStretch(p, pos, plan) && Fits(plan, XS) && CodingOf(plan, XS)(m, n, bits)
    requires bits <= Destuff(data, pos).bits
    ensures Between(data, MarkerAfter(data, pos), p, plan, XS, ZeroPredictors(plan.comps), m, m + n,
                    Following(Destuff(data, pos), bits))
  {
    hide *;
    CodingParts(plan, XS, m, n, bits);
    FreshReads(data, p, pos, bits, plan);
    FreshTracks(p, pos, plan, XS);
    BetweenIs(data, MarkerAfter(data, pos), p, plan, XS, ZeroPredictors(plan.comps), m, m + n,
        Following(Destuff(data, pos), bits));
  }

  lemma CodingParts(plan: ScanPlan, XS: Mcus, m: nat, n: nat, bits: seq<bool>)
    requires Fits(plan, XS) && CodingOf(plan, XS)(m, n, bits)
    ensures var zero := ZeroPredictors(plan.comps);
      && |zero| == plan.comps && m + n <= |XS| && AllCodable(plan, XS, zero, m, m + n)
      && bits == AllBits(plan, XS, zero, m, m + n)
  {
    hide AllCodable, AllBits, Fits;
  }

  lemma FreshReads(data: seq<byte>, p: Perm, pos: nat, bits: seq<bool>, plan: ScanPlan)
    requires AtStretch(p, pos, plan) && bits <= Destuff(data, pos).bits
    ensures ReadsTo(data, MarkerAfter(data, pos), RegisterOf(p), Dc.There(bits, Following(Destuff(data, pos), bits)))
  {
    FreshRest(data, p, pos);
    hide Destuff, MarkerAfter, MarkerOf;
  }

  lemma FreshTracks(p: Perm, pos: nat, plan: ScanPlan, XS: Mcus)
    requires AtStretch(p, pos, plan) && Fits(plan, XS)
    ensures Tracks(plan.blocks, p.last, ZeroPredictors(plan.comps))
  {
    hide PlansOk;
  }

  lemma BetweenIs(data: seq<byte>, mk: Option<(byte, nat)>, p: Perm, plan: ScanPlan, XS: Mcus, preds: seq<int>, m: nat,
      e: nat, rest: Stream)
    requires Fits(plan, XS) && |preds| == plan.comps && m <= e <= |XS| && AllCodable(plan, XS, preds, m, e)
    requires ReadsTo(data, mk, RegisterOf(p), Dc.There(AllBits(plan, XS, preds, m, e), rest))
    requires Tracks(plan.blocks, p.last, preds)
    ensures Between(data, mk, p, plan, XS, preds, m, e, rest)
  {
    hide Fits, AllCodable, AllBits, ReadsTo, Tracks;
  }

  lemma StretchEnds(data: seq<byte>, pos: nat, p: Perm, plan: ScanPlan, XS: Mcus, preds: seq<int>, e: nat,
      bits: seq<bool>)
    requires bits <= Destuff(data, pos).bits
    requires Between(data, MarkerAfter(data, pos), p, plan, XS, preds, e, e, Following(Destuff(data, pos), bits))
    ensures ReadOff(data, pos, bits, RegisterOf(p))
  {
    Dc.BeforeBefore([], [], Following(Destuff(data, pos), bits));
    hide Destuff, MarkerAfter, Denotes, MarkerOf, Rest, Tracks;
  }

  // ---------------------------------------------------------------- from stretch to stretch

  /** The decoder stands at the beginning of a segment, and the scan is laid out from there. */
  ghost predicate Underway(data: seq<byte>, p: Perm, pos: nat, plan: ScanPlan, XS: Mcus, m: nat) {
    && AtStretch(p, pos, plan) && Fits(plan, XS) && m <= |XS|
    && Laid(data, pos, p.nextRst, plan.restartInterval, |XS|, m, CodingOf(plan, XS))
  }

  lemma HereAre(data: seq<byte>, p: Perm, pos: nat, plan: ScanPlan, XS: Mcus, m: nat) returns (bits: seq<bool>)
    requires Underway(data, p, pos, plan, XS, m)
    ensures m <= |XS| && Fits(plan, XS) && AtStretch(p, pos, plan)
    ensures Segment(data, pos, p.nextRst, plan.restartInterval, |XS|, m, CodingOf(plan, XS), bits)
    ensures plan.restartInterval == 0 || Stretch(plan.restartInterval, |XS|, m) <= p.toGo == plan.restartInterval
  {
    hide Laid, CodingOf, Fits;
    bits := FirstSegment(data, pos, p.nextRst, plan.restartInterval, |XS|, m, CodingOf(plan, XS));
  }

  /** One stretch, from the beginning of a segment to its end. */
  lemma OneStretch(data: seq<byte>, p: Perm, pos: nat, plan: ScanPlan, XS: Mcus, m: nat, n: nat, bits: seq<bool>,
      q: Perm, ms: seq<seq<Write>>)
    requires m <= |XS| && Fits(plan, XS) && AtStretch(p, pos, plan) && n == Stretch(plan.restartInterval, |XS|, m)
    requires Segment(data, pos, p.nextRst, plan.restartInterval, |XS|, m, CodingOf(plan, XS), bits)
    requires plan.restartInterval == 0 || n <= p.toGo == plan.restartInterval
    requires Unbroken(data, p, n, plan) == Some((q, ms))
    ensures Stores(ms, plan, XS, m, n) && q.nextRst == p.nextRst
    ensures bits <= Destuff(data, pos).bits && ReadOff(data, pos, bits, RegisterOf(q))
    ensures plan.restartInterval != 0 ==> q.toGo == plan.restartInterval - n
  {
    hide *;
    SegmentParts(data, pos, p.nextRst, plan.restartInterval, |XS|, m, CodingOf(plan, XS), bits);
    var mk, rest := MarkerAfter(data, pos), Following(Destuff(data, pos), bits);
    var zero := ZeroPredictors(plan.comps);
    StretchBegins(data, p, pos, plan, XS, m, n, bits);
    BetweenParts(data, mk, p, plan, XS, zero, m, m + n, rest);
    StretchFurther(data, mk, p, plan, XS, zero, m, m + n, rest, n, q, ms);
    StretchEnds(data, pos, q, plan, XS, PredsUpTo(plan, XS, zero, m, n), m + n, bits);
  }

  /** At the end of a segment the next call goes on behind the restart marker. */
  lemma AcrossRestart(data: seq<byte>, y: Perm, next: nat, plan: ScanPlan) returns (q: Perm)
    requires plan.restartInterval != 0 && y.toGo == 0
    requires MarkerOf(data, RegisterOf(y)) == Some((Markers.M_RST0 + y.nextRst, next))
    ensures AtStretch(q, next, plan) && q.nextRst == (y.nextRst + 1) % 8
    ensures DecodeMcu(data, y, plan) == DecodeMcu(data, q, plan)
  {
    hide MarkerOf, DecodeBody, ProcessRestart;
    RestartAtMarker(data, y, plan, next);
    q := ProcessRestart(data, y, plan).0;
  }

  /** And on to the beginning of the next. */
  lemma NextStretch(data: seq<byte>, p: Perm, pos: nat, plan: ScanPlan, XS: Mcus, m: nat, n: nat, bits: seq<bool>,
      y: Perm)
    returns (q: Perm, next: nat)
    requires m <= |XS| && Fits(plan, XS) && n == Stretch(plan.restartInterval, |XS|, m) && m + n < |XS|
    requires Segment(data, pos, p.nextRst, plan.restartInterval, |XS|, m, CodingOf(plan, XS), bits)
    requires bits <= Destuff(data, pos).bits && ReadOff(data, pos, bits, RegisterOf(y))
    requires y.nextRst == p.nextRst && y.toGo == 0 && plan.restartInterval != 0
    ensures Underway(data, q, next, plan, XS, m + n) && DecodeMcu(data, y, plan) == DecodeMcu(data, q, plan)
    ensures MarkerAfter(data, pos).Some? && next == MarkerAfter(data, pos).value.1
  {
    hide *;
    SegmentParts(data, pos, p.nextRst, plan.restartInterval, |XS|, m, CodingOf(plan, XS), bits);
    next := MarkerAfter(data, pos).value.1;
    ReadToMarker(data, pos, bits, RegisterOf(y));
    q := AcrossRestart(data, y, next, plan);
    Resumed(data, q, next, plan, XS, m + n);
  }

  lemma Resumed(data: seq<byte>, p: Perm, pos: nat, plan: ScanPlan, XS: Mcus, m: nat)
    requires AtStretch(p, pos, plan) && Fits(plan, XS) && m <= |XS|
    requires Laid(data, pos, p.nextRst, plan.restartInterval, |XS|, m, CodingOf(plan, XS))
    ensures Underway(data, p, pos, plan, XS, m)
  {
    hide Laid, AtStretch, Fits, CodingOf;
  }

  lemma StoresBoth(a: seq<seq<Write>>, b: seq<seq<Write>>, plan: ScanPlan, XS: Mcus, m: nat, n: nat, k: nat)
    requires Stores(a, plan, XS, m, n) && Stores(b, plan, XS, m + n, k)
    ensures Stores(a + b, plan, XS, m, n + k)
  {
    hide IsStored;
    forall j | 0 <= j < n + k ensures IsStored((a + b)[j], plan, XS[m + j]) {
      if j < n {
        assert IsStored(a[j], plan, XS[m + j]);
      } else {
        assert IsStored(b[j - n], plan, XS[m + n + (j - n)]);
      }
    }
  }

  /** From the beginning of a segment to the end of the scan. */
  lemma {:induction false} StretchesExact(data: seq<byte>, p: Perm, pos: nat, plan: ScanPlan, XS: Mcus, m: nat, k: nat,
      y: Perm, ms: seq<seq<Write>>)
    requires Underway(data, p, pos, plan, XS, m) && m + k == |XS| && Unbroken(data, p, k, plan) == Some((y, ms))
    ensures Stores(ms, plan, XS, m, k)
    decreases k
  {
    hide *;
    var bits := HereAre(data, p, pos, plan, XS, m);
    var n := Stretch(plan.restartInterval, |XS|, m);
    UnbrokenAdd(data, p, n, k - n, plan);
    var (z, ms1) := Unbroken(data, p, n, plan).value;
    OneStretch(data, p, pos, plan, XS, m, n, bits, z, ms1);
    var ms2 := Unbroken(data, z, k - n, plan).value.1;
    if n < k {
      var q, next := NextStretch(data, p, pos, plan, XS, m, n, bits, z);
      UnbrokenSame(data, z, q, k - n, plan);
      StretchesExact(data, q, next, plan, XS, m + n, k - n, y, ms2);
      StoresBoth(ms1, ms2, plan, XS, m, n, k - n);
    } else {
      NothingMore(data, z, plan, ms1);
    }
  }

  lemma NothingMore(data: seq<byte>, z: Perm, plan: ScanPlan, ms: seq<seq<Write>>)
    ensures Unbroken(data, z, 0, plan) == Some((z, [])) && ms + [] == ms
  {
  }

  // ---------------------------------------------------------------- sessions

  /** Coefficient arrays of an image's MCUs, cleared. */
  function Cleared(n: nat, blocks: nat): (coefs: seq<seq<int>>)
    ensures |coefs| == n && forall m :: 0 <= m < n ==> coefs[m] == Zeroed(64 * blocks)
  {
    seq(n, _ => Zeroed(64 * blocks))
  }

  /** Main result for sequential scans, with or without restarts.  When the segments of the data carry the codes
      of XS, predictors included, and the scan has been run to its end, the coefficient arrays hold exactly the
      wanted coefficients of XS, however the data was cut into deliveries and calls suspended. */
  lemma ScanExact(p: Perm, pos: nat, es: seq<Event>, plan: ScanPlan, XS: Mcus)
    requires Fits(plan, XS) && AtStretch(p, pos, plan)
    requires var s := Run(Session([], p, []), es, plan);
      |s.mcus| == |XS| && Laid(s.data, pos, p.nextRst, plan.restartInterval, |XS|, 0, CodingOf(plan, XS))
    ensures var out := StoreRun(Cleared(|XS|, |plan.blocks|), p, es, plan);
      |out| == |XS| && forall m :: 0 <= m < |XS| ==> Holds(out[m], plan.blocks, XS[m])
  {
    hide *;
    var s, n := Run(Session([], p, []), es, plan), |XS|;
    var coefs := Cleared(n, |plan.blocks|);
    SuspensionsLeaveNoTrace(p, es, coefs, plan);
    Resumed(s.data, p, pos, plan, XS, 0);
    var (q, ms) := Unbroken(s.data, p, n, plan).value;
    StretchesExact(s.data, p, pos, plan, XS, 0, n, q, ms);
    forall m | 0 <= m < n ensures Holds(StoreRun(coefs, p, es, plan)[m], plan.blocks, XS[m]) {
      StoresAt(ms, plan, XS, 0, n, m);
      McuHolds(plan.blocks, XS[m]);
    }
  }

  lemma StoresAt(ms: seq<seq<Write>>, plan: ScanPlan, XS: Mcus, m: nat, n: nat, j: nat)
    requires Stores(ms, plan, XS, m, n) && j < n
    ensures m + n <= |XS| && |ms| == n && |XS[m + j]| == |plan.blocks|
    ensures ms[j] == McuWrites(plan.blocks, XS[m + j], 0)
  {
    assert IsStored(ms[j], plan, XS[m + j]);
    hide McuWrites;
  }

  // ---------------------------------------------------------------- finishing

  /** The tables are validated for DC use. */
  ghost predicate TablesOk(plan: ScanPlan) {
    forall i :: 0 <= i < |plan.blocks| ==> ForDc(plan.blocks[i].dc)
  }

  /** With its end there, no MCU of a segment suspends. */
  lemma {:induction false} StretchFinishes(data: seq<byte>, mk: Option<(byte, nat)>, p: Perm, plan: ScanPlan, XS: Mcus,
      preds: seq<int>, m: nat, e: nat, rest: Stream, n: nat)
    requires Between(data, mk, p, plan, XS, preds, m, e, rest) && m + n <= e && rest.ended
    requires plan.restartInterval == 0 || n <= p.toGo
    requires TablesOk(plan)
    ensures Unbroken(data, p, n, plan).Some?
    decreases n
  {
    hide Between, DecodeMcu, McuWrites, Fits, PredsOn, Rest, ForDc;
    if n > 0 {
      StretchFinishes(data, mk, p, plan, XS, preds, m, e, rest, n - 1);
      var (q1, ms1) := Unbroken(data, p, n - 1, plan).value;
      StretchFurther(data, mk, p, plan, XS, preds, m, e, rest, n - 1, q1, ms1);
      EndInSight(data, mk, q1, plan, XS, PredsUpTo(plan, XS, preds, m, n - 1), m + n - 1, e, rest);
      SegmentEndNeverSuspends(data, q1, plan);
    }
  }

  lemma EndInSight(data: seq<byte>, mk: Option<(byte, nat)>, p: Perm, plan: ScanPlan, XS: Mcus, preds: seq<int>,
      m: nat, e: nat, rest: Stream)
    requires Between(data, mk, p, plan, XS, preds, m, e, rest) && rest.ended
    ensures Rest(data, RegisterOf(p)).ended
  {
    hide Fits, AllCodable, AllBits, Tracks, MarkerOf, Rest;
  }

  lemma OneFinishes(data: seq<byte>, p: Perm, pos: nat, plan: ScanPlan, XS: Mcus, m: nat, n: nat, bits: seq<bool>)
    requires m <= |XS| && Fits(plan, XS) && AtStretch(p, pos, plan) && n == Stretch(plan.restartInterval, |XS|, m)
    requires Segment(data, pos, p.nextRst, plan.restartInterval, |XS|, m, CodingOf(plan, XS), bits)
    requires plan.restartInterval == 0 || n <= p.toGo == plan.restartInterval
    requires MarkerAfter(data, pos).Some? && TablesOk(plan)
    ensures Unbroken(data, p, n, plan).Some?
  {
    hide *;
    EndedByMarker(data, pos);
    SegmentParts(data, pos, p.nextRst, plan.restartInterval, |XS|, m, CodingOf(plan, XS), bits);
    StretchBegins(data, p, pos, plan, XS, m, n, bits);
    StretchFinishes(data, MarkerAfter(data, pos), p, plan, XS, ZeroPredictors(plan.comps), m, m + n,
        Following(Destuff(data, pos), bits), n);
  }

  lemma {:induction false} StretchesFinish(data: seq<byte>, p: Perm, pos: nat, plan: ScanPlan, XS: Mcus, m: nat, k: nat)
    requires Underway(data, p, pos, plan, XS, m) && m + k == |XS| && TablesOk(plan)
    requires Closed(data, pos, plan.restartInterval, |XS|, m)
    ensures Unbroken(data, p, k, plan).Some?
    decreases k
  {
    hide *;
    var bits := HereAre(data, p, pos, plan, XS, m);
    var n := Stretch(plan.restartInterval, |XS|, m);
    ClosedParts(data, pos, plan.restartInterval, |XS|, m);
    OneFinishes(data, p, pos, plan, XS, m, n, bits);
    UnbrokenAdd(data, p, n, k - n, plan);
    var (z, ms) := Unbroken(data, p, n, plan).value;
    OneStretch(data, p, pos, plan, XS, m, n, bits, z, ms);
    if n < k {
      var q, next := NextStretch(data, p, pos, plan, XS, m, n, bits, z);
      UnbrokenSame(data, z, q, k - n, plan);
      StretchesFinish(data, q, next, plan, XS, m + n, k - n);
    } else {
      NothingMore(data, z, plan, ms);
    }
  }

  /** And when all of it is there, marker at the end included, no call suspends. */
  lemma ScanFinishes(data: seq<byte>, p: Perm, pos: nat, plan: ScanPlan, XS: Mcus)
    requires Fits(plan, XS) && AtStretch(p, pos, plan) && TablesOk(plan)
    requires Laid(data, pos, p.nextRst, plan.restartInterval, |XS|, 0, CodingOf(plan, XS))
    requires Closed(data, pos, plan.restartInterval, |XS|, 0)
    ensures Unbroken(data, p, |XS|, plan).Some?
  {
    hide *;
    Resumed(data, p, pos, plan, XS, 0);
    StretchesFinish(data, p, pos, plan, XS, 0, |XS|);
  }

  /** The round trip: what an encoder writes for XS decodes to XS, in whatever pieces it is delivered, and no call
      suspends once all of it has been. */
  lemma DecodesWhatWasEncoded(p: Perm, es: seq<Event>, plan: ScanPlan, XS: Mcus, segs: seq<seq<bool>>)
    requires Fits(plan, XS) && AtStretch(p, 0, plan) && TablesOk(plan)
    requires Coded(segs, plan.restartInterval, |XS|, 0, CodingOf(plan, XS))
    ensures var data, s := LayOut(segs, p.nextRst), Run(Session([], p, []), es, plan);
      && Unbroken(data, p, |XS|, plan).Some?
      && (s.data == data && |s.mcus| == |XS| ==>
            var out := StoreRun(Cleared(|XS|, |plan.blocks|), p, es, plan);
            |out| == |XS| && forall m :: 0 <= m < |XS| ==> Holds(out[m], plan.blocks, XS[m]))
  {
    hide *;
    var data, s := LayOut(segs, p.nextRst), Run(Session([], p, []), es, plan);
    LaidOut([], segs, p.nextRst, plan.restartInterval, |XS|, 0, CodingOf(plan, XS));
    assert [] + data == data;
    ScanFinishes(data, p, 0, plan, XS);
    if s.data == data && |s.mcus| == |XS| {
      ScanExact(p, 0, es, plan, XS);
    }
  }
}
