/** DC scans of a progressive image: first scans and refinements of any components, interleaved or
    not, in any order that gives every block a first scan and then one bit position after another. */
module DcProgression {
  import opened Wrappers
  import opened Bits
  import opened BitStream
  import opened HuffDecode
  import opened BitSources
  import opened Coefficients
  import opened Zigzag
  import opened Refine
  import opened Progressive
  import opened SuccessiveApproximation
  import opened FirstScans
  import opened InsufficientData
  import opened ProgressiveMcu
  import Session = ProgressiveSession
  import Seq = SequentialMcu

  // ---------------------------------------------------------------- what an MCU of a first scan sends

  /** A DC value at bit position al: the shift rounds down. */
  function Shifted(x: Coefficient, al: nat): int {
    x / Pow2(al)
  }

  /** The difference from the last value has a category, and the table a code for that. */
  ghost predicate CanSend(tb: Table, x: Coefficient, last: int, al: nat) {
    -0x8000 < Shifted(x, al) - last < 0x8000 && AllSendable(tb, DiffTokens(Shifted(x, al) - last))
  }

  ghost function DiffBits(tb: Table, x: Coefficient, last: int, al: nat): seq<bool>
    requires CanSend(tb, x, last, al)
  {
    Emit(tb, DiffTokens(Shifted(x, al) - last))
  }

  function LastAfter(h: Cover, last: seq<int>, xs: seq<Coefficient>, al: nat): (r: seq<int>)
    requires h.at < |xs| && h.ci < |last|
    ensures |r| == |last|
  {
    last[h.ci := Shifted(xs[h.at], al)]
  }

  /** The predictors after an MCU. */
  function LastOf(mcu: seq<Cover>, last: seq<int>, xs: seq<Coefficient>, al: nat): (r: seq<int>)
    requires Inside(mcu, |xs|, |last|)
    ensures |r| == |last|
    decreases |mcu|
  {
    if mcu == [] then last else LastOf(mcu[1..], LastAfter(mcu[0], last, xs, al), xs, al)
  }

  /** Every difference can be sent. */
  ghost predicate Codeable(mcu: seq<Cover>, last: seq<int>, xs: seq<Coefficient>, al: nat)
    requires Inside(mcu, |xs|, |last|)
    decreases |mcu|
  {
    mcu == [] ||
    var h := mcu[0];
    CanSend(h.tb, xs[h.at], last[h.ci], al) && Codeable(mcu[1..], LastAfter(h, last, xs, al), xs, al)
  }

  ghost function FirstBits(mcu: seq<Cover>, last: seq<int>, xs: seq<Coefficient>, al: nat): seq<bool>
    requires Inside(mcu, |xs|, |last|) && Codeable(mcu, last, xs, al)
    decreases |mcu|
  {
    if mcu == [] then []
    else
      var h := mcu[0];
      DiffBits(h.tb, xs[h.at], last[h.ci], al) + FirstBits(mcu[1..], LastAfter(h, last, xs, al), xs, al)
  }

  /** The bits of an MCU of a refinement: bit al of each coefficient in two's complement. */
  function RefineBits(mcu: seq<Cover>, xs: seq<Coefficient>, al: nat): seq<bool>
    requires forall k :: 0 <= k < |mcu| ==> mcu[k].at < |xs|
    decreases |mcu|
  {
    if mcu == [] then [] else [HasBit(xs[mcu[0].at], al)] + RefineBits(mcu[1..], xs, al)
  }

  // ---------------------------------------------------------------- what should come out

  /** The image after one block. */
  function Next(h: Cover, img: seq<Block>, xs: seq<Coefficient>, al: nat): (r: seq<Block>)
    requires h.at < |img| == |xs| && al <= 15
    ensures |r| == |img|
  {
    DcLevelRange(xs[h.at], al);
    img[h.at := SetDc(img[h.at], DcLevel(xs[h.at], al))]
  }

  /** The image with the blocks of an MCU at level al. */
  function AtLevel(mcu: seq<Cover>, img: seq<Block>, xs: seq<Coefficient>, al: nat): (r: seq<Block>)
    requires |xs| == |img| && al <= 15 && forall k :: 0 <= k < |mcu| ==> mcu[k].at < |img|
    ensures |r| == |img|
    decreases |mcu|
  {
    if mcu == [] then img else AtLevel(mcu[1..], Next(mcu[0], img, xs, al), xs, al)
  }

  lemma {:induction false} AtLevelAt(mcu: seq<Cover>, img: seq<Block>, xs: seq<Coefficient>, al: nat, i: nat)
    requires |xs| == |img| && al <= 15 && (forall k :: 0 <= k < |mcu| ==> mcu[k].at < |img|) && i < |img|
    ensures -0x8000 <= DcLevel(xs[i], al) < 0x8000
    ensures AtLevel(mcu, img, xs, al)[i] == if In(mcu, i) then SetDc(img[i], DcLevel(xs[i], al)) else img[i]
    decreases |mcu|
  {
    DcLevelRange(xs[i], al);
    if mcu != [] {
      AtLevelAt(mcu[1..], Next(mcu[0], img, xs, al), xs, al, i);
      InNext(mcu, i);
      hide DcLevel, In;
    }
  }

  lemma InNext(mcu: seq<Cover>, i: nat)
    requires mcu != []
    ensures In(mcu, i) <==> mcu[0].at == i || In(mcu[1..], i)
  {
    if In(mcu, i) && mcu[0].at != i {
      var k :| 0 <= k < |mcu| && mcu[k].at == i;
      assert mcu[1..][k - 1].at == i;
    }
  }

  // ---------------------------------------------------------------- an MCU on the bit stream

  function Before(bits: seq<bool>, rest: Stream): Stream {
    Stream(bits + rest.bits, rest.ended)
  }

  lemma BeforeBefore(a: seq<bool>, b: seq<bool>, rest: Stream)
    ensures Before(a + b, rest) == Before(a, Before(b, rest)) && Before([], rest) == rest
  {
    assert a + b + rest.bits == a + (b + rest.bits);
    assert [] + rest.bits == rest.bits;
  }

  /** These bits, all of them there, and then the rest. */
  function There(bits: seq<bool>, rest: Stream): Reading {
    Reading(Before(bits, rest), false)
  }

  lemma DiffCarried(tb: Table, x: Coefficient, last: int, al: nat, rest: Stream, r: Reading)
    requires al <= 13 && -0x8000 < x / Pow2(al) - last < 0x8000
    requires CarriesAll(tb, rest, DiffTokens(x / Pow2(al) - last), r)
    ensures -0x8000 <= DcLevel(x, al) < 0x8000
    ensures var f := DcFirst(Metered(), r, tb, last, al);
      f.Some? && f.value.0 == DcLevel(x, al) && f.value.1 == x / Pow2(al) && CarriesAll(tb, rest, [], f.value.2)
  {
    hide *;
    var ts := DiffTokens(x / Pow2(al) - last);
    var rel := (ts, r) => CarriesAll(tb, rest, ts, r);
    DcLevelRange(x, al);
    DcFirstExact(tb, x, last, al, []);
    assert ts + [] == ts;
    ScriptMetered(tb, rest);
    DcFirstSimulated(Script(tb), Metered(), rel, ts, r, tb, last, al);
  }

  /** One difference in front of anything decodes to the coefficient and the next predictor. */
  lemma FirstOnStream(tb: Table, x: Coefficient, last: int, al: nat, rest: Stream)
    requires al <= 13 && CanSend(tb, x, last, al)
    ensures -0x8000 <= DcLevel(x, al) < 0x8000
    ensures DcFirst(Metered(), There(DiffBits(tb, x, last, al), rest), tb, last, al)
         == Some((DcLevel(x, al), Shifted(x, al), Reading(rest, false)))
  {
    DiffCarried(tb, x, last, al, rest, There(DiffBits(tb, x, last, al), rest));
    BeforeBefore([], [], rest);
    hide DcFirst, DcLevel, DiffTokens, Metered;
  }

  /** One block of a first scan, once its difference is decoded. */
  lemma FirstStep<S>(src: BitSource<S>, w: Work<S>, t: S, mcu: seq<Cover>, img: seq<Block>, al: nat, c: Coefficient,
      l: int)
    requires mcu != [] && Inside(mcu, |img|, |w.last|) && al <= 13
    requires DcFirst(src, w.s, mcu[0].tb, w.last[mcu[0].ci], al) == Some((c, l, t))
    ensures var h := mcu[0];
      EachBlock(DcFirstScan(al), src, w, mcu, img)
      == EachBlock(DcFirstScan(al), src, Work(t, w.last[h.ci := l], w.eobRun), mcu[1..],
          img[h.at := SetDc(img[h.at], c)])
  {
    hide DcFirst;
  }

  lemma FirstBlockOnStream(mcu: seq<Cover>, last: seq<int>, img: seq<Block>, xs: seq<Coefficient>, al: nat,
      rest: Stream)
    requires Inside(mcu, |img|, |last|) && |xs| == |img| && al <= 13 && mcu != [] && Codeable(mcu, last, xs, al)
    ensures var later := LastAfter(mcu[0], last, xs, al);
      EachBlock(DcFirstScan(al), Metered(), Work(There(FirstBits(mcu, last, xs, al), rest), last, 0), mcu, img)
      == EachBlock(DcFirstScan(al), Metered(), Work(There(FirstBits(mcu[1..], later, xs, al), rest), later, 0),
          mcu[1..],
                   Next(mcu[0], img, xs, al))
  {
    hide *;
    Unfolded(mcu, last, img, xs, al);
    var h, x := mcu[0], xs[mcu[0].at];
    var more := FirstBits(mcu[1..], LastAfter(h, last, xs, al), xs, al);
    var head := DiffBits(h.tb, x, last[h.ci], al);
    BeforeBefore(head, more, rest);
    FirstOnStream(h.tb, x, last[h.ci], al, Before(more, rest));
    ThereIs(head + more, rest);
    ThereIs(more, rest);
    ThereIs(head, Before(more, rest));
    FirstStep(Metered(), Work(There(head + more, rest), last, 0), There(more, rest), mcu, img, al, DcLevel(x, al),
        Shifted(x, al));
  }

  lemma ThereIs(bits: seq<bool>, rest: Stream)
    ensures There(bits, rest) == Reading(Before(bits, rest), false)
  {
  }

  lemma Unfolded(mcu: seq<Cover>, last: seq<int>, img: seq<Block>, xs: seq<Coefficient>, al: nat)
    requires Inside(mcu, |img|, |last|) && |xs| == |img| && al <= 13 && mcu != [] && Codeable(mcu, last, xs, al)
    ensures var h := mcu[0];
      && h.at < |img| && h.ci < |last| && Inside(mcu[1..], |img|, |last|) && CanSend(h.tb, xs[h.at], last[h.ci], al)
      && var later := LastAfter(h, last, xs, al);
      && Codeable(mcu[1..], later, xs, al) && later == last[h.ci := Shifted(xs[h.at], al)]
      && FirstBits(mcu, last, xs, al) == DiffBits(h.tb, xs[h.at], last[h.ci], al) + FirstBits(mcu[1..], later, xs, al)
      && -0x8000 <= DcLevel(xs[h.at], al) < 0x8000
      && Next(h, img, xs, al) == img[h.at := SetDc(img[h.at], DcLevel(xs[h.at], al))]
      && LastOf(mcu, last, xs, al) == LastOf(mcu[1..], later, xs, al)
      && AtLevel(mcu, img, xs, al) == AtLevel(mcu[1..], Next(h, img, xs, al), xs, al)
  {
    DcLevelRange(xs[mcu[0].at], al);
    hide CanSend, DiffBits, DcLevel, Shifted;
  }

  /** One MCU of a first scan. */
  lemma {:induction false} FirstMcuOnStream(mcu: seq<Cover>, last: seq<int>, img: seq<Block>, xs: seq<Coefficient>,
      al: nat, rest: Stream)
    requires Inside(mcu, |img|, |last|) && |xs| == |img| && al <= 13 && Codeable(mcu, last, xs, al)
    ensures EachBlock(DcFirstScan(al), Metered(), Work(There(FirstBits(mcu, last, xs, al), rest), last, 0), mcu, img)
         == Attempted(AtLevel(mcu, img, xs, al), Some(Work(Reading(rest, false), LastOf(mcu, last, xs, al), 0)))
    decreases |mcu|
  {
    if mcu == [] {
      BeforeBefore([], [], rest);
    } else {
      hide *;
      Unfolded(mcu, last, img, xs, al);
      FirstBlockOnStream(mcu, last, img, xs, al, rest);
      FirstMcuOnStream(mcu[1..], LastAfter(mcu[0], last, xs, al), Next(mcu[0], img, xs, al), xs, al, rest);
    }
  }

  /** A source whose state front(s) delivers the bits of s one by one. */
  ghost predicate Serves<S(!new)>(src: BitSource<S>, front: Stream -> S) {
    forall bit: bool, rest: Stream ::
      src.receive(front(Before([bit], rest)), 1) == Some((if bit then 1 else 0, front(rest)))
  }

  /** One raw bit in front of anything refines a coefficient. */
  lemma RefineOnStream<S(!new)>(src: BitSource<S>, front: Stream -> S, x: Coefficient, al: nat, rest: Stream)
    requires al <= 13 && Serves(src, front)
    ensures -0x8000 <= DcLevel(x, al + 1) < 0x8000 && -0x8000 <= DcLevel(x, al) < 0x8000
    ensures DcRefine(src, front(Before([HasBit(x, al)], rest)), DcLevel(x, al + 1), al)
         == Some((DcLevel(x, al), front(rest)))
  {
    DcLevelRange(x, al);
    DcLevelRange(x, al + 1);
    var bit := HasBit(x, al);
    assert src.receive(front(Before([bit], rest)), 1) == Some((if bit then 1 else 0, front(rest)));
    DcStep(x, al);
    hide DcLevel, HasBit, Serves;
  }

  lemma StreamServes()
    ensures Serves(Abstract(), (s: Stream) => s)
  {
    forall bit: bool, rest: Stream { OneBit(Before([bit], rest), bit, rest); }
  }

  lemma ReadingServes()
    ensures Serves(Metered(), (s: Stream) => Reading(s, false))
  {
    forall bit: bool, rest: Stream
      ensures Metered().receive(Reading(Before([bit], rest), false), 1)
           == Some((if bit then 1 else 0, Reading(rest, false)))
    {
      OneBit(Before([bit], rest), bit, rest);
    }
  }

  lemma OneBit(s: Stream, bit: bool, rest: Stream)
    requires s == Before([bit], rest)
    ensures Abstract().receive(s, 1) == Some((if bit then 1 else 0, rest))
  {
    assert s.bits[..1] == [bit] && s.bits[1..] == rest.bits;
    assert [bit][..0] == [];
    assert Val([bit]) == if bit then 1 else 0;
  }

  /** Every block of the MCU is one level up, and none comes twice. */
  ghost predicate OneUp(mcu: seq<Cover>, img: seq<Block>, xs: seq<Coefficient>, al: nat) {
    && |xs| == |img| && (forall k :: 0 <= k < |mcu| ==> mcu[k].at < |img|)
    && (forall k :: 0 <= k < |mcu| ==> img[mcu[k].at][0] == DcLevel(xs[mcu[k].at], al + 1))
    && (forall k, l :: 0 <= k < l < |mcu| ==> mcu[k].at != mcu[l].at)
  }

  /** One block of a refinement. */
  lemma RefineStep<S>(src: BitSource<S>, w: Work<S>, t: S, mcu: seq<Cover>, img: seq<Block>, al: nat, c: Coefficient)
    requires mcu != [] && Inside(mcu, |img|, |w.last|) && al <= 13
        && DcRefine(src, w.s, img[mcu[0].at][0], al) == Some((c, t))
    ensures var h := mcu[0];
      EachBlock(DcRefineScan(al), src, w, mcu, img)
      == EachBlock(DcRefineScan(al), src, Work(t, w.last, w.eobRun), mcu[1..], img[h.at := SetDc(img[h.at], c)])
  {
    hide DcRefine;
  }

  /** One MCU of a refinement. */
  lemma {:induction false} RefineMcuOnStream<S(!new)>(src: BitSource<S>, front: Stream -> S, mcu: seq<Cover>,
      last: seq<int>, img: seq<Block>, xs: seq<Coefficient>, al: nat, rest: Stream)
    requires OneUp(mcu, img, xs, al) && al <= 13 && Inside(mcu, |img|, |last|) && Serves(src, front)
    ensures EachBlock(DcRefineScan(al), src, Work(front(Before(RefineBits(mcu, xs, al), rest)), last, 0), mcu, img)
         == Attempted(AtLevel(mcu, img, xs, al), Some(Work(front(rest), last, 0)))
    decreases |mcu|
  {
    if mcu == [] {
      BeforeBefore([], [], rest);
    } else {
      var h := mcu[0];
      var more, next := RefineBits(mcu[1..], xs, al), Next(h, img, xs, al);
      RefineOnStream(src, front, xs[h.at], al, Before(more, rest));
      BeforeBefore([HasBit(xs[h.at], al)], more, rest);
      assert OneUp(mcu[1..], next, xs, al) by { hide DcLevel; }
      RefineMcuOnStream(src, front, mcu[1..], last, next, xs, al, rest);
      hide DcRefine, DcLevel, HasBit, Before, EachBlock, OneUp, Serves;
      RefineStep(src, Work(front(Before([HasBit(xs[h.at], al)], Before(more, rest))), last, 0),
          front(Before(more, rest)), mcu, img, al, DcLevel(xs[h.at], al));
    }
  }

  // ---------------------------------------------------------------- whole scans on the bit stream

  predicate AllIn(mcus: seq<seq<Cover>>, blocks: nat) {
    forall m, k :: 0 <= m < |mcus| && 0 <= k < |mcus[m]| ==> mcus[m][k].at < blocks
  }

  function LastUpTo(mcus: seq<seq<Cover>>, n: nat, last: seq<int>, xs: seq<Coefficient>, al: nat): (r: seq<int>)
    requires AllInside(mcus, |xs|, |last|) && n <= |mcus|
    ensures |r| == |last|
  {
    if n == 0 then last
    else
      assert Inside(mcus[n - 1], |xs|, |last|);
      LastOf(mcus[n - 1], LastUpTo(mcus, n - 1, last, xs, al), xs, al)
  }

  function AtLevelUpTo(mcus: seq<seq<Cover>>, n: nat, img: seq<Block>, xs: seq<Coefficient>, al: nat): (r: seq<Block>)
    requires AllIn(mcus, |img|) && n <= |mcus| && |xs| == |img| && al <= 15
    ensures |r| == |img|
  {
    if n == 0 then img else AtLevel(mcus[n - 1], AtLevelUpTo(mcus, n - 1, img, xs, al), xs, al)
  }

  /** From MCU m on every difference can be sent. */
  ghost predicate AllCodeable(mcus: seq<seq<Cover>>, m: nat, last: seq<int>, xs: seq<Coefficient>, al: nat)
    requires AllInside(mcus, |xs|, |last|) && m <= |mcus|
    decreases |mcus| - m
  {
    m == |mcus| ||
    (Inside(mcus[m], |xs|, |last|) && Codeable(mcus[m], last, xs, al)
        && AllCodeable(mcus, m + 1, LastOf(mcus[m], last, xs, al), xs, al))
  }

  /** The bits of a first scan from MCU m on. */
  ghost function FirstFrom(mcus: seq<seq<Cover>>, m: nat, last: seq<int>, xs: seq<Coefficient>, al: nat): seq<bool>
    requires AllInside(mcus, |xs|, |last|) && m <= |mcus| && AllCodeable(mcus, m, last, xs, al)
    decreases |mcus| - m
  {
    if m == |mcus| then []
    else FirstBits(mcus[m], last, xs, al) + FirstFrom(mcus, m + 1, LastOf(mcus[m], last, xs, al), xs, al)
  }

  /** The bits of a refinement from MCU m on. */
  function RefineFrom(mcus: seq<seq<Cover>>, m: nat, xs: seq<Coefficient>, al: nat): seq<bool>
    requires AllIn(mcus, |xs|) && m <= |mcus|
    decreases |mcus| - m
  {
    if m == |mcus| then [] else RefineBits(mcus[m], xs, al) + RefineFrom(mcus, m + 1, xs, al)
  }

  function Covered(mcus: seq<seq<Cover>>, n: nat, i: nat): bool
    requires n <= |mcus|
  {
    exists m :: 0 <= m < n && In(mcus[m], i)
  }

  lemma {:induction false} AtLevelUpToAt(mcus: seq<seq<Cover>>, n: nat, img: seq<Block>, xs: seq<Coefficient>, al: nat,
      i: nat)
    requires AllIn(mcus, |img|) && n <= |mcus| && |xs| == |img| && al <= 15 && i < |img|
    ensures -0x8000 <= DcLevel(xs[i], al) < 0x8000
    ensures AtLevelUpTo(mcus, n, img, xs, al)[i] == if Covered(mcus, n, i) then SetDc(img[i], DcLevel(xs[i], al))
        else img[i]
  {
    DcLevelRange(xs[i], al);
    if n > 0 {
      AtLevelUpToAt(mcus, n - 1, img, xs, al, i);
      AtLevelAt(mcus[n - 1], AtLevelUpTo(mcus, n - 1, img, xs, al), xs, al, i);
      hide AtLevel, DcLevel, In;
    }
  }

  lemma OneFirstMcu(mcu: seq<Cover>, last: seq<int>, img: seq<Block>, xs: seq<Coefficient>, al: nat, more: seq<bool>,
      rest: Stream)
    requires Inside(mcu, |img|, |last|) && |xs| == |img| && al <= 13 && Codeable(mcu, last, xs, al)
    ensures OneMcu(DcFirstScan(al), Metered(), IsOver, Work(There(FirstBits(mcu, last, xs, al) + more, rest), last, 0),
        mcu, img)
         == Attempted(AtLevel(mcu, img, xs, al), Some(Work(There(more, rest), LastOf(mcu, last, xs, al), 0)))
  {
    FirstMcuOnStream(mcu, last, img, xs, al, Before(more, rest));
    BeforeBefore(FirstBits(mcu, last, xs, al), more, rest);
    hide EachBlock, AtLevel, LastOf, FirstBits, Before, Metered;
  }

  /** A first scan reads exactly the bits that code the differences, never finds itself out of data, and
      leaves every block at level al. */
  lemma {:induction false} FirstScanOnStream(mcus: seq<seq<Cover>>, n: nat, last: seq<int>, img: seq<Block>,
      xs: seq<Coefficient>, al: nat, rest: Stream)
    requires AllInside(mcus, |img|, |last|) && n <= |mcus| && |xs| == |img| && al <= 13
        && AllCodeable(mcus, 0, last, xs, al)
    ensures AllIn(mcus, |img|) && AllCodeable(mcus, n, LastUpTo(mcus, n, last, xs, al), xs, al)
    ensures var later := LastUpTo(mcus, n, last, xs, al);
      Mcus(DcFirstScan(al), Metered(), IsOver, Work(There(FirstFrom(mcus, 0, last, xs, al), rest), last, 0), mcus, 0, n,
          img)
      == Some((Work(There(FirstFrom(mcus, n, later, xs, al), rest), later, 0), AtLevelUpTo(mcus, n, img, xs, al)))
  {
    assert forall m :: 0 <= m < |mcus| ==> Inside(mcus[m], |img|, |last|);
    if n > 0 {
      FirstScanOnStream(mcus, n - 1, last, img, xs, al, rest);
      var l, img1 := LastUpTo(mcus, n - 1, last, xs, al), AtLevelUpTo(mcus, n - 1, img, xs, al);
      hide *;
      FirstScanUnfolds(mcus, n, last, img, xs, al);
      var more := FirstFrom(mcus, n, LastOf(mcus[n - 1], l, xs, al), xs, al);
      OneFirstMcu(mcus[n - 1], l, img1, xs, al, more, rest);
      McusSnoc(DcFirstScan(al), Metered(), IsOver, Work(There(FirstFrom(mcus, 0, last, xs, al), rest), last, 0), mcus,
          0, n, img);
    }
  }

  lemma FirstScanUnfolds(mcus: seq<seq<Cover>>, n: nat, last: seq<int>, img: seq<Block>, xs: seq<Coefficient>, al: nat)
    requires AllInside(mcus, |img|, |last|) && AllIn(mcus, |img|) && 0 < n <= |mcus| && |xs| == |img| && al <= 13
    requires AllCodeable(mcus, n - 1, LastUpTo(mcus, n - 1, last, xs, al), xs, al)
    ensures var l, mcu := LastUpTo(mcus, n - 1, last, xs, al), mcus[n - 1];
      && Inside(mcu, |img|, |last|) && Codeable(mcu, l, xs, al) && AllCodeable(mcus, n, LastOf(mcu, l, xs, al), xs, al)
      && LastUpTo(mcus, n, last, xs, al) == LastOf(mcu, l, xs, al)
      && FirstFrom(mcus, n - 1, l, xs, al)
          == FirstBits(mcu, l, xs, al) + FirstFrom(mcus, n, LastOf(mcu, l, xs, al), xs, al)
      && AtLevelUpTo(mcus, n, img, xs, al) == AtLevel(mcu, AtLevelUpTo(mcus, n - 1, img, xs, al), xs, al)
  {
    hide Codeable, FirstBits, LastOf, AtLevel;
  }

  /** No block comes twice in the scan. */
  predicate Distinct(mcus: seq<seq<Cover>>) {
    forall m, k, n, l :: 0 <= m < |mcus| && 0 <= k < |mcus[m]| && 0 <= n < |mcus| && 0 <= l < |mcus[n]| ==>
      mcus[m][k].at == mcus[n][l].at ==> m == n && k == l
  }

  /** Every block from MCU n on is one level up. */
  ghost predicate OneUpFrom(mcus: seq<seq<Cover>>, n: nat, img: seq<Block>, xs: seq<Coefficient>, al: nat) {
    && |xs| == |img| && AllIn(mcus, |img|)
    && forall m, k :: n <= m < |mcus| && 0 <= k < |mcus[m]| ==>
        img[mcus[m][k].at][0] == DcLevel(xs[mcus[m][k].at], al + 1)
  }

  lemma OneMcuUp(mcus: seq<seq<Cover>>, n: nat, img: seq<Block>, xs: seq<Coefficient>, al: nat)
    requires Distinct(mcus) && OneUpFrom(mcus, n, img, xs, al) && n < |mcus| && al <= 13
    ensures OneUp(mcus[n], img, xs, al)
    ensures OneUpFrom(mcus, n + 1, AtLevel(mcus[n], img, xs, al), xs, al)
  {
    hide DcLevel, AtLevel;
    var img1 := AtLevel(mcus[n], img, xs, al);
    forall m, k | n + 1 <= m < |mcus| && 0 <= k < |mcus[m]| ensures img1[mcus[m][k].at] == img[mcus[m][k].at] {
      var i := mcus[m][k].at;
      AtLevelAt(mcus[n], img, xs, al, i);
      assert forall l :: 0 <= l < |mcus[n]| ==> mcus[n][l].at != mcus[m][k].at;
    }
  }

  lemma OneRefineMcu<S(!new)>(src: BitSource<S>, front: Stream -> S, mcu: seq<Cover>, last: seq<int>, img: seq<Block>,
      xs: seq<Coefficient>, al: nat, more: seq<bool>, rest: Stream, over: S -> bool)
    requires Inside(mcu, |img|, |last|) && OneUp(mcu, img, xs, al) && al <= 13 && Serves(src, front)
    ensures OneMcu(DcRefineScan(al), src, over, Work(front(Before(RefineBits(mcu, xs, al) + more, rest)), last, 0), mcu,
        img)
         == Attempted(AtLevel(mcu, img, xs, al), Some(Work(front(Before(more, rest)), last, 0)))
  {
    RefineMcuOnStream(src, front, mcu, last, img, xs, al, Before(more, rest));
    BeforeBefore(RefineBits(mcu, xs, al), more, rest);
    hide EachBlock, AtLevel, RefineBits, Before, Serves;
  }

  lemma {:induction false} StillUp(mcus: seq<seq<Cover>>, n: nat, img: seq<Block>, xs: seq<Coefficient>, al: nat)
    requires Distinct(mcus) && OneUpFrom(mcus, 0, img, xs, al) && n <= |mcus| && al <= 13
    ensures OneUpFrom(mcus, n, AtLevelUpTo(mcus, n, img, xs, al), xs, al)
  {
    hide DcLevel, AtLevel, Distinct;
    if n > 0 {
      StillUp(mcus, n - 1, img, xs, al);
      OneMcuUp(mcus, n - 1, AtLevelUpTo(mcus, n - 1, img, xs, al), xs, al);
    }
  }

  /** A refinement reads one bit for each block and leaves it at level al. */
  lemma {:induction false} RefineScanOnStream<S(!new)>(src: BitSource<S>, front: Stream -> S, mcus: seq<seq<Cover>>,
      n: nat, last: seq<int>, img: seq<Block>, xs: seq<Coefficient>, al: nat, rest: Stream, over: S -> bool)
    requires AllInside(mcus, |img|, |last|) && n <= |mcus| && al <= 13 && Distinct(mcus)
        && OneUpFrom(mcus, 0, img, xs, al) && Serves(src, front)
    ensures Mcus(DcRefineScan(al), src, over, Work(front(Before(RefineFrom(mcus, 0, xs, al), rest)), last, 0), mcus, 0,
        n, img)
         == Some((Work(front(Before(RefineFrom(mcus, n, xs, al), rest)), last, 0), AtLevelUpTo(mcus, n, img, xs, al)))
  {
    var kind: Kind := DcRefineScan(al);
    hide *;
    UpIsIn(mcus, img, xs, al);
    if n == 0 {
      NothingYet(kind, src, over, Work(front(Before(RefineFrom(mcus, 0, xs, al), rest)), last, 0), mcus, img, xs, al);
    } else {
      RefineScanOnStream(src, front, mcus, n - 1, last, img, xs, al, rest, over);
      var img1 := AtLevelUpTo(mcus, n - 1, img, xs, al);
      StillUp(mcus, n - 1, img, xs, al);
      OneMcuUp(mcus, n - 1, img1, xs, al);
      RefineScanUnfolds(mcus, n, last, img, xs, al);
      OneRefineMcu(src, front, mcus[n - 1], last, img1, xs, al, RefineFrom(mcus, n, xs, al), rest, over);
      McusSnoc(kind, src, over, Work(front(Before(RefineFrom(mcus, 0, xs, al), rest)), last, 0), mcus, 0, n, img);
    }
  }

  lemma UpIsIn(mcus: seq<seq<Cover>>, img: seq<Block>, xs: seq<Coefficient>, al: nat)
    requires OneUpFrom(mcus, 0, img, xs, al)
    ensures |xs| == |img| && AllIn(mcus, |img|)
  {
  }

  lemma NothingYet<S>(kind: Kind, src: BitSource<S>, over: S -> bool, w: Work<S>, mcus: seq<seq<Cover>>,
      img: seq<Block>, xs: seq<Coefficient>, al: nat)
    requires AllInside(mcus, |img|, |w.last|) && AllIn(mcus, |img|) && |xs| == |img| && al <= 15
    ensures Mcus(kind, src, over, w, mcus, 0, 0, img) == Some((w, AtLevelUpTo(mcus, 0, img, xs, al)))
  {
  }

  lemma RefineScanUnfolds(mcus: seq<seq<Cover>>, n: nat, last: seq<int>, img: seq<Block>, xs: seq<Coefficient>, al: nat)
    requires AllInside(mcus, |img|, |last|) && AllIn(mcus, |img|) && 0 < n <= |mcus| && |xs| == |img| && al <= 13
    ensures Inside(mcus[n - 1], |img|, |last|)
    ensures RefineFrom(mcus, n - 1, xs, al) == RefineBits(mcus[n - 1], xs, al) + RefineFrom(mcus, n, xs, al)
    ensures AtLevelUpTo(mcus, n, img, xs, al) == AtLevel(mcus[n - 1], AtLevelUpTo(mcus, n - 1, img, xs, al), xs, al)
  {
    hide RefineBits, AtLevel;
  }

  // ---------------------------------------------------------------- from the register

  /** Where a scan's data is: the bytes, the register, and what follows the scan in the stream. */
  datatype Input = Input(data: seq<byte>, st: Register, after: Stream)

  /** A scan of comps components; its MCUs, with their blocks, in order. */
  datatype DcScan =
    | FirstDc(comps: nat, al: nat, mcus: seq<seq<Cover>>, input: Input)
    | RefineDc(comps: nat, al: nat, mcus: seq<seq<Cover>>, input: Input)

  predicate Shape(scan: DcScan, blocks: nat) {
    scan.al <= 13 && AllInside(scan.mcus, blocks, scan.comps) && Distinct(scan.mcus)
  }

  function KindOf(scan: DcScan): Kind
    requires scan.al <= 13
  {
    if scan.FirstDc? then DcFirstScan(scan.al) else DcRefineScan(scan.al)
  }

  function NoPredictors(n: nat): (r: seq<int>)
    ensures |r| == n
  {
    seq(n, _ => 0)
  }

  /** decode_mcu_DC_first or decode_mcu_DC_refine for all MCUs of the scan, from the register. */
  function RunScan(scan: DcScan, img: seq<Block>): (r: Option<seq<Block>>)
    requires Shape(scan, |img|)
    ensures r.Some? ==> |r.value| == |img|
  {
    var w := Work(scan.input.st, NoPredictors(scan.comps), 0);
    match Mcus(KindOf(scan), Concrete(scan.input.data), IsShort, w, scan.mcus, 0, |scan.mcus|, img)
    case None => None
    case Some((_, out)) => Some(out)
  }

  lemma ShapeIn(scan: DcScan, blocks: nat)
    requires Shape(scan, blocks)
    ensures AllIn(scan.mcus, blocks)
  {
    forall m, k | 0 <= m < |scan.mcus| && 0 <= k < |scan.mcus[m]| ensures scan.mcus[m][k].at < blocks {
      assert Inside(scan.mcus[m], blocks, scan.comps);
    }
  }

  /** The scan carries the codes of xs.  Those of a first scan have all arrived; those of a refinement may
      lack zero bits at the end, for which the decoder's made-up zeros stand in. */
  ghost predicate Coded(scan: DcScan, xs: seq<Coefficient>)
    requires Shape(scan, |xs|)
  {
    ShapeIn(scan, |xs|);
    var x := scan.input;
    if scan.FirstDc? then
      var last := NoPredictors(scan.comps);
      && AllCodeable(scan.mcus, 0, last, xs, scan.al)
      && !x.st.short && Rest(x.data, x.st) == Before(FirstFrom(scan.mcus, 0, last, xs, scan.al), x.after)
    else
      Denotes(x.data, x.st, Before(RefineFrom(scan.mcus, 0, xs, scan.al), x.after))
  }

  lemma FirstScanExact(scan: DcScan, img: seq<Block>, xs: seq<Coefficient>)
    requires |img| == |xs| && Shape(scan, |img|) && scan.FirstDc? && Coded(scan, xs) && RunScan(scan, img).Some?
    ensures AllIn(scan.mcus, |img|) && RunScan(scan, img).value == AtLevelUpTo(scan.mcus, |scan.mcus|, img, xs, scan.al)
  {
    var data, st, last := scan.input.data, scan.input.st, NoPredictors(scan.comps);
    var r := There(FirstFrom(scan.mcus, 0, last, xs, scan.al), scan.input.after);
    var rel := (st: Register, r: Reading) => Reads(data, st, r);
    assert rel(st, r);
    assert Agree(IsShort, IsOver, rel);
    var v, w := Work(r, last, 0), Work(st, last, 0);
    assert Alike(w, v, rel);
    hide *;
    ConcreteMetered(data);
    RunIs(scan, img);
    McusFollow(DcFirstScan(scan.al), Concrete(data), Metered(), IsShort, IsOver, rel, w, v, scan.mcus, 0, |scan.mcus|,
        img);
    FirstScanOnStream(scan.mcus, |scan.mcus|, last, img, xs, scan.al, scan.input.after);
  }

  lemma RunIs(scan: DcScan, img: seq<Block>)
    requires Shape(scan, |img|)
    ensures scan.al <= 13 && AllInside(scan.mcus, |img|, scan.comps) && Distinct(scan.mcus)
    ensures KindOf(scan) == if scan.FirstDc? then DcFirstScan(scan.al) else DcRefineScan(scan.al)
    ensures var w := Work(scan.input.st, NoPredictors(scan.comps), 0);
      var m := Mcus(KindOf(scan), Concrete(scan.input.data), IsShort, w, scan.mcus, 0, |scan.mcus|, img);
      RunScan(scan, img) == match m case None => None case Some((_, out)) => Some(out)
  {
  }

  lemma {:induction false} OverIrrelevant<S>(al: nat, src: BitSource<S>, f: S -> bool, g: S -> bool, w: Work<S>,
      mcus: seq<seq<Cover>>, n: nat, img: seq<Block>)
    requires al <= 13 && AllInside(mcus, |img|, |w.last|) && n <= |mcus|
    ensures Mcus(DcRefineScan(al), src, f, w, mcus, 0, n, img) == Mcus(DcRefineScan(al), src, g, w, mcus, 0, n, img)
  {
    hide EachBlock;
    if n > 0 { OverIrrelevant(al, src, f, g, w, mcus, n - 1, img); }
  }

  lemma RefineScanExact(scan: DcScan, img: seq<Block>, xs: seq<Coefficient>)
    requires |img| == |xs| && Shape(scan, |img|) && scan.RefineDc? && Coded(scan, xs) && RunScan(scan, img).Some?
    requires OneUpFrom(scan.mcus, 0, img, xs, scan.al)
    ensures AllIn(scan.mcus, |img|) && RunScan(scan, img).value == AtLevelUpTo(scan.mcus, |scan.mcus|, img, xs, scan.al)
  {
    ShapeIn(scan, |xs|);
    var data, st, last, al := scan.input.data, scan.input.st, NoPredictors(scan.comps), scan.al;
    var s := Before(RefineFrom(scan.mcus, 0, xs, al), scan.input.after);
    var rel := (st: Register, s: Stream) => Denotes(data, st, s);
    var never, never' := (st: Register) => false, (s: Stream) => false;
    assert rel(st, s);
    assert Agree(never, never', rel);
    var v, w := Work(s, last, 0), Work(st, last, 0);
    assert Alike(w, v, rel);
    hide *;
    ConcreteRefinesAbstract(data);
    RunIs(scan, img);
    OverIrrelevant(al, Concrete(data), IsShort, never, w, scan.mcus, |scan.mcus|, img);
    McusFollow(DcRefineScan(al), Concrete(data), Abstract(), never, never', rel, w, v, scan.mcus, 0, |scan.mcus|, img);
    StreamServes();
    RefineScanOnStream(Abstract(), (s: Stream) => s, scan.mcus, |scan.mcus|, last, img, xs, al, scan.input.after,
        never');
  }

  // ---------------------------------------------------------------- sequences of scans

  /** The bit position each block has reached; None before its first scan. */
  type Levels = seq<Option<nat>>

  /** The scan comes at the right time for all its blocks. */
  predicate Timely(scan: DcScan, lv: Levels)
    requires Shape(scan, |lv|)
  {
    ShapeIn(scan, |lv|);
    forall m, k :: 0 <= m < |scan.mcus| && 0 <= k < |scan.mcus[m]| ==>
      lv[scan.mcus[m][k].at] == if scan.FirstDc? then None else Some(scan.al + 1)
  }

  function Reached(scan: DcScan, lv: Levels): (r: Levels)
    ensures |r| == |lv|
  {
    seq(|lv|, i requires 0 <= i < |lv| => if Covered(scan.mcus, |scan.mcus|, i) then Some(scan.al) else lv[i])
  }

  /** A block that has been scanned is at its level, and otherwise as it was. */
  ghost predicate BlockArrived(b: Block, orig: Block, x: Coefficient, l: Option<nat>) {
    && (l.Some? ==> l.value <= 13 && b[0] == DcLevel(x, l.value))
    && (l.None? ==> b == orig)
    && b[1..] == orig[1..]
  }

  ghost predicate Arrived(img: seq<Block>, orig: seq<Block>, xs: seq<Coefficient>, lv: Levels) {
    && |img| == |orig| == |xs| == |lv|
    && forall i :: 0 <= i < |img| ==> BlockArrived(img[i], orig[i], xs[i], lv[i])
  }

  lemma BlockSet(b: Block, orig: Block, x: Coefficient, l: Option<nat>, al: nat)
    requires BlockArrived(b, orig, x, l) && al <= 13 && -0x8000 <= DcLevel(x, al) < 0x8000
    ensures BlockArrived(SetDc(b, DcLevel(x, al)), orig, x, Some(al))
  {
    assert SetDc(b, DcLevel(x, al))[1..] == b[1..];
    hide DcLevel;
  }

  lemma ReadyToRefine(scan: DcScan, img: seq<Block>, orig: seq<Block>, xs: seq<Coefficient>, lv: Levels)
    requires Arrived(img, orig, xs, lv) && Shape(scan, |img|) && Timely(scan, lv) && scan.RefineDc?
    ensures OneUpFrom(scan.mcus, 0, img, xs, scan.al)
  {
    ShapeIn(scan, |img|);
    hide DcLevel;
    forall m, k | 0 <= m < |scan.mcus| && 0 <= k < |scan.mcus[m]|
      ensures img[scan.mcus[m][k].at][0] == DcLevel(xs[scan.mcus[m][k].at], scan.al + 1)
    {
      var i := scan.mcus[m][k].at;
      assert BlockArrived(img[i], orig[i], xs[i], lv[i]);
    }
  }

  /** One scan brings exactly its blocks to its level. */
  lemma ScanArrives(scan: DcScan, img: seq<Block>, orig: seq<Block>, xs: seq<Coefficient>, lv: Levels)
    requires Arrived(img, orig, xs, lv) && Shape(scan, |img|) && Timely(scan, lv) && Coded(scan, xs)
    requires RunScan(scan, img).Some?
    ensures Arrived(RunScan(scan, img).value, orig, xs, Reached(scan, lv))
  {
    if scan.FirstDc? {
      FirstScanExact(scan, img, xs);
    } else {
      ReadyToRefine(scan, img, orig, xs, lv);
      RefineScanExact(scan, img, xs);
    }
    var out, next := AtLevelUpTo(scan.mcus, |scan.mcus|, img, xs, scan.al), Reached(scan, lv);
    forall i | 0 <= i < |img| ensures BlockArrived(out[i], orig[i], xs[i], next[i]) {
      assert next[i] == if Covered(scan.mcus, |scan.mcus|, i) then Some(scan.al) else lv[i];
      hide *;
      AtLevelUpToAt(scan.mcus, |scan.mcus|, img, xs, scan.al, i);
      BlockSet(img[i], orig[i], xs[i], lv[i], scan.al);
    }
  }

  /** All the scans in turn. */
  function RunScans(scans: seq<DcScan>, img: seq<Block>): Option<seq<Block>>
    requires forall k :: 0 <= k < |scans| ==> Shape(scans[k], |img|)
    decreases |scans|
  {
    if scans == [] then Some(img)
    else
      match RunScan(scans[0], img)
      case None => None
      case Some(out) => RunScans(scans[1..], out)
  }

  /** A legal progression: each scan at the right time for its blocks, carrying the codes of xs. */
  ghost predicate Progression(scans: seq<DcScan>, xs: seq<Coefficient>, lv: Levels)
    requires |lv| == |xs| && forall k :: 0 <= k < |scans| ==> Shape(scans[k], |xs|)
    decreases |scans|
  {
    scans == [] ||
    (Timely(scans[0], lv) && Coded(scans[0], xs) && Progression(scans[1..], xs, Reached(scans[0], lv)))
  }

  function Final(scans: seq<DcScan>, lv: Levels): (r: Levels)
    ensures |r| == |lv|
    decreases |scans|
  {
    if scans == [] then lv else Final(scans[1..], Reached(scans[0], lv))
  }

  lemma {:induction false} ScansArrive(scans: seq<DcScan>, img: seq<Block>, orig: seq<Block>, xs: seq<Coefficient>,
      lv: Levels)
    requires Arrived(img, orig, xs, lv) && (forall k :: 0 <= k < |scans| ==> Shape(scans[k], |img|))
    requires Progression(scans, xs, lv) && RunScans(scans, img).Some?
    ensures Arrived(RunScans(scans, img).value, orig, xs, Final(scans, lv))
    decreases |scans|
  {
    hide Shape, Coded, Timely, RunScan, Reached, BlockArrived;
    if scans != [] {
      ScanArrives(scans[0], img, orig, xs, lv);
      ScansArrive(scans[1..], RunScan(scans[0], img).value, orig, xs, Reached(scans[0], lv));
    }
  }

  function NotScanned(n: nat): (r: Levels)
    ensures |r| == n && forall i :: 0 <= i < n ==> r[i] == None
  {
    seq(n, _ => None)
  }

  /** Main result for DC: after any legal progression of scans whose data is all there, every block has its
      coefficient at the precision reached, which is the coefficient itself at position 0, and nothing
      else is touched. */
  lemma DcIsExact(scans: seq<DcScan>, img: seq<Block>, xs: seq<Coefficient>)
    requires |img| == |xs| && (forall k :: 0 <= k < |scans| ==> Shape(scans[k], |img|))
    requires Progression(scans, xs, NotScanned(|img|)) && RunScans(scans, img).Some?
    ensures var out, lv := RunScans(scans, img).value, Final(scans, NotScanned(|img|));
      && |out| == |img|
      && forall i :: 0 <= i < |img| ==>
           && (lv[i].Some? ==> out[i][0] == DcLevel(xs[i], lv[i].value))
           && (lv[i] == Some(0) ==> out[i][0] == xs[i])
           && (lv[i].None? ==> out[i] == img[i])
           && out[i][1..] == img[i][1..]
  {
    assert Arrived(img, img, xs, NotScanned(|img|)) by { hide DcLevel; }
    ScansArrive(scans, img, img, xs, NotScanned(|img|));
    forall x ensures DcLevel(x, 0) == x { DcLevelZero(x); }
    hide RunScans, Progression, Final, DcLevel, Shape;
  }

  // ---------------------------------------------------------------- finishing

  /** The end of the scan's data has arrived, and the tables are validated for DC use. */
  ghost predicate AllHere(scan: DcScan) {
    Rest(scan.input.data, scan.input.st).ended && forall m :: 0 <= m < |scan.mcus| ==>
        TablesFit(DcFirstScan(0), scan.mcus[m])
  }

  lemma ScanFinishes(scan: DcScan, img: seq<Block>)
    requires Shape(scan, |img|) && AllHere(scan)
    ensures RunScan(scan, img).Some?
  {
    var live := (st: Register) => Rest(scan.input.data, st).ended;
    var w := Work(scan.input.st, NoPredictors(scan.comps), 0);
    assert live(w.s);
    assert forall m :: 0 <= m < |scan.mcus| ==> TablesFit(KindOf(scan), scan.mcus[m]);
    hide *;
    RunIs(scan, img);
    EndedNeverDry(scan.input.data);
    McusComplete(KindOf(scan), Concrete(scan.input.data), live, IsShort, w, scan.mcus, 0, |scan.mcus|, img);
  }

  /** Then no scan suspends. */
  lemma {:induction false} DcFinishes(scans: seq<DcScan>, img: seq<Block>)
    requires (forall k :: 0 <= k < |scans| ==> Shape(scans[k], |img|) && AllHere(scans[k]))
    ensures RunScans(scans, img).Some?
    decreases |scans|
  {
    hide Shape, AllHere, RunScan;
    if scans != [] {
      ScanFinishes(scans[0], img);
      DcFinishes(scans[1..], RunScan(scans[0], img).value);
    }
  }

  // ---------------------------------------------------------------- in pieces

  /** The scan as decode_mcu sees it, without restarts. */
  function PlanOf(scan: DcScan, blocks: nat): Session.Plan
    requires Shape(scan, blocks)
  {
    Session.Plan(KindOf(scan), scan.mcus, scan.comps, blocks, 0)
  }

  /** The state that start_pass leaves. */
  predicate Begins(x: Session.State, scan: DcScan, img: seq<Block>)
    requires Shape(scan, |img|)
  {
    Session.Fits(x, PlanOf(scan, |img|)) && x.m == 0 && x.img == img
    && Session.WorkOf(x) == Work(scan.input.st, NoPredictors(scan.comps), 0)
  }

  /** However the data arrives and whatever suspensions there are, the completed scan is RunScan. */
  lemma DcScanInPieces(scan: DcScan, img: seq<Block>, x0: Session.State, es: seq<Seq.Event>)
    requires Shape(scan, |img|) && Begins(x0, scan, img)
    requires var s := Session.After(Session.Session([], x0), es, PlanOf(scan, |img|));
      s.data == scan.input.data && s.x.m == |scan.mcus|
    ensures RunScan(scan, img) == Some(Session.After(Session.Session([], x0), es, PlanOf(scan, |img|)).x.img)
  {
    hide Mcus, Session.After, Session.Fits;
    Session.ScanInPieces(x0, es, PlanOf(scan, |img|));
  }
}
