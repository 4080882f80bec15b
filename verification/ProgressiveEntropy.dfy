/** The progressive entropy decoder object, run in place on the blocks of the image. */
module ProgressiveEntropy {
  import opened Wrappers
  import opened Bits
  import opened HuffDecode
  import opened BitReader
  import opened BitSources
  import opened InsufficientData
  import opened Zigzag
  import opened Refine
  import opened Progressive
  import opened ProgressiveMcu
  import opened RefineDecoder
  import opened ProgressiveDecoder
  import Markers
  import Seq = SequentialMcu
  import Session = ProgressiveSession

  /** The image as separate arrays, one for each block. */
  ghost predicate IsImage(img: seq<array<Coefficient>>) {
    && (forall i :: 0 <= i < |img| ==> img[i].Length == DCTSIZE2)
    && (forall i, j :: 0 <= i < j < |img| ==> img[i] != img[j])
  }

  ghost function Contents(img: seq<array<Coefficient>>): (c: seq<Block>)
    requires IsImage(img)
    reads img
    ensures |c| == |img| && forall i :: 0 <= i < |img| ==> c[i] == img[i][..]
  {
    seq(|img|, i requires 0 <= i < |img| reads img => img[i][..])
  }

  /** One block of whatever kind of scan it is. */
  method DecodeBlock(rd: Reader, kind: Kind, last: seq<int>, eobRun: nat, h: Cover, block: array<Coefficient>)
    returns (ok: bool, last': seq<int>, eobRun': nat)
    requires rd.bitsLeft <= 32 && h.ci < |last| && block.Length == DCTSIZE2 && (kind.DcFirstScan? ==> ForDc(h.tb))
    modifies rd, rd.cinfo`unreadMarker, rd.cinfo`insufficientData, block
    ensures var (b, o) := OneBlock(kind, Concrete(rd.cinfo.data), Work(old(rd.State()), last, eobRun), h,
        old(block[..]));
      block[..] == b && match o case None => !ok case Some(w) => ok && w == Work(rd.State(), last', eobRun')
    ensures !ok ==> unchanged(rd.cinfo) && rd.cinfo.unreadMarker == 0
    ensures rd.cinfo.unreadMarker == 0 ==> unchanged(rd.cinfo)
  {
    hide DcFirst, DcRefine, AcFirst, AcFirstPuts, PutAll, Run, Undo, Concrete;
    last', eobRun' := last, eobRun;
    match kind
    case DcFirstScan(al) =>
      var l;
      ok, l := DecodeDcFirst(rd, h.tb, last[h.ci], al, block);
      if ok { last' := last[h.ci := l]; }
    case DcRefineScan(al) =>
      ok := DecodeDcRefine(rd, al, block);
    case AcFirstScan(o, d) =>
      AcFirstIsPuts(Concrete(rd.cinfo.data), rd.State(), h.tb, o, d, block[..], d.ss);
      ok, eobRun' := DecodeAcFirst(rd, h.tb, o, d, block, eobRun);
    case AcRefineScan(o, d) =>
      ok, eobRun' := DecodeAcRefine(rd, h.tb, o, d, block, eobRun);
  }

  lemma OneChanged(img: seq<array<Coefficient>>, before: seq<Block>, at: nat)
    requires IsImage(img) && at < |img| == |before| && forall i :: 0 <= i < |img| && i != at ==> img[i][..] == before[i]
    ensures Contents(img) == before[at := img[at][..]]
  {
  }

  /** What is still to come of the MCU from block k on. */
  ghost function Remaining(rd: Reader, kind: Kind, last: seq<int>, eobRun: nat, mcu: seq<Cover>, k: nat,
      img: seq<array<Coefficient>>)
    : Attempted<Register>
    requires rd.bitsLeft <= 32 && IsImage(img) && Inside(mcu, |img|, |last|) && k <= |mcu|
    reads rd, rd.cinfo, img
  {
    EachBlock(kind, Concrete(rd.cinfo.data), Work(rd.State(), last, eobRun), mcu[k..], Contents(img))
  }

  lemma NextBlock(kind: Kind, src: BitSource<Register>, w: Work<Register>, mcu: seq<Cover>, k: nat, img: seq<Block>)
    requires Inside(mcu, |img|, |w.last|) && k < |mcu|
    ensures Inside(mcu[k..], |img|, |w.last|)
    ensures var h := mcu[k];
      var (b, o) := OneBlock(kind, src, w, h, img[h.at]);
      EachBlock(kind, src, w, mcu[k..], img) ==
      match o
      case None => Attempted(img[h.at := b], None)
      case Some(w1) => EachBlock(kind, src, w1, mcu[k + 1..], img[h.at := b])
  {
    assert mcu[k..][0] == mcu[k] && mcu[k..][1..] == mcu[k + 1..];
    hide OneBlock;
  }

  /** One pass of the loop over the blocks of an MCU. */
  method DecodeNext(rd: Reader, kind: Kind, last: seq<int>, eobRun: nat, mcu: seq<Cover>, k: nat,
      img: seq<array<Coefficient>>)
    returns (ok: bool, last': seq<int>, eobRun': nat)
    requires rd.bitsLeft <= 32 && IsImage(img) && Inside(mcu, |img|, |last|) && TablesFit(kind, mcu) && k < |mcu|
    modifies rd, rd.cinfo`unreadMarker, rd.cinfo`insufficientData, img
    ensures ok ==> rd.bitsLeft <= 32 && |last'| == |last|
    ensures old(Remaining(rd, kind, last, eobRun, mcu, k, img)) ==
            if ok then Remaining(rd, kind, last', eobRun', mcu, k + 1, img) else Attempted(Contents(img), None)
    ensures !ok ==> unchanged(rd.cinfo) && rd.cinfo.unreadMarker == 0
    ensures rd.cinfo.unreadMarker == 0 ==> unchanged(rd.cinfo)
  {
    ghost var before := Contents(img);
    var h := mcu[k];
    NextBlock(kind, Concrete(rd.cinfo.data), Work(rd.State(), last, eobRun), mcu, k, before);
    hide OneBlock, EachBlock, Concrete;
    ok, last', eobRun' := DecodeBlock(rd, kind, last, eobRun, h, img[h.at]);
    OneChanged(img, before, h.at);
  }

  lemma AllLeft(rd: Reader, kind: Kind, last: seq<int>, eobRun: nat, mcu: seq<Cover>, img: seq<array<Coefficient>>)
    requires rd.bitsLeft <= 32 && IsImage(img) && Inside(mcu, |img|, |last|)
    ensures Remaining(rd, kind, last, eobRun, mcu, 0, img)
         == EachBlock(kind, Concrete(rd.cinfo.data), Work(rd.State(), last, eobRun), mcu, Contents(img))
  {
    assert mcu[0..] == mcu;
  }

  lemma NoneLeft(rd: Reader, kind: Kind, last: seq<int>, eobRun: nat, mcu: seq<Cover>, img: seq<array<Coefficient>>)
    requires rd.bitsLeft <= 32 && IsImage(img) && Inside(mcu, |img|, |last|)
    ensures Remaining(rd, kind, last, eobRun, mcu, |mcu|, img)
         == Attempted(Contents(img), Some(Work(rd.State(), last, eobRun)))
  {
    assert mcu[|mcu|..] == [];
  }

  /** The loop over the blocks of an MCU. */
  method DecodeBlocks(rd: Reader, kind: Kind, last: seq<int>, eobRun: nat, mcu: seq<Cover>,
      img: seq<array<Coefficient>>)
    returns (ok: bool, last': seq<int>, eobRun': nat)
    requires rd.bitsLeft <= 32 && IsImage(img) && Inside(mcu, |img|, |last|) && TablesFit(kind, mcu)
    modifies rd, rd.cinfo`unreadMarker, rd.cinfo`insufficientData, img
    ensures ok ==> rd.bitsLeft <= 32
    ensures EachBlock(kind, Concrete(rd.cinfo.data), Work(old(rd.State()), last, eobRun), mcu, old(Contents(img)))
         == Attempted(Contents(img), if ok then Some(Work(rd.State(), last', eobRun')) else None)
    ensures !ok ==> unchanged(rd.cinfo)
  {
    ghost var goal := Remaining(rd, kind, last, eobRun, mcu, 0, img);
    AllLeft(rd, kind, last, eobRun, mcu, img);
    ok, last', eobRun' := true, last, eobRun;
    hide EachBlock, Concrete, TablesFit, Contents, Remaining;
    var k := 0;
    while k < |mcu|
      invariant ok && 0 <= k <= |mcu| && rd.bitsLeft <= 32 && |last'| == |last|
      invariant Remaining(rd, kind, last', eobRun', mcu, k, img) == goal
      invariant rd.cinfo.unreadMarker == 0 ==> unchanged(rd.cinfo)
    {
      ok, last', eobRun' := DecodeNext(rd, kind, last', eobRun', mcu, k, img);
      if !ok { return; }
      k := k + 1;
    }
    NoneLeft(rd, kind, last', eobRun', mcu, img);
  }

  /** The two ways through decode_mcu after restart processing. */
  lemma BodyIs(data: seq<byte>, x: Session.State, plan: Session.Plan)
    requires Session.Fits(x, plan) && x.m < |plan.mcus|
    ensures Inside(plan.mcus[x.m], |x.img|, |x.perm.last|)
    ensures !plan.kind.DcRefineScan? && x.perm.short ==>
      Session.DecodeBody(data, x, plan) == (Session.State(Seq.CountDown(x.perm), x.eobRun, x.img, x.m + 1), true)
    ensures plan.kind.DcRefineScan? || !x.perm.short ==>
      var a := EachBlock(plan.kind, Concrete(data), Session.WorkOf(x), plan.mcus[x.m], x.img);
      Session.DecodeBody(data, x, plan) == match a.out
        case None => (Session.State(x.perm, x.eobRun, a.img, x.m), false)
        case Some(w) => (Session.State(Seq.CountDown(Seq.Retain(x.perm, w.s, w.last)), w.eobRun, a.img, x.m + 1), true)
  {
    assert Inside(plan.mcus[x.m], |x.img|, |x.perm.last|);
    hide EachBlock, Concrete;
  }

  class EntropyDecoder {
    const cinfo: Decompressor
    // state as of the start of the next MCU
    var getBuffer: int
    var bitsLeft: nat
    var lastDcVal: seq<int>
    var eobRun: nat
    var restartsToGo: nat
    // fixed by start_pass
    const plan: Session.Plan

    ghost predicate Valid()
      reads this, cinfo
    {
      && bitsLeft <= 32 && cinfo.nextRestartNum < 8 && |lastDcVal| == plan.comps
      && Session.PlanOk(plan) && Session.TablesOk(plan)
    }

    ghost function Perm(): Seq.Perm
      requires Valid()
      reads this, cinfo
    {
      Seq.Saved(Markers.PointOf(cinfo), cinfo.insufficientData, getBuffer, bitsLeft, lastDcVal, restartsToGo,
          cinfo.nextRestartNum)
    }

    /** The decoder and the image, before MCU m. */
    ghost function State(img: seq<array<Coefficient>>, m: nat): (x: Session.State)
      requires Valid() && IsImage(img) && |img| == plan.blocks && m <= |plan.mcus|
      reads this, cinfo, img
      ensures Session.Fits(x, plan)
    {
      Session.State(Perm(), eobRun, Contents(img), m)
    }

    /** start_pass_phuff_decoder, with the tables derived for the scan. */
    constructor (cinfo: Decompressor, plan: Session.Plan)
      requires cinfo.nextRestartNum < 8 && Session.PlanOk(plan) && Session.TablesOk(plan)
      modifies cinfo`insufficientData
      ensures Valid() && this.cinfo == cinfo && this.plan == plan && eobRun == 0
      ensures Perm() == Seq.Saved(old(Markers.PointOf(cinfo)), false, 0, 0, Seq.ZeroPredictors(plan.comps),
          plan.restartInterval, old(cinfo.nextRestartNum))
    {
      this.cinfo, this.plan := cinfo, plan;
      getBuffer, bitsLeft, eobRun, restartsToGo := 0, 0, 0, plan.restartInterval;
      lastDcVal := seq(plan.comps, _ => 0);
      new;
      cinfo.insufficientData := false;
    }

    /** process_restart; false means suspension. */
    method ProcessRestart() returns (ok: bool)
      requires Valid()
      modifies this, cinfo
      ensures Valid() && cinfo.data == old(cinfo.data)
      ensures (Perm(), ok) == Seq.ProcessRestart(cinfo.data, old(Perm()), Session.Restarts(plan))
      ensures eobRun == if ok then 0 else old(eobRun)
      ensures ok ==> cinfo.insufficientData == (old(cinfo.insufficientData) && cinfo.unreadMarker != 0)
    {
      cinfo.discardedBytes := cinfo.discardedBytes + bitsLeft / 8;
      bitsLeft := 0;
      ok := Markers.ReadRestartMarker(cinfo);
      if !ok { return; }
      lastDcVal := seq(plan.comps, _ => 0);
      eobRun := 0;
      restartsToGo := plan.restartInterval;
      if cinfo.unreadMarker == 0 {
        cinfo.insufficientData := false;
      }
    }

    /** decode_mcu for MCU m of the scan.  A false result means the source suspended. */
    method DecodeMcu(img: seq<array<Coefficient>>, m: nat) returns (ok: bool)
      requires Valid() && IsImage(img) && |img| == plan.blocks && m < |plan.mcus|
      modifies this, cinfo, img
      ensures Valid() && cinfo.data == old(cinfo.data)
      ensures Session.DecodeMcu(cinfo.data, old(State(img, m)), plan) == (State(img, if ok then m + 1 else m), ok)
    {
      hide Session.DecodeBody, Session.PlanOk, Session.TablesOk, Seq.ProcessRestart;
      if plan.restartInterval != 0 && restartsToGo == 0 {
        ok := ProcessRestart();
        if !ok { return; }
      }
      ok := DecodeAfterRestart(img, m);
    }

    method DecodeAfterRestart(img: seq<array<Coefficient>>, m: nat) returns (ok: bool)
      requires Valid() && IsImage(img) && |img| == plan.blocks && m < |plan.mcus|
      modifies this, cinfo, img
      ensures Valid() && cinfo.data == old(cinfo.data)
      ensures Session.DecodeBody(cinfo.data, old(State(img, m)), plan) == (State(img, if ok then m + 1 else m), ok)
    {
      BodyIs(cinfo.data, State(img, m), plan);
      hide Session.PlanOk, Session.DecodeBody, Session.TablesOk, Inside, Concrete, EachBlock, Seq.CountDown, Seq.Retain;
      ok := true;
      if plan.kind.DcRefineScan? || !cinfo.insufficientData {
        ok := Attempt(img, m);
      }
      if ok { CountMcu(); }
    }

    /** All blocks of the MCU, and the working state saved if that succeeds. */
    method Attempt(img: seq<array<Coefficient>>, m: nat) returns (ok: bool)
      requires Valid() && IsImage(img) && |img| == plan.blocks && m < |plan.mcus|
      modifies this, cinfo, img
      ensures Valid() && cinfo.data == old(cinfo.data) && Inside(plan.mcus[m], |img|, old(|lastDcVal|))
      ensures var a := EachBlock(plan.kind, Concrete(cinfo.data), Session.WorkOf(old(State(img, m))), plan.mcus[m],
          old(Contents(img)));
        Contents(img) == a.img &&
        if ok then a.out.Some? && Perm() == Seq.Retain(old(Perm()), a.out.value.s, a.out.value.last)
            && eobRun == a.out.value.eobRun
        else a.out.None? && Perm() == old(Perm()) && eobRun == old(eobRun)
    {
      assert Inside(plan.mcus[m], |img|, |lastDcVal|) && TablesFit(plan.kind, plan.mcus[m]);
      hide Session.PlanOk, Session.TablesOk, TablesFit, Inside, Concrete, EachBlock;
      var rd := new Reader(cinfo, cinfo.srcPos, getBuffer, bitsLeft);
      var last, e;
      ok, last, e := DecodeBlocks(rd, plan.kind, lastDcVal, eobRun, plan.mcus[m], img);
      if !ok { return; }
      cinfo.srcPos := rd.next;
      getBuffer, bitsLeft := rd.getBuffer, rd.bitsLeft;
      lastDcVal, eobRun := last, e;
    }

    /** Account for the restart interval. */
    method CountMcu()
      requires Valid()
      modifies this`restartsToGo
      ensures Valid() && Perm() == Seq.CountDown(old(Perm()))
    {
      restartsToGo := if restartsToGo == 0 then 0xFFFF_FFFF else restartsToGo - 1;
    }
  }
}
