/** Whole progressive scans over input that arrives in pieces: suspended calls, the undo, and restarts
    leave no trace, neither in the decoder's state nor in the image. */
module ProgressiveSession {
  import opened Wrappers
  import opened Bits
  import opened BitStream
  import opened HuffDecode
  import opened BitSources
  import opened InsufficientData
  import opened Zigzag
  import opened Refine
  import opened Progressive
  import opened ProgressiveMcu
  import Markers
  import Seq = SequentialMcu

  // ---------------------------------------------------------------- repeating an MCU

  lemma BlockStable(kind: Kind, data: seq<byte>, more: seq<byte>, w: Work<Register>, h: Cover, b: Block)
    requires h.ci < |w.last| && OneBlock(kind, Concrete(data), w, h, b).1.Some?
    ensures OneBlock(kind, Concrete(data + more), w, h, b) == OneBlock(kind, Concrete(data), w, h, b)
  {
    ConcreteStable(data, more);
    hide OneBlock, Concrete, Simulates;
    BlockFollows(kind, Concrete(data), Concrete(data + more), Equal, w, w, h, b);
  }

  lemma DcRefineAgain(data: seq<byte>, more: seq<byte>, s: Register, c: Coefficient, al: nat)
    requires al <= 13 && DcRefine(Concrete(data), s, c, al).Some?
    ensures DcRefine(Concrete(data + more), s, c, al).Some?
    ensures DcRefine(Concrete(data + more), s, DcRefine(Concrete(data), s, c, al).value.0, al)
         == DcRefine(Concrete(data + more), s, c, al)
  {
    ReceiveStable(data, more, s, 1);
    SetBitOnce(c, al);
    hide SetBit;
  }

  lemma PutsAgain(data: seq<byte>, more: seq<byte>, s: Register, tb: Table, o: Order, d: Scan, b: Block)
    ensures var part, full := AcFirstPuts(Concrete(data), s, tb, o, d, d.ss).puts,
        AcFirstPuts(Concrete(data + more), s, tb, o, d, d.ss).puts;
      PutAll(full, PutAll(part, b)) == PutAll(full, b)
  {
    ConcreteStable(data, more);
    assert Equal(s, s);
    hide *;
    PutsSimulated(Concrete(data), Concrete(data + more), Equal, s, s, tb, o, d, d.ss);
    PutAgain(AcFirstPuts(Concrete(data), s, tb, o, d, d.ss).puts,
        AcFirstPuts(Concrete(data + more), s, tb, o, d, d.ss).puts, b);
  }

  /** A refinement that stopped, undone and repeated with more input, ends as from the original block; if it
      stops again the block is undone as from the original. */
  lemma RefineAgain(data: seq<byte>, more: seq<byte>, s: Register, tb: Table, o: Order, d: Scan, b: Block, e: nat)
    requires RefineBlock(Concrete(data), s, tb, o, d, b, e).Stop?
    ensures var b' := Undo(RefineBlock(Concrete(data), s, tb, o, d, b, e).b, b);
      && RefineBlock(Concrete(data + more), s, tb, o, d, b', e) == RefineBlock(Concrete(data + more), s, tb, o, d, b, e)
      && forall x: Block :: Undo(x, b') == Undo(x, b)
  {
    var ph := if e > 0 then Tail(e) else Fetch;
    ConcreteStable(data, more);
    EqualIsSame(Concrete(data), Concrete(data + more));
    hide Run, Concrete, Simulates;
    RunAgain(Concrete(data), Concrete(data + more), s, tb, o, d, b, d.ss, ph);
    var stopped := Run(Concrete(data), s, tb, o, d, b, d.ss, ph).b;
    forall i: nat | i < |b| ensures b[i] == 0 <==> Undo(stopped, b)[i] == 0 {
      if b[i] != 0 { StopKeepsNonzero(Concrete(data), s, tb, o, d, b, d.ss, ph, i); }
    }
    forall x: Block ensures Undo(x, Undo(stopped, b)) == Undo(x, b) {
      UndoSamePattern(x, b, Undo(stopped, b));
    }
  }

  predicate IsDc(kind: Kind) {
    kind.DcFirstScan? || kind.DcRefineScan?
  }

  lemma DcBlockAgain(al: nat, src: BitSource<Register>, w: Work<Register>, h: Cover, b: Block, c: Coefficient)
    requires al <= 13 && h.ci < |w.last| && DcRefine(src, w.s, c, al) == DcRefine(src, w.s, b[0], al)
        && DcRefine(src, w.s, c, al).Some?
    ensures OneBlock(DcRefineScan(al), src, w, h, SetDc(b, c)) == OneBlock(DcRefineScan(al), src, w, h, b)
  {
    hide DcRefine;
    var q := DcRefine(src, w.s, b[0], al);
    assert SetDc(b, c)[0] == c;
    assert SetDc(SetDc(b, c), q.value.0) == SetDc(b, q.value.0);
  }

  /** A DC block may be repeated at any time, an AC block after a suspension. */
  lemma BlockAgain(kind: Kind, data: seq<byte>, more: seq<byte>, w: Work<Register>, h: Cover, b: Block)
    requires h.ci < |w.last| && (IsDc(kind) || OneBlock(kind, Concrete(data), w, h, b).1.None?)
    ensures OneBlock(kind, Concrete(data + more), w, h, OneBlock(kind, Concrete(data), w, h, b).0)
         == OneBlock(kind, Concrete(data + more), w, h, b)
  {
    hide Concrete, AcFirstPuts, PutAll, Run, Undo, DcFirst, DcRefine;
    match kind
    case DcFirstScan(_) =>
      var r := DcFirst(Concrete(data), w.s, h.tb, w.last[h.ci], kind.al);
      if r.Some? {
        BlockStable(kind, data, more, w, h, b);
        var q := DcFirst(Concrete(data + more), w.s, h.tb, w.last[h.ci], kind.al);
        assert q.Some? && SetDc(SetDc(b, r.value.0), q.value.0) == SetDc(b, q.value.0);
      }
    case DcRefineScan(al) =>
      if DcRefine(Concrete(data), w.s, b[0], al).Some? {
        DcRefineAgain(data, more, w.s, b[0], al);
        DcBlockAgain(al, Concrete(data + more), w, h, b, DcRefine(Concrete(data), w.s, b[0], al).value.0);
      }
    case AcFirstScan(o, d) => PutsAgain(data, more, w.s, h.tb, o, d, b);
    case AcRefineScan(o, d) => RefineAgain(data, more, w.s, h.tb, o, d, b, w.eobRun);
  }

  /** No block comes twice, and AC scans have one block to the MCU. */
  predicate Apart(kind: Kind, mcu: seq<Cover>) {
    (forall k, l :: 0 <= k < l < |mcu| ==> mcu[k].at != mcu[l].at) && (!IsDc(kind) ==> |mcu| <= 1)
  }

  lemma EachStable(kind: Kind, data: seq<byte>, more: seq<byte>, w: Work<Register>, mcu: seq<Cover>, img: seq<Block>)
    requires Inside(mcu, |img|, |w.last|) && EachBlock(kind, Concrete(data), w, mcu, img).out.Some?
    ensures EachBlock(kind, Concrete(data + more), w, mcu, img) == EachBlock(kind, Concrete(data), w, mcu, img)
  {
    ConcreteStable(data, more);
    hide EachBlock, Concrete, Simulates;
    EachFollows(kind, Concrete(data), Concrete(data + more), Equal, w, w, mcu, img);
  }

  /** An MCU that suspended, repeated with more input on the blocks it left behind, ends as on the original
      blocks. */
  lemma {:induction false} EachAgain(kind: Kind, data: seq<byte>, more: seq<byte>, w: Work<Register>, mcu: seq<Cover>,
      img: seq<Block>)
    requires Inside(mcu, |img|, |w.last|) && Apart(kind, mcu) && EachBlock(kind, Concrete(data), w, mcu, img).out.None?
    ensures EachBlock(kind, Concrete(data + more), w, mcu, EachBlock(kind, Concrete(data), w, mcu, img).img)
         == EachBlock(kind, Concrete(data + more), w, mcu, img)
    decreases |mcu|
  {
    var h := mcu[0];
    var (b, o) := OneBlock(kind, Concrete(data), w, h, img[h.at]);
    BlockAgain(kind, data, more, w, h, img[h.at]);
    hide OneBlock, Concrete;
    var left := EachBlock(kind, Concrete(data), w, mcu, img).img;
    if o.None? {
      SameAfterwards(img, h.at, b, OneBlock(kind, Concrete(data + more), w, h, img[h.at]).0);
    } else {
      BlockStable(kind, data, more, w, h, img[h.at]);
      var tail := mcu[1..];
      assert !In(tail, h.at) by {
        forall k | 0 <= k < |tail| ensures tail[k].at != h.at { assert mcu[k + 1].at != mcu[0].at; }
      }
      EachFrame(kind, Concrete(data), o.value, tail, img[h.at := b], h.at);
      assert left[h.at := b] == left;
      EachAgain(kind, data, more, o.value, tail, img[h.at := b]);
    }
  }

  lemma SameAfterwards(img: seq<Block>, i: nat, a: Block, b: Block)
    requires i < |img|
    ensures img[i := a][i] == a && img[i := a][i := b] == img[i := b]
  {
  }

  // ---------------------------------------------------------------- decode_mcu

  /** What start_pass fixes: the kind of scan, its MCUs, and the numbers of components and of blocks. */
  datatype Plan = Plan(kind: Kind, mcus: seq<seq<Cover>>, comps: nat, blocks: nat, restartInterval: nat)

  predicate PlanOk(plan: Plan) {
    AllInside(plan.mcus, plan.blocks, plan.comps) && forall m :: 0 <= m < |plan.mcus| ==> Apart(plan.kind, plan.mcus[m])
  }

  /** Tables validated for their use. */
  ghost predicate TablesOk(plan: Plan) {
    forall m :: 0 <= m < |plan.mcus| ==> TablesFit(plan.kind, plan.mcus[m])
  }

  /** The decoder's permanent state, the image so far, and the number of the next MCU. */
  datatype State = State(perm: Seq.Perm, eobRun: nat, img: seq<Block>, m: nat)

  predicate Fits(x: State, plan: Plan) {
    PlanOk(plan) && |x.img| == plan.blocks && |x.perm.last| == plan.comps && x.m <= |plan.mcus|
  }

  function WorkOf(x: State): Work<Register> {
    Work(Seq.RegisterOf(x.perm), x.perm.last, x.eobRun)
  }

  /** The part of decode_mcu after restart processing; true means that the MCU is complete. */
  function DecodeBody(data: seq<byte>, x: State, plan: Plan): (r: (State, bool))
    requires Fits(x, plan) && x.m < |plan.mcus|
    ensures Fits(r.0, plan) && r.0.m == x.m + (if r.1 then 1 else 0)
  {
    assert Inside(plan.mcus[x.m], |x.img|, |x.perm.last|);
    var a := OneMcu(plan.kind, Concrete(data), IsShort, WorkOf(x), plan.mcus[x.m], x.img);
    match a.out
    case None => (State(x.perm, x.eobRun, a.img, x.m), false)
    case Some(w) => (State(Seq.CountDown(Seq.Retain(x.perm, w.s, w.last)), w.eobRun, a.img, x.m + 1), true)
  }

  function Restarts(plan: Plan): Seq.ScanPlan {
    Seq.ScanPlan([], plan.comps, plan.restartInterval)
  }

  /** process_restart, which also clears the end-of-band run. */
  function ProcessRestart(data: seq<byte>, x: State, plan: Plan): (r: (State, bool))
    requires Fits(x, plan)
    ensures Fits(r.0, plan) && r.0.m == x.m && r.0.img == x.img
  {
    var (q, ok) := Seq.ProcessRestart(data, x.perm, Restarts(plan));
    (State(q, if ok then 0 else x.eobRun, x.img, x.m), ok)
  }

  /** decode_mcu for the next MCU of the scan. */
  function DecodeMcu(data: seq<byte>, x: State, plan: Plan): (r: (State, bool))
    requires Fits(x, plan)
    ensures Fits(r.0, plan) && r.0.m == x.m + (if r.1 then 1 else 0)
  {
    if x.m == |plan.mcus| then (x, false)
    else if Seq.RestartDue(x.perm, Restarts(plan)) then
      var (y, ok) := ProcessRestart(data, x, plan);
      if ok then DecodeBody(data, y, plan) else (y, false)
    else DecodeBody(data, x, plan)
  }

  lemma OneMcuResumes(kind: Kind, data: seq<byte>, more: seq<byte>, w: Work<Register>, mcu: seq<Cover>, img: seq<Block>)
    requires Inside(mcu, |img|, |w.last|) && Apart(kind, mcu)
    ensures var r := OneMcu(kind, Concrete(data), IsShort, w, mcu, img);
      if r.out.Some? then
        OneMcu(kind, Concrete(data + more), IsShort, w, mcu, img) == r
      else
        OneMcu(kind, Concrete(data + more), IsShort, w, mcu, r.img)
        == OneMcu(kind, Concrete(data + more), IsShort, w, mcu, img)
  {
    hide EachBlock, Concrete, Apart;
    if EachBlock(kind, Concrete(data), w, mcu, img).out.Some? {
      EachStable(kind, data, more, w, mcu, img);
    } else {
      EachAgain(kind, data, more, w, mcu, img);
    }
  }

  lemma BodyResumes(data: seq<byte>, more: seq<byte>, x: State, plan: Plan)
    requires Fits(x, plan) && x.m < |plan.mcus|
    ensures var r := DecodeBody(data, x, plan);
      if r.1 then DecodeBody(data + more, x, plan) == r
      else r.0 == x.(img := r.0.img) && DecodeBody(data + more, r.0, plan) == DecodeBody(data + more, x, plan)
  {
    assert Inside(plan.mcus[x.m], |x.img|, |x.perm.last|) && Apart(plan.kind, plan.mcus[x.m]);
    OneMcuResumes(plan.kind, data, more, WorkOf(x), plan.mcus[x.m], x.img);
    hide OneMcu, Concrete, Apart, Seq.Retain, Seq.CountDown;
  }

  lemma RestartResumes(data: seq<byte>, more: seq<byte>, x: State, plan: Plan)
    requires Fits(x, plan)
    ensures var r := ProcessRestart(data, x, plan);
      if r.1 then ProcessRestart(data + more, x, plan) == r
      else
        && r.0.perm.toGo == x.perm.toGo
        && ProcessRestart(data + more, r.0, plan) == ProcessRestart(data + more, x, plan)
  {
    hide Seq.ProcessRestart;
    Seq.RestartResumes(data, more, x.perm, Restarts(plan));
  }

  /** All or nothing.  A completed call does not depend on input that had not arrived; a suspended one,
      repeated with more input on the state and the blocks it left, gives what one call with all that
      input gives on the original ones. */
  lemma McuResumes(data: seq<byte>, more: seq<byte>, x: State, plan: Plan)
    requires Fits(x, plan)
    ensures var r := DecodeMcu(data, x, plan);
      if r.1 then DecodeMcu(data + more, x, plan) == r
      else DecodeMcu(data + more, r.0, plan) == DecodeMcu(data + more, x, plan)
  {
    hide DecodeBody, ProcessRestart;
    if x.m < |plan.mcus| {
      if Seq.RestartDue(x.perm, Restarts(plan)) {
        RestartResumes(data, more, x, plan);
        var (y, ok) := ProcessRestart(data, x, plan);
        if ok {
          RestartDone(data, x, plan);
          BodyResumes(data, more, y, plan);
        }
      } else {
        BodyResumes(data, more, x, plan);
      }
    }
  }

  lemma RestartDone(data: seq<byte>, x: State, plan: Plan)
    requires Fits(x, plan) && ProcessRestart(data, x, plan).1
    ensures ProcessRestart(data, x, plan).0.perm.toGo == plan.restartInterval
  {
  }

  // ---------------------------------------------------------------- whole sessions

  datatype Session = Session(data: seq<byte>, x: State)

  function Step(s: Session, e: Seq.Event, plan: Plan): (r: Session)
    requires Fits(s.x, plan)
    ensures Fits(r.x, plan)
  {
    match e
    case Deliver(bytes) => s.(data := s.data + bytes)
    case Ask => s.(x := DecodeMcu(s.data, s.x, plan).0)
  }

  /** Bytes are delivered and MCUs asked for in any order. */
  function After(s: Session, es: seq<Seq.Event>, plan: Plan): (r: Session)
    requires Fits(s.x, plan)
    ensures Fits(r.x, plan)
  {
    if es == [] then s else Step(After(s, es[..|es| - 1], plan), es[|es| - 1], plan)
  }

  /** The next n MCUs from an unbroken buffer; None if it is too short for that. */
  function Unbroken(data: seq<byte>, x: State, n: nat, plan: Plan): (r: Option<State>)
    requires Fits(x, plan)
    ensures r.Some? ==> Fits(r.value, plan) && r.value.m == x.m + n
  {
    if n == 0 then Some(x)
    else
      match Unbroken(data, x, n - 1, plan)
      case None => None
      case Some(y) =>
        var r := DecodeMcu(data, y, plan);
        if r.1 then Some(r.0) else None
  }

  lemma {:induction false} UnbrokenStable(data: seq<byte>, more: seq<byte>, x: State, n: nat, plan: Plan)
    requires Fits(x, plan) && Unbroken(data, x, n, plan).Some?
    ensures Unbroken(data + more, x, n, plan) == Unbroken(data, x, n, plan)
  {
    hide DecodeMcu, Fits;
    if n > 0 {
      UnbrokenStable(data, more, x, n - 1, plan);
      McuResumes(data, more, Unbroken(data, x, n - 1, plan).value, plan);
    }
  }

  /** n MCUs and then k more. */
  lemma {:induction false} UnbrokenAdd(data: seq<byte>, x: State, n: nat, k: nat, plan: Plan)
    requires Fits(x, plan)
    ensures Unbroken(data, x, n + k, plan) ==
      match Unbroken(data, x, n, plan) case None => None case Some(y) => Unbroken(data, y, k, plan)
  {
    hide DecodeMcu, Fits;
    if k > 0 { UnbrokenAdd(data, x, n, k - 1, plan); }
  }

  /** Only what the first call does with the state matters. */
  lemma {:induction false} UnbrokenSame(data: seq<byte>, x: State, y: State, n: nat, plan: Plan)
    requires Fits(x, plan) && Fits(y, plan) && DecodeMcu(data, x, plan) == DecodeMcu(data, y, plan) && n > 0
    ensures Unbroken(data, x, n, plan) == Unbroken(data, y, n, plan)
  {
    hide DecodeMcu, Fits;
    if n > 1 { UnbrokenSame(data, x, y, n - 1, plan); }
  }

  /** From these two states the decoder can never be told apart, whatever else arrives. */
  ghost predicate Interchangeable(data: seq<byte>, x: State, y: State, plan: Plan)
    requires Fits(x, plan) && Fits(y, plan)
  {
    x.m == y.m && forall more: seq<byte> :: DecodeMcu(data + more, x, plan) == DecodeMcu(data + more, y, plan)
  }

  /** The blocks of all other MCUs are the same. */
  predicate SameElsewhere(x: State, y: State, plan: Plan)
    requires Fits(x, plan) && Fits(y, plan)
  {
    forall i :: 0 <= i < plan.blocks && (x.m < |plan.mcus| ==> !In(plan.mcus[x.m], i)) ==> x.img[i] == y.img[i]
  }

  /** What is kept between events: x is where the session stands, y where the unbroken run stands. */
  ghost predicate InStep(data: seq<byte>, x: State, y: State, plan: Plan)
    requires Fits(x, plan) && Fits(y, plan)
  {
    Interchangeable(data, x, y, plan) && SameElsewhere(x, y, plan)
  }

  lemma InStepSelf(data: seq<byte>, x: State, plan: Plan)
    requires Fits(x, plan)
    ensures InStep(data, x, x, plan)
  {
  }

  lemma InStepLater(data: seq<byte>, bytes: seq<byte>, x: State, y: State, plan: Plan)
    requires Fits(x, plan) && Fits(y, plan) && InStep(data, x, y, plan)
    ensures InStep(data + bytes, x, y, plan)
  {
    forall more: seq<byte> ensures DecodeMcu(data + bytes + more, x, plan) == DecodeMcu(data + bytes + more, y, plan) {
      assert data + bytes + more == data + (bytes + more);
    }
  }

  lemma InStepNow(data: seq<byte>, x: State, y: State, plan: Plan)
    requires Fits(x, plan) && Fits(y, plan) && InStep(data, x, y, plan)
    ensures DecodeMcu(data, x, plan) == DecodeMcu(data, y, plan)
  {
    assert data + [] == data;
    assert DecodeMcu(data + [], x, plan) == DecodeMcu(data + [], y, plan);
  }

  lemma OnlyItsBlocks(data: seq<byte>, x: State, plan: Plan, i: nat)
    requires Fits(x, plan) && i < plan.blocks && x.m < |plan.mcus| && !In(plan.mcus[x.m], i)
    ensures DecodeMcu(data, x, plan).0.img[i] == x.img[i]
  {
    var y := if Seq.RestartDue(x.perm, Restarts(plan)) then ProcessRestart(data, x, plan).0 else x;
    assert Inside(plan.mcus[x.m], |y.img|, |y.perm.last|);
    EachFrame(plan.kind, Concrete(data), WorkOf(y), plan.mcus[x.m], y.img, i);
    hide EachBlock, Concrete, In, ProcessRestart;
  }

  lemma InStepStuck(data: seq<byte>, x: State, y: State, plan: Plan)
    requires Fits(x, plan) && Fits(y, plan) && InStep(data, x, y, plan) && !DecodeMcu(data, x, plan).1
    ensures InStep(data, DecodeMcu(data, x, plan).0, y, plan)
  {
    var x' := DecodeMcu(data, x, plan).0;
    forall more: seq<byte> ensures DecodeMcu(data + more, x', plan) == DecodeMcu(data + more, y, plan) {
      McuResumes(data, more, x, plan);
    }
    forall i | 0 <= i < plan.blocks && (x.m < |plan.mcus| ==> !In(plan.mcus[x.m], i)) ensures x'.img[i] == y.img[i] {
      if x.m < |plan.mcus| { OnlyItsBlocks(data, x, plan, i); }
    }
    hide DecodeMcu;
  }

  /** The session stands where an unbroken run stands that has completed as many MCUs. */
  ghost predicate OnTrack(x0: State, s: Session, plan: Plan)
    requires Fits(x0, plan) && Fits(s.x, plan)
  {
    s.x.m >= x0.m &&
    var u := Unbroken(s.data, x0, s.x.m - x0.m, plan);
    u.Some? && InStep(s.data, s.x, u.value, plan)
  }

  /** And in exactly the same state. */
  ghost predicate Caught(x0: State, s: Session, plan: Plan)
    requires Fits(x0, plan) && Fits(s.x, plan)
  {
    s.x.m >= x0.m && Unbroken(s.data, x0, s.x.m - x0.m, plan) == Some(s.x)
  }

  lemma TrackFrom(x0: State, data: seq<byte>, x: State, n: nat, y: State, plan: Plan)
    requires Fits(x0, plan) && Fits(x, plan) && Fits(y, plan) && x.m == x0.m + n
    requires Unbroken(data, x0, n, plan) == Some(y) && InStep(data, x, y, plan)
    ensures OnTrack(x0, Session(data, x), plan)
    ensures x == y ==> Caught(x0, Session(data, x), plan)
  {
    hide Unbroken, InStep, Fits;
  }

  /** How many MCUs are complete, and where the unbroken run stands then. */
  lemma TrackTo(x0: State, s: Session, plan: Plan) returns (n: nat, y: State)
    requires Fits(x0, plan) && Fits(s.x, plan) && OnTrack(x0, s, plan)
    ensures Fits(y, plan) && s.x.m == x0.m + n
    ensures Unbroken(s.data, x0, n, plan) == Some(y) && InStep(s.data, s.x, y, plan)
  {
    hide Unbroken, InStep, Fits;
    n := s.x.m - x0.m;
    y := Unbroken(s.data, x0, n, plan).value;
  }

  lemma StepDeliver(x0: State, s: Session, bytes: seq<byte>, plan: Plan)
    requires Fits(x0, plan) && Fits(s.x, plan) && OnTrack(x0, s, plan)
    ensures OnTrack(x0, Session(s.data + bytes, s.x), plan)
  {
    hide *;
    var n, y := TrackTo(x0, s, plan);
    UnbrokenStable(s.data, bytes, x0, n, plan);
    InStepLater(s.data, bytes, s.x, y, plan);
    TrackFrom(x0, s.data + bytes, s.x, n, y, plan);
  }

  lemma UnbrokenNext(data: seq<byte>, x0: State, n: nat, y: State, plan: Plan)
    requires Fits(x0, plan) && Fits(y, plan) && Unbroken(data, x0, n, plan) == Some(y)
    ensures DecodeMcu(data, y, plan).1 ==> Unbroken(data, x0, n + 1, plan) == Some(DecodeMcu(data, y, plan).0)
  {
    hide DecodeMcu;
  }

  lemma StepAsk(x0: State, s: Session, plan: Plan)
    requires Fits(x0, plan) && Fits(s.x, plan) && OnTrack(x0, s, plan)
    ensures var r := DecodeMcu(s.data, s.x, plan);
      OnTrack(x0, Session(s.data, r.0), plan) && (r.1 ==> Caught(x0, Session(s.data, r.0), plan))
  {
    hide *;
    var n, y := TrackTo(x0, s, plan);
    var r := DecodeMcu(s.data, s.x, plan);
    InStepNow(s.data, s.x, y, plan);
    if r.1 {
      UnbrokenNext(s.data, x0, n, y, plan);
      InStepSelf(s.data, r.0, plan);
      TrackFrom(x0, s.data, r.0, n + 1, r.0, plan);
    } else {
      InStepStuck(s.data, s.x, y, plan);
      TrackFrom(x0, s.data, r.0, n, y, plan);
    }
  }

  /** Main result.  However the input is cut into deliveries, and however calls and suspensions fall between
      them, restarts and resynchronisation included: outside the MCU being worked on the image is that
      of an unbroken run; after a completed call so are the whole image and the whole permanent state,
      and after a suspended one they cannot be told from them. */
  lemma {:induction false} ChunksDoNotMatter(x0: State, es: seq<Seq.Event>, plan: Plan)
    requires Fits(x0, plan)
    ensures var s := After(Session([], x0), es, plan);
      && OnTrack(x0, s, plan)
      && (es != [] && s.x.m > After(Session([], x0), es[..|es| - 1], plan).x.m ==> Caught(x0, s, plan))
  {
    if es == [] {
      InStepSelf([], x0, plan);
    } else {
      var es', e := es[..|es| - 1], es[|es| - 1];
      ChunksDoNotMatter(x0, es', plan);
      var s := After(Session([], x0), es', plan);
      hide OnTrack, Caught, DecodeMcu, Fits;
      match e
      case Deliver(bytes) => StepDeliver(x0, s, bytes, plan);
      case Ask => StepAsk(x0, s, plan);
    }
  }

  // ---------------------------------------------------------------- between restarts

  /** No restart falls due during the next n MCUs. */
  predicate NoRestart(x: State, n: nat, plan: Plan) {
    plan.restartInterval == 0 || n <= x.perm.toGo
  }

  function Segment(data: seq<byte>, x: State, n: nat, plan: Plan): Option<(Work<Register>, seq<Block>)>
    requires Fits(x, plan) && x.m + n <= |plan.mcus|
  {
    Mcus(plan.kind, Concrete(data), IsShort, WorkOf(x), plan.mcus, x.m, n, x.img)
  }

  /** The unbroken run reached what the scan of those MCUs reaches. */
  ghost predicate Reached(u: Option<State>, r: Option<(Work<Register>, seq<Block>)>, x: State, n: nat, plan: Plan) {
    && (u.Some? <==> r.Some?)
    && (u.Some? ==> r.value == (WorkOf(u.value), u.value.img))
    && (u.Some? ==> u.value.perm.nextRst == x.perm.nextRst)
    && (u.Some? && plan.restartInterval != 0 ==> u.value.perm.toGo == x.perm.toGo - n)
  }

  /** The MCUs up to the next restart, or all if there are none, are one scan of their blocks. */
  lemma {:induction false} SegmentIsScan(data: seq<byte>, x: State, n: nat, plan: Plan)
    requires Fits(x, plan) && x.m + n <= |plan.mcus| && NoRestart(x, n, plan)
    ensures Reached(Unbroken(data, x, n, plan), Segment(data, x, n, plan), x, n, plan)
  {
    hide *;
    if n == 0 {
      SegmentStart(data, x, plan);
    } else {
      LessIsFine(x, n, plan);
      SegmentIsScan(data, x, n - 1, plan);
      SegmentStep(data, x, n, plan);
    }
  }

  lemma SegmentStart(data: seq<byte>, x: State, plan: Plan)
    requires Fits(x, plan)
    ensures Reached(Unbroken(data, x, 0, plan), Segment(data, x, 0, plan), x, 0, plan)
  {
  }

  lemma LessIsFine(x: State, n: nat, plan: Plan)
    requires n > 0 && NoRestart(x, n, plan)
    ensures NoRestart(x, n - 1, plan)
  {
  }

  lemma SegmentStep(data: seq<byte>, x: State, n: nat, plan: Plan)
    requires Fits(x, plan) && x.m + n <= |plan.mcus| && n > 0 && NoRestart(x, n, plan)
    requires Reached(Unbroken(data, x, n - 1, plan), Segment(data, x, n - 1, plan), x, n - 1, plan)
    ensures Reached(Unbroken(data, x, n, plan), Segment(data, x, n, plan), x, n, plan)
  {
    hide *;
    var u, r := Unbroken(data, x, n - 1, plan), Segment(data, x, n - 1, plan);
    UnbrokenSnoc(data, x, n, plan);
    if u.None? {
      NothingReached(u, r, x, n, plan);
      SegmentSnoc(data, x, n, plan);
    } else {
      MoreToGo(u.value, r, x, n, plan);
      NotDue(data, u.value, plan);
      SegmentSnoc(data, x, n, plan);
      OneMoreReached(u.value, r, DecodeMcu(data, u.value, plan),
          OneMcu(plan.kind, Concrete(data), IsShort, WorkOf(u.value), plan.mcus[u.value.m], u.value.img), x, n, plan);
    }
  }

  lemma UnbrokenSnoc(data: seq<byte>, x: State, n: nat, plan: Plan)
    requires Fits(x, plan) && n > 0
    ensures match Unbroken(data, x, n - 1, plan)
      case None => Unbroken(data, x, n, plan).None?
      case Some(y) =>
        Unbroken(data, x, n, plan) == if DecodeMcu(data, y, plan).1 then Some(DecodeMcu(data, y, plan).0) else None
  {
    hide DecodeMcu, Fits;
  }

  lemma SegmentSnoc(data: seq<byte>, x: State, n: nat, plan: Plan)
    requires Fits(x, plan) && x.m + n <= |plan.mcus| && n > 0
    ensures match Segment(data, x, n - 1, plan)
      case None => Segment(data, x, n, plan).None?
      case Some((w, img)) =>
        && Inside(plan.mcus[x.m + n - 1], |img|, |w.last|)
        && var r := OneMcu(plan.kind, Concrete(data), IsShort, w, plan.mcus[x.m + n - 1], img);
        Segment(data, x, n, plan) == match r.out case None => None case Some(w2) => Some((w2, r.img))
  {
    hide OneMcu, Concrete, Mcus;
    McusSnoc(plan.kind, Concrete(data), IsShort, WorkOf(x), plan.mcus, x.m, n, x.img);
  }

  lemma NothingReached(u: Option<State>, r: Option<(Work<Register>, seq<Block>)>, x: State, n: nat, plan: Plan)
    requires n > 0 && Reached(u, r, x, n - 1, plan) && u.None?
    ensures r.None? && Reached(None, None, x, n, plan)
  {
  }

  lemma ReachedParts(y: State, r: Option<(Work<Register>, seq<Block>)>, x: State, n: nat, plan: Plan)
    requires Reached(Some(y), r, x, n, plan)
    ensures r == Some((WorkOf(y), y.img)) && y.perm.nextRst == x.perm.nextRst
    ensures plan.restartInterval != 0 ==> y.perm.toGo == x.perm.toGo - n
  {
    hide WorkOf;
  }

  lemma MoreToGo(y: State, r: Option<(Work<Register>, seq<Block>)>, x: State, n: nat, plan: Plan)
    requires n > 0 && NoRestart(x, n, plan) && Reached(Some(y), r, x, n - 1, plan)
    ensures r == Some((WorkOf(y), y.img)) && (plan.restartInterval != 0 ==> y.perm.toGo > 0)
  {
  }

  lemma OneMoreReached(y: State, r: Option<(Work<Register>, seq<Block>)>, z: (State, bool), a: Attempted<Register>,
      x: State, n: nat, plan: Plan)
    requires n > 0 && Reached(Some(y), r, x, n - 1, plan) && z.1 == a.out.Some?
    requires z.1 ==> WorkOf(z.0) == a.out.value && z.0.img == a.img && z.0.perm.nextRst == y.perm.nextRst
    requires z.1 && plan.restartInterval != 0 ==> z.0.perm.toGo == y.perm.toGo - 1
    ensures Reached(if z.1 then Some(z.0) else None, match a.out case None => None case Some(w2) => Some((w2, a.img)),
        x, n, plan)
  {
  }

  lemma NotDue(data: seq<byte>, y: State, plan: Plan)
    requires Fits(y, plan) && y.m < |plan.mcus| && (plan.restartInterval != 0 ==> y.perm.toGo > 0)
    ensures Inside(plan.mcus[y.m], |y.img|, |y.perm.last|)
    ensures var r := OneMcu(plan.kind, Concrete(data), IsShort, WorkOf(y), plan.mcus[y.m], y.img);
      var z := DecodeMcu(data, y, plan);
      && z.1 == r.out.Some?
      && (z.1 ==> WorkOf(z.0) == r.out.value && z.0.img == r.img && z.0.perm.nextRst == y.perm.nextRst)
      && (z.1 && plan.restartInterval != 0 ==> z.0.perm.toGo == y.perm.toGo - 1)
  {
    hide OneMcu, Concrete;
  }

  /** After the last MCU the image is that of the unbroken run. */
  lemma SameAtEnd(data: seq<byte>, x: State, y: State, plan: Plan)
    requires Fits(x, plan) && Fits(y, plan) && InStep(data, x, y, plan) && x.m == |plan.mcus|
    ensures x.img == y.img
  {
    hide Interchangeable, PlanOk;
  }

  lemma FinishedRun(x0: State, es: seq<Seq.Event>, plan: Plan) returns (n: nat, y: State)
    requires Fits(x0, plan) && After(Session([], x0), es, plan).x.m == |plan.mcus|
    ensures var s := After(Session([], x0), es, plan);
      x0.m + n == |plan.mcus| && Unbroken(s.data, x0, n, plan) == Some(y) && s.x.img == y.img
  {
    hide *;
    var s := After(Session([], x0), es, plan);
    assert OnTrack(x0, s, plan) by { ChunksDoNotMatter(x0, es, plan); }
    n, y := TrackTo(x0, s, plan);
    SameAtEnd(s.data, s.x, y, plan);
  }

  /** A scan without a restart, in whatever pieces its data arrived: once every MCU is complete the image is
      that of the scan run on all of the data at once. */
  lemma ScanInPieces(x0: State, es: seq<Seq.Event>, plan: Plan)
    requires Fits(x0, plan) && NoRestart(x0, |plan.mcus| - x0.m, plan)
    requires After(Session([], x0), es, plan).x.m == |plan.mcus|
    ensures var s := After(Session([], x0), es, plan);
      var r := Segment(s.data, x0, |plan.mcus| - x0.m, plan);
      r.Some? && s.x.img == r.value.1
  {
    hide *;
    var n, y := FinishedRun(x0, es, plan);
    var data := After(Session([], x0), es, plan).data;
    SegmentIsScan(data, x0, n, plan);
    ReachedParts(y, Segment(data, x0, n, plan), x0, n, plan);
  }
}
