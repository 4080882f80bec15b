/** decode_mcu of the sequential Huffman decoder: one MCU or nothing, restarts included. */
module SequentialMcu {
  import opened Wrappers
  import opened Bits
  import opened HuffTable
  import opened BitStream
  import opened HuffDecode
  import opened BitSources
  import opened Coefficients
  import opened Zigzag
  import opened Markers

  /** How to decode one block of the MCU. */
  datatype BlockPlan = BlockPlan(dc: Table, ac: Table, ci: nat, dcNeeded: bool, acNeeded: bool)

  /** What start_pass fixes for the scan. */
  datatype ScanPlan = ScanPlan(blocks: seq<BlockPlan>, comps: nat, restartInterval: nat)

  // ---------------------------------------------------------------- the blocks of one MCU

  function DecodeBlock<S>(src: BitSource<S>, s: S, last: seq<int>, plan: BlockPlan, blk: nat): Attempt<(S, seq<int>)> {
    match DecodeDiff(src, s, plan.dc)
    case None => Attempt([], None)
    case Some((diff, s1)) =>
      var a := DecodeAc(src, s1, plan.ac, plan.acNeeded, blk, 1);
      if plan.dcNeeded && plan.ci < |last| then
        var dc := diff + last[plan.ci];
        Before([Write(blk, 0, Wrap16(dc))], With(a, last[plan.ci := dc]))
      else
        With(a, last)
  }

  function With<S>(a: Attempt<S>, last: seq<int>): Attempt<(S, seq<int>)> {
    Attempt(a.writes, if a.out.Some? then Some((a.out.value, last)) else None)
  }

  function DecodeBlocks<S>(src: BitSource<S>, s: S, last: seq<int>, plans: seq<BlockPlan>, b: nat): Attempt<(S,
      seq<int>)>
    decreases |plans| - b
  {
    if b >= |plans| then Attempt([], Some((s, last)))
    else
      var a := DecodeBlock(src, s, last, plans[b], b);
      match a.out
      case None => a
      case Some((s1, last1)) => Before(a.writes, DecodeBlocks(src, s1, last1, plans, b + 1))
  }

  ghost function Paired<S(!new), T(!new)>(rel: (S, T) -> bool): ((S, seq<int>), (T, seq<int>)) -> bool {
    (x: (S, seq<int>), y: (T, seq<int>)) => rel(x.0, y.0) && x.1 == y.1
  }

  lemma BlockSimulated<S(!new), T(!new)>(a: BitSource<S>, b: BitSource<T>, rel: (S, T) -> bool, s: S, t: T,
      last: seq<int>, plan: BlockPlan, blk: nat)
    requires Simulates(a, b, rel) && rel(s, t)
    ensures Extends(DecodeBlock(a, s, last, plan, blk), DecodeBlock(b, t, last, plan, blk), Paired(rel))
  {
    DiffSimulated(a, b, rel, s, t, plan.dc);
    if DecodeDiff(a, s, plan.dc).Some? {
      var (_, s1) := DecodeDiff(a, s, plan.dc).value;
      var (_, t1) := DecodeDiff(b, t, plan.dc).value;
      AcSimulated(a, b, rel, s1, t1, plan.ac, plan.acNeeded, blk, 1);
    }
  }

  lemma {:induction false} BlocksSimulated<S(!new), T(!new)>(a: BitSource<S>, b: BitSource<T>, rel: (S, T) -> bool,
      s: S, t: T, last: seq<int>, plans: seq<BlockPlan>, i: nat)
    requires Simulates(a, b, rel) && rel(s, t)
    ensures Extends(DecodeBlocks(a, s, last, plans, i), DecodeBlocks(b, t, last, plans, i), Paired(rel))
    decreases |plans| - i
  {
    if i < |plans| {
      BlockSimulated(a, b, rel, s, t, last, plans[i], i);
      var x, y := DecodeBlock(a, s, last, plans[i], i), DecodeBlock(b, t, last, plans[i], i);
      if x.out.Some? {
        BlocksSimulated(a, b, rel, x.out.value.0, y.out.value.0, x.out.value.1, plans, i + 1);
      } else if y.out.Some? {
        assert y.writes <= DecodeBlocks(b, t, last, plans, i).writes;
      }
    }
  }

  // ---------------------------------------------------------------- permanent state

  /** Everything that survives from one call to the next. */
  datatype Saved = Saved(at: Point, short: bool, buf: int, left: nat, last: seq<int>, toGo: nat, nextRst: nat)

  type Perm = p: Saved | p.left <= 32 && p.nextRst < 8 witness Saved(Point(0, 0, 0), false, 0, 0, [], 0, 0)

  function RegisterOf(p: Perm): Register {
    BitState(p.at.pos, p.at.marker, p.short, p.buf, p.left)
  }

  function Retain(p: Perm, st: Register, last: seq<int>): Perm {
    p.(at := Point(st.pos, p.at.discarded, st.marker), short := st.short, buf := st.buf, left := st.left, last := last)
  }

  predicate RestartDue(p: Perm, plan: ScanPlan) {
    plan.restartInterval != 0 && p.toGo == 0
  }

  function ZeroPredictors(n: nat): seq<int> {
    seq(n, _ => 0)
  }

  /** Unused whole bytes of the register count as discarded. */
  function GiveUpRegister(p: Perm): Point {
    p.at.(discarded := p.at.discarded + p.left / 8)
  }

  /** process_restart. */
  function ProcessRestart(data: seq<byte>, p: Perm, plan: ScanPlan): (r: (Perm, bool))
  {
    var r := ReadRestart(data, GiveUpRegister(p), p.nextRst);
    if r.ok then
      (Saved(r.at, p.short && r.at.marker != 0, p.buf, 0, ZeroPredictors(plan.comps), plan.restartInterval,
          (p.nextRst + 1) % 8), true)
    else
      (p.(at := r.at, left := 0), false)
  }

  /** The outcome of one call: permanent state, success, and the stores made. */
  datatype Call = Call(saved: Perm, done: bool, writes: seq<Write>)

  function CountDown(p: Perm): Perm {
    p.(toGo := if p.toGo == 0 then 0xFFFF_FFFF else p.toGo - 1)
  }

  /** The part of decode_mcu after restart processing. */
  function DecodeBody(data: seq<byte>, p: Perm, plan: ScanPlan): Call {
    if p.short then Call(CountDown(p), true, [])
    else
      var a := DecodeBlocks(Concrete(data), RegisterOf(p), p.last, plan.blocks, 0);
      match a.out
      case None => Call(p, false, a.writes)
      case Some((st, last)) => Call(CountDown(Retain(p, st, last)), true, a.writes)
  }

  function DecodeMcu(data: seq<byte>, p: Perm, plan: ScanPlan): Call {
    if RestartDue(p, plan) then
      var (q, ok) := ProcessRestart(data, p, plan);
      if ok then DecodeBody(data, q, plan) else Call(q, false, [])
    else DecodeBody(data, p, plan)
  }

  // ---------------------------------------------------------------- suspension

  lemma SameAttempt(a: Attempt<(Register, seq<int>)>, b: Attempt<(Register, seq<int>)>)
    requires Extends(a, b, Paired(Equal))
    ensures a.writes <= b.writes && (a.out.Some? ==> a == b)
  {
    if a.out.Some? {
      assert Paired(Equal)(a.out.value, b.out.value);
      assert a.out.value.0 == b.out.value.0 && a.out.value.1 == b.out.value.1;
      assert a.out.value == b.out.value;
    }
  }

  lemma BodyResumes(data: seq<byte>, more: seq<byte>, p: Perm, plan: ScanPlan)
    ensures DecodeBody(data, p, plan).done ==> DecodeBody(data + more, p, plan) == DecodeBody(data, p, plan)
    ensures !DecodeBody(data, p, plan).done ==> DecodeBody(data, p, plan).saved == p
    ensures DecodeBody(data, p, plan).writes <= DecodeBody(data + more, p, plan).writes
  {
    if !p.short {
      var st := RegisterOf(p);
      assert Equal(st, st);
      ConcreteStable(data, more);
      BlocksSimulated(Concrete(data), Concrete(data + more), Equal, st, st, p.last, plan.blocks, 0);
      SameAttempt(DecodeBlocks(Concrete(data), st, p.last, plan.blocks, 0),
                  DecodeBlocks(Concrete(data + more), st, p.last, plan.blocks, 0));
    }
  }

  lemma RestartResumes(data: seq<byte>, more: seq<byte>, p: Perm, plan: ScanPlan)
    ensures ProcessRestart(data, p, plan).1 ==> ProcessRestart(data + more, p, plan) == ProcessRestart(data, p, plan)
    ensures !ProcessRestart(data, p, plan).1 ==>
              var q := ProcessRestart(data, p, plan).0;
              && ProcessRestart(data + more, p, plan) == ProcessRestart(data + more, q, plan)
              && q.toGo == p.toGo
  {
    ReadRestartResumes(data, more, GiveUpRegister(p), p.nextRst);
    if !ProcessRestart(data, p, plan).1 {
      var q := ProcessRestart(data, p, plan).0;
      assert GiveUpRegister(q) == q.at;
    }
  }

  /** All or nothing.  A call that completes is unaffected by input that had not arrived; a call
      that suspends loses nothing: repeating it from the state it left, with more input, gives
      exactly what one call with all that input would have given, and the stores it abandoned are
      the first of those the repeated call makes.  Without a restart in progress the state it
      leaves is the state it found. */
  lemma McuResumes(data: seq<byte>, more: seq<byte>, p: Perm, plan: ScanPlan)
    ensures var r, whole := DecodeMcu(data, p, plan), DecodeMcu(data + more, p, plan);
      if r.done then whole == r
      else DecodeMcu(data + more, r.saved, plan) == whole && r.writes <= whole.writes
    ensures !DecodeMcu(data, p, plan).done && !RestartDue(p, plan) ==> DecodeMcu(data, p, plan).saved == p
  {
    if RestartDue(p, plan) {
      RestartResumes(data, more, p, plan);
      var (q, ok) := ProcessRestart(data, p, plan);
      if ok {
        BodyResumes(data, more, q, plan);
      }
    } else {
      BodyResumes(data, more, p, plan);
    }
  }

  // ---------------------------------------------------------------- whole sessions

  /** The application delivers bytes or asks for one MCU. */
  datatype Event = Deliver(bytes: seq<byte>) | Ask

  datatype Session = Session(data: seq<byte>, saved: Perm, mcus: seq<seq<Write>>)

  function Step(s: Session, e: Event, plan: ScanPlan): Session {
    match e
    case Deliver(bytes) => s.(data := s.data + bytes)
    case Ask =>
      var r := DecodeMcu(s.data, s.saved, plan);
      if r.done then Session(s.data, r.saved, s.mcus + [r.writes]) else s.(saved := r.saved)
  }

  function Run(s: Session, es: seq<Event>, plan: ScanPlan): Session {
    if es == [] then s else Step(Run(s, es[..|es| - 1], plan), es[|es| - 1], plan)
  }

  /** n MCUs from an unbroken buffer; None if it is too short for that. */
  function Unbroken(data: seq<byte>, p: Perm, n: nat, plan: ScanPlan): Option<(Perm, seq<seq<Write>>)> {
    if n == 0 then Some((p, []))
    else
      match Unbroken(data, p, n - 1, plan)
      case None => None
      case Some((q, ms)) =>
        var r := DecodeMcu(data, q, plan);
        if r.done then Some((r.saved, ms + [r.writes])) else None
  }

  lemma {:induction false} UnbrokenStable(data: seq<byte>, more: seq<byte>, p: Perm, n: nat, plan: ScanPlan)
    requires Unbroken(data, p, n, plan).Some?
    ensures Unbroken(data + more, p, n, plan) == Unbroken(data, p, n, plan)
  {
    hide DecodeMcu;
    if n > 0 {
      UnbrokenStable(data, more, p, n - 1, plan);
      McuResumes(data, more, Unbroken(data, p, n - 1, plan).value.0, plan);
    }
  }

  /** n MCUs and then k more. */
  lemma {:induction false} UnbrokenAdd(data: seq<byte>, p: Perm, n: nat, k: nat, plan: ScanPlan)
    ensures Unbroken(data, p, n + k, plan) ==
      match Unbroken(data, p, n, plan)
      case None => None
      case Some((q, ms)) =>
        match Unbroken(data, q, k, plan) case None => None case Some((r, more)) => Some((r, ms + more))
  {
    hide DecodeMcu;
    if k > 0 {
      UnbrokenAdd(data, p, n, k - 1, plan);
      var u := Unbroken(data, p, n, plan);
      if u.Some? && Unbroken(data, u.value.0, k - 1, plan).Some? {
        var (q, more) := Unbroken(data, u.value.0, k - 1, plan).value;
        assert u.value.1 + (more + [DecodeMcu(data, q, plan).writes])
            == u.value.1 + more + [DecodeMcu(data, q, plan).writes];
      }
    } else {
      assert forall ms: seq<seq<Write>> :: ms + [] == ms;
    }
  }

  /** Only what the first call does with the state matters. */
  lemma {:induction false} UnbrokenSame(data: seq<byte>, p: Perm, q: Perm, n: nat, plan: ScanPlan)
    requires DecodeMcu(data, p, plan) == DecodeMcu(data, q, plan) && n > 0
    ensures Unbroken(data, p, n, plan) == Unbroken(data, q, n, plan)
  {
    hide DecodeMcu;
    if n > 1 { UnbrokenSame(data, p, q, n - 1, plan); }
  }

  /** From these two states the decoder can never be told apart, whatever else arrives. */
  ghost predicate Interchangeable(data: seq<byte>, p: Perm, q: Perm, plan: ScanPlan) {
    forall more: seq<byte> :: DecodeMcu(data + more, p, plan) == DecodeMcu(data + more, q, plan)
  }

  lemma InterchangeableLater(data: seq<byte>, bytes: seq<byte>, p: Perm, q: Perm, plan: ScanPlan)
    requires Interchangeable(data, p, q, plan)
    ensures Interchangeable(data + bytes, p, q, plan)
  {
    forall more: seq<byte> ensures DecodeMcu(data + bytes + more, p, plan) == DecodeMcu(data + bytes + more, q, plan) {
      assert data + bytes + more == data + (bytes + more);
    }
  }

  lemma StuckIsInterchangeable(data: seq<byte>, p: Perm, q: Perm, plan: ScanPlan)
    requires Interchangeable(data, p, q, plan) && !DecodeMcu(data, p, plan).done
    ensures Interchangeable(data, DecodeMcu(data, p, plan).saved, q, plan)
  {
    forall more: seq<byte>
      ensures DecodeMcu(data + more, DecodeMcu(data, p, plan).saved, plan) == DecodeMcu(data + more, q, plan)
    {
      McuResumes(data, more, p, plan);
    }
  }

  /** Main result.  However the input is cut into deliveries, and however calls and suspensions
      fall between them, restarts and resynchronisation included: the MCUs completed are those of
      one unbroken buffer; after a completed call the whole permanent state (register, input
      position, predictors, counters) is that of the unbroken run; and after a suspended one it
      cannot be told from it. */
  lemma {:induction false} ChunksDoNotMatter(p: Perm, es: seq<Event>, plan: ScanPlan)
    ensures var s := Run(Session([], p, []), es, plan);
      var u := Unbroken(s.data, p, |s.mcus|, plan);
      && u.Some? && u.value.1 == s.mcus
      && Interchangeable(s.data, s.saved, u.value.0, plan)
      && (es != [] && es[|es| - 1].Ask? && |s.mcus| > |Run(Session([], p, []), es[..|es| - 1], plan).mcus| ==>
          s.saved == u.value.0)
  {
    if es != [] {
      var es', e := es[..|es| - 1], es[|es| - 1];
      ChunksDoNotMatter(p, es', plan);
      var s := Run(Session([], p, []), es', plan);
      OneEvent(p, s, e, plan);
    }
  }

  /** The session stands where the unbroken run stands. */
  ghost predicate OnTrack(p: Perm, s: Session, q: Perm, plan: ScanPlan) {
    Unbroken(s.data, p, |s.mcus|, plan) == Some((q, s.mcus)) && Interchangeable(s.data, s.saved, q, plan)
  }

  lemma OneDelivery(p: Perm, s: Session, bytes: seq<byte>, q: Perm, plan: ScanPlan)
    requires OnTrack(p, s, q, plan)
    ensures OnTrack(p, s.(data := s.data + bytes), q, plan)
  {
    hide Interchangeable, DecodeMcu;
    UnbrokenStable(s.data, bytes, p, |s.mcus|, plan);
    InterchangeableLater(s.data, bytes, s.saved, q, plan);
  }

  lemma OneCall(p: Perm, s: Session, q: Perm, plan: ScanPlan) returns (q': Perm)
    requires OnTrack(p, s, q, plan)
    ensures var r := DecodeMcu(s.data, s.saved, plan);
      if r.done then q' == r.saved && OnTrack(p, Session(s.data, r.saved, s.mcus + [r.writes]), q', plan)
      else q' == q && OnTrack(p, s.(saved := r.saved), q', plan)
  {
    hide Interchangeable, DecodeMcu, Unbroken;
    var r := DecodeMcu(s.data, s.saved, plan);
    InterchangeableNow(s.data, s.saved, q, plan);
    if r.done {
      UnbrokenSnoc(s.data, p, s.mcus, q, plan);
      InterchangeableSelf(s.data, r.saved, plan);
      q' := r.saved;
    } else {
      StuckIsInterchangeable(s.data, s.saved, q, plan);
      q' := q;
    }
  }

  lemma OneEvent(p: Perm, s: Session, e: Event, plan: ScanPlan)
    requires var u := Unbroken(s.data, p, |s.mcus|, plan);
      u.Some? && u.value.1 == s.mcus && Interchangeable(s.data, s.saved, u.value.0, plan)
    ensures var s' := Step(s, e, plan);
      var u := Unbroken(s'.data, p, |s'.mcus|, plan);
      && u.Some? && u.value.1 == s'.mcus && Interchangeable(s'.data, s'.saved, u.value.0, plan)
      && (e.Ask? && |s'.mcus| > |s.mcus| ==> s'.saved == u.value.0)
  {
    hide Interchangeable, DecodeMcu, Unbroken;
    var q := Unbroken(s.data, p, |s.mcus|, plan).value.0;
    assert OnTrack(p, s, q, plan);
    match e
    case Deliver(bytes) => OneDelivery(p, s, bytes, q, plan);
    case Ask => var q' := OneCall(p, s, q, plan);
  }

  lemma UnbrokenSnoc(data: seq<byte>, p: Perm, ms: seq<seq<Write>>, q: Perm, plan: ScanPlan)
    requires Unbroken(data, p, |ms|, plan) == Some((q, ms)) && DecodeMcu(data, q, plan).done
    ensures var r := DecodeMcu(data, q, plan);
      |ms + [r.writes]| == |ms| + 1 && Unbroken(data, p, |ms| + 1, plan) == Some((r.saved, ms + [r.writes]))
  {
  }

  lemma InterchangeableSelf(data: seq<byte>, p: Perm, plan: ScanPlan)
    ensures Interchangeable(data, p, p, plan)
  {
  }

  lemma InterchangeableNow(data: seq<byte>, p: Perm, q: Perm, plan: ScanPlan)
    requires Interchangeable(data, p, q, plan)
    ensures DecodeMcu(data, p, plan) == DecodeMcu(data, q, plan)
  {
    assert data + [] == data;
    assert DecodeMcu(data + [], p, plan) == DecodeMcu(data + [], q, plan);
  }

  // ---------------------------------------------------------------- the coefficient arrays

  /** The coefficient arrays, one element for the blocks of each MCU: a call stores into those of the
      MCU it works on, whether or not it completes. */
  function StoreStep(coefs: seq<seq<int>>, s: Session, e: Event, plan: ScanPlan): (r: seq<seq<int>>)
    ensures |r| == |coefs|
  {
    var m := |s.mcus|;
    if e.Ask? && m < |coefs| then coefs[m := Apply(DecodeMcu(s.data, s.saved, plan).writes, coefs[m])] else coefs
  }

  function StoreRun(coefs: seq<seq<int>>, p: Perm, es: seq<Event>, plan: ScanPlan): (r: seq<seq<int>>)
    ensures |r| == |coefs|
  {
    if es == [] then coefs
    else StoreStep(StoreRun(coefs, p, es[..|es| - 1], plan), Run(Session([], p, []), es[..|es| - 1], plan),
        es[|es| - 1], plan)
  }

  /** Whatever arrives, the next call begins with these stores. */
  ghost predicate Ahead(part: seq<Write>, data: seq<byte>, p: Perm, plan: ScanPlan) {
    forall more: seq<byte> :: part <= DecodeMcu(data + more, p, plan).writes
  }

  lemma AheadNow(part: seq<Write>, data: seq<byte>, p: Perm, plan: ScanPlan)
    requires Ahead(part, data, p, plan)
    ensures part <= DecodeMcu(data, p, plan).writes
  {
    assert data + [] == data;
  }

  lemma AheadLater(part: seq<Write>, data: seq<byte>, bytes: seq<byte>, p: Perm, plan: ScanPlan)
    requires Ahead(part, data, p, plan)
    ensures Ahead(part, data + bytes, p, plan)
  {
    forall more: seq<byte> ensures part <= DecodeMcu(data + bytes + more, p, plan).writes {
      assert data + bytes + more == data + (bytes + more);
    }
  }

  lemma AheadOfRedo(data: seq<byte>, p: Perm, plan: ScanPlan)
    requires !DecodeMcu(data, p, plan).done
    ensures var r := DecodeMcu(data, p, plan); Ahead(r.writes, data, r.saved, plan)
  {
    forall more: seq<byte> ensures DecodeMcu(data, p, plan).writes <= DecodeMcu(data + more,
        DecodeMcu(data, p, plan).saved, plan).writes {
      McuResumes(data, more, p, plan);
    }
  }

  /** What the arrays hold: completed MCUs in full, the MCU being worked on perhaps in part, and nothing
      beyond it. */
  ghost predicate Stored(out: seq<seq<int>>, coefs: seq<seq<int>>, s: Session, part: seq<Write>, plan: ScanPlan) {
    && |out| == |coefs|
    && Ahead(part, s.data, s.saved, plan)
    && forall m :: 0 <= m < |out| ==>
         out[m] == if m < |s.mcus| then Apply(s.mcus[m], coefs[m]) else if m == |s.mcus| then Apply(part, coefs[m])
             else coefs[m]
  }

  lemma StoredNext(out: seq<seq<int>>, coefs: seq<seq<int>>, s: Session, part: seq<Write>, e: Event, plan: ScanPlan)
    returns (part': seq<Write>)
    requires Stored(out, coefs, s, part, plan)
    ensures Stored(StoreStep(out, s, e, plan), coefs, Step(s, e, plan), part', plan)
  {
    hide DecodeMcu, Apply, Ahead;
    match e
    case Deliver(bytes) =>
      AheadLater(part, s.data, bytes, s.saved, plan);
      part' := part;
    case Ask =>
      var r := DecodeMcu(s.data, s.saved, plan);
      AheadNow(part, s.data, s.saved, plan);
      if |s.mcus| < |coefs| { RedoOverwrites(part, r.writes, coefs[|s.mcus|]); }
      if r.done {
        NothingAhead(s.data, r.saved, plan);
        forall base: seq<int> ensures Apply([], base) == base { NothingApplied(base); }
        part' := [];
      } else {
        AheadOfRedo(s.data, s.saved, plan);
        part' := r.writes;
      }
  }

  lemma NothingAhead(data: seq<byte>, p: Perm, plan: ScanPlan)
    ensures Ahead([], data, p, plan)
  {
  }

  lemma NothingApplied(base: seq<int>)
    ensures Apply([], base) == base
  {
  }

  lemma {:induction false} StoredAfter(p: Perm, es: seq<Event>, coefs: seq<seq<int>>, plan: ScanPlan)
    returns (part: seq<Write>)
    ensures Stored(StoreRun(coefs, p, es, plan), coefs, Run(Session([], p, []), es, plan), part, plan)
  {
    hide Stored;
    if es == [] {
      part := [];
      NoneStored(p, coefs, plan);
    } else {
      var es' := es[..|es| - 1];
      part := StoredAfter(p, es', coefs, plan);
      part := StoredNext(StoreRun(coefs, p, es', plan), coefs, Run(Session([], p, []), es', plan), part, es[|es| - 1],
          plan);
    }
  }

  lemma NoneStored(p: Perm, coefs: seq<seq<int>>, plan: ScanPlan)
    ensures Stored(coefs, coefs, Session([], p, []), [], plan)
  {
    NothingAhead([], p, plan);
    hide DecodeMcu;
  }

  /** The coefficients of every completed MCU are those of the unbroken run, whatever abandoned attempts
      stored on the way, and those of MCUs not begun are untouched. */
  lemma SuspensionsLeaveNoTrace(p: Perm, es: seq<Event>, coefs: seq<seq<int>>, plan: ScanPlan)
    ensures var s, out := Run(Session([], p, []), es, plan), StoreRun(coefs, p, es, plan);
      var u := Unbroken(s.data, p, |s.mcus|, plan);
      && u.Some? && |u.value.1| == |s.mcus| && |out| == |coefs|
      && forall m :: 0 <= m < |out| && m != |s.mcus| ==>
          out[m] == if m < |s.mcus| then Apply(u.value.1[m], coefs[m]) else coefs[m]
  {
    ChunksDoNotMatter(p, es, plan);
    var part := StoredAfter(p, es, coefs, plan);
    hide Unbroken, Run, StoreRun, Apply, Ahead, Interchangeable;
  }

  // ---------------------------------------------------------------- meaning

  /** A completed MCU holds exactly the coefficients and predictors that the decoding procedures
      of the standard find in the de-stuffed bit stream, and consumes exactly their bits. */
  lemma McuIsStandard(data: seq<byte>, p: Perm, plan: ScanPlan)
    requires !RestartDue(p, plan) && !p.short && DecodeMcu(data, p, plan).done
    ensures var r := DecodeMcu(data, p, plan);
      var a := DecodeBlocks(Abstract(), Rest(data, RegisterOf(p)), p.last, plan.blocks, 0);
      && a.writes == r.writes && a.out.Some? && a.out.value.1 == r.saved.last
      && Denotes(data, RegisterOf(r.saved), a.out.value.0)
  {
    ConcreteRefinesAbstract(data);
    var rel := (st: Register, s: Stream) => Denotes(data, st, s);
    assert rel(RegisterOf(p), Rest(data, RegisterOf(p)));
    BlocksSimulated(Concrete(data), Abstract(), rel, RegisterOf(p), Rest(data, RegisterOf(p)), p.last, plan.blocks, 0);
  }

  // ---------------------------------------------------------------- progress

  lemma {:induction false} AcCompletes<S(!new)>(src: BitSource<S>, live: S -> bool, s: S, tb: Table, needed: bool,
      blk: nat, k: nat)
    requires NeverDry(src, live) && live(s)
    ensures var a := DecodeAc(src, s, tb, needed, blk, k); a.out.Some? && live(a.out.value)
    decreases DCTSIZE2 + 16 - k
  {
    if k < DCTSIZE2 {
      var r := ReadAc(src, s, tb);
      assert !r.NoData? && live(r.rest);
      if r.ZeroRun? {
        AcCompletes(src, live, r.rest, tb, needed, blk, k + 16);
      } else if r.Coef? {
        AcCompletes(src, live, r.rest, tb, needed, blk, k + r.run + 1);
      }
    }
  }

  lemma {:induction false} BlocksComplete<S(!new)>(src: BitSource<S>, live: S -> bool, s: S, last: seq<int>,
      plans: seq<BlockPlan>, b: nat)
    requires NeverDry(src, live) && live(s) && forall i :: 0 <= i < |plans| ==> ForDc(plans[i].dc)
    ensures DecodeBlocks(src, s, last, plans, b).out.Some?
    decreases |plans| - b
  {
    if b < |plans| {
      var d := DecodeDiff(src, s, plans[b].dc);
      assert d.Some? && live(d.value.1);
      AcCompletes(src, live, d.value.1, plans[b].ac, plans[b].acNeeded, b, 1);
      var x := DecodeBlock(src, s, last, plans[b], b).out.value;
      BlocksComplete(src, live, x.0, x.1, plans, b + 1);
    }
  }

  /** Once the marker that ends the segment has arrived, no MCU of the segment suspends: zeros
      stand in for whatever is missing. */
  lemma SegmentEndNeverSuspends(data: seq<byte>, p: Perm, plan: ScanPlan)
    requires !RestartDue(p, plan) && Rest(data, RegisterOf(p)).ended
    requires forall i :: 0 <= i < |plan.blocks| ==> ForDc(plan.blocks[i].dc)
    ensures DecodeMcu(data, p, plan).done
  {
    EndedNeverDry(data);
    BlocksComplete(Concrete(data), (st: Register) => Rest(data, st).ended, RegisterOf(p), p.last, plan.blocks, 0);
  }
}
