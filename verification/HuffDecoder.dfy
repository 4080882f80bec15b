/** The sequential entropy decoder object, run in place. */
module HuffDecoder {
  import opened Wrappers
  import opened Bits
  import opened HuffTable
  import opened BitStream
  import opened HuffDecode
  import opened BitReader
  import opened BitSources
  import opened Coefficients
  import opened Zigzag
  import opened Markers
  import opened SequentialMcu

  /** Stores one coefficient in natural order. */
  method PutCoef(coef: array<int>, b: nat, k: nat, val: int)
    requires DCTSIZE2 * (b + 1) <= coef.Length
    modifies coef
    ensures coef[..] == Store(Write(b, k, val), old(coef[..]))
  {
    coef[DCTSIZE2 * b + NaturalOrder(k)] := val;
  }

  /** Receives s bits and extends the sign; false means suspension. */
  method ReceiveExtend(rd: Reader, s: nat) returns (ok: bool, v: int)
    requires rd.bitsLeft <= 32 && 1 <= s <= 15
    modifies rd, rd.cinfo`unreadMarker, rd.cinfo`insufficientData
    ensures ok <==> Receive(rd.cinfo.data, old(rd.State()), s).Some?
    ensures ok ==> var (x, st) := Receive(rd.cinfo.data, old(rd.State()), s).value;
        v == Extend(x, s) && rd.State() == st
    ensures ok ==> rd.bitsLeft <= 32
    ensures !ok ==> unchanged(rd.cinfo) && rd.cinfo.unreadMarker == 0
    ensures rd.cinfo.unreadMarker == 0 ==> unchanged(rd.cinfo)
  {
    v := 0;
    ok := rd.CheckBitBuffer(s);
    if ok {
      v := rd.GetBits(s);
      v := if v < Pow2(s - 1) then v + (1 - Pow2(s)) else v;
    }
  }

  /** HUFF_DECODE with table tb. */
  method ReadCode(rd: Reader, tb: Table) returns (ok: bool, s: byte)
    requires rd.bitsLeft <= 32
    modifies rd, rd.cinfo`unreadMarker, rd.cinfo`insufficientData
    ensures ok <==> ReadSymbol(rd.cinfo.data, old(rd.State()), tb).Some?
    ensures ok ==> rd.bitsLeft <= 32 && ReadSymbol(rd.cinfo.data, old(rd.State()), tb) == Some((s, rd.State()))
    ensures ok && ForDc(tb) ==> s <= 15
    ensures !ok ==> unchanged(rd.cinfo) && rd.cinfo.unreadMarker == 0
    ensures rd.cinfo.unreadMarker == 0 ==> unchanged(rd.cinfo)
  {
    ok, s := rd.HuffDecode(tb);
    if ok && ForDc(tb) {
      SymbolBound(rd.cinfo.data, old(rd.State()), tb);
    }
  }

  /** Section F.2.2.1: one DC difference. */
  method DecodeDcDiff(rd: Reader, tb: Table) returns (ok: bool, diff: int)
    requires rd.bitsLeft <= 32 && ForDc(tb)
    modifies rd, rd.cinfo`unreadMarker, rd.cinfo`insufficientData
    ensures ok <==> DecodeDiff(Concrete(rd.cinfo.data), old(rd.State()), tb).Some?
    ensures ok ==>
        rd.bitsLeft <= 32 && DecodeDiff(Concrete(rd.cinfo.data), old(rd.State()), tb) == Some((diff, rd.State()))
    ensures !ok ==> unchanged(rd.cinfo) && rd.cinfo.unreadMarker == 0
    ensures rd.cinfo.unreadMarker == 0 ==> unchanged(rd.cinfo)
  {
    diff := 0;
    var s;
    ok, s := ReadCode(rd, tb);
    if ok && s != 0 {
      ok, diff := ReceiveExtend(rd, s);
    }
  }

  /** The effect of one AC symbol at zigzag index k. */
  ghost predicate Advanced(step: AcStep<Register>, k: nat, ok: bool, last: bool, k': nat, st: BitState) {
    match step
    case NoData => !ok
    case Eob(s) => ok && last && k' == k && st == s
    case ZeroRun(s) => ok && !last && k' == k + 16 && st == s
    case Coef(r, _, s) => ok && !last && k' == k + r + 1 && st == s
  }

  ghost function Stored(step: AcStep<Register>, needed: bool, b: nat, k: nat, base: seq<int>): seq<int> {
    if step.Coef? && needed then Store(Write(b, k + step.run, Wrap16(step.val)), base) else base
  }

  /** The reading half of one pass of the AC loop: run and size, and the value when size is not 0. */
  method ReadAcCode(rd: Reader, tb: Table)
    returns (ok: bool, r: nat, s: nat, v: int)
    requires rd.bitsLeft <= 32
    modifies rd, rd.cinfo`unreadMarker, rd.cinfo`insufficientData
    ensures match ReadAc(Concrete(rd.cinfo.data), old(rd.State()), tb)
      case NoData => !ok
      case Eob(st) => ok && s == 0 && r != 15 && rd.State() == st
      case ZeroRun(st) => ok && s == 0 && r == 15 && rd.State() == st
      case Coef(run, val, st) => ok && s != 0 && r == run && v == val && rd.State() == st
    ensures ok ==> rd.bitsLeft <= 32
    ensures !ok ==> unchanged(rd.cinfo) && rd.cinfo.unreadMarker == 0
    ensures rd.cinfo.unreadMarker == 0 ==> unchanged(rd.cinfo)
  {
    r, v := 0, 0;
    ok, s := ReadCode(rd, tb);
    if ok {
      r := s / 16;
      s := s % 16;
      if s != 0 {
        ok, v := ReceiveExtend(rd, s);
      }
    }
  }

  /** One pass of the AC loop; last reports an end-of-block code. */
  method AcCode(rd: Reader, tb: Table, needed: bool, b: nat, k: nat, coef: array<int>)
    returns (ok: bool, last: bool, k': nat)
    requires rd.bitsLeft <= 32
    requires DCTSIZE2 * (b + 1) <= coef.Length && k < DCTSIZE2
    modifies rd, rd.cinfo`unreadMarker, rd.cinfo`insufficientData, coef
    ensures Advanced(ReadAc(Concrete(rd.cinfo.data), old(rd.State()), tb), k, ok, last, k', rd.State())
    ensures coef[..] == Stored(ReadAc(Concrete(rd.cinfo.data), old(rd.State()), tb), needed, b, k, old(coef[..]))
    ensures ok ==> rd.bitsLeft <= 32
    ensures !ok ==> unchanged(rd.cinfo) && rd.cinfo.unreadMarker == 0
    ensures rd.cinfo.unreadMarker == 0 ==> unchanged(rd.cinfo)
  {
    hide Store, Wrap16, ReadAc;
    last, k' := false, k;
    var r, s, v;
    ok, r, s, v := ReadAcCode(rd, tb);
    if !ok { return; }
    if s != 0 {
      k' := k' + r;
      if needed {
        PutCoef(coef, b, k', Wrap16(v));
      }
    } else {
      if r != 15 {
        last := true;
        return;
      }
      k' := k' + 15;
    }
    k' := k' + 1;
  }

  /** The AC loop, ws stores in, on course for goal. */
  ghost predicate OnCourse(goal: Attempt<Register>, ws: seq<Write>, last: bool, src: BitSource<Register>, st: BitState,
      tb: Table, needed: bool, b: nat, k: nat) {
    st.left <= 32 &&
    goal == if last then Attempt(ws, Some(st)) else Before(ws, DecodeAc(src, st, tb, needed, b, k))
  }

  /** Section F.2.2.2: the AC coefficients of block b. */
  method DecodeAcCoefs(rd: Reader, tb: Table, needed: bool, b: nat, coef: array<int>)
    returns (ok: bool)
    requires rd.bitsLeft <= 32
    requires DCTSIZE2 * (b + 1) <= coef.Length
    modifies rd, rd.cinfo`unreadMarker, rd.cinfo`insufficientData, coef
    ensures var a := DecodeAc(Concrete(rd.cinfo.data), old(rd.State()), tb, needed, b, 1);
      && coef[..] == Apply(a.writes, old(coef[..]))
      && a.out == if ok then Some(rd.State()) else None
    ensures ok ==> rd.bitsLeft <= 32
    ensures !ok ==> unchanged(rd.cinfo) && rd.cinfo.unreadMarker == 0
    ensures rd.cinfo.unreadMarker == 0 ==> unchanged(rd.cinfo)
  {
    ghost var src := Concrete(rd.cinfo.data);
    ghost var goal := DecodeAc(src, rd.State(), tb, needed, b, 1);
    ghost var ws: seq<Write> := [];
    ghost var base := coef[..];
    var k: nat := 1;
    ok := true;
    var last := false;
    AtStart(src, rd.State(), tb, needed, b, k);
    while k < DCTSIZE2 && !last
      invariant ok && 1 <= k && rd.cinfo.data == old(rd.cinfo.data)
      invariant OnCourse(goal, ws, last, src, rd.State(), tb, needed, b, k)
      invariant coef[..] == Apply(ws, base)
      invariant rd.cinfo.unreadMarker == 0 ==> unchanged(rd.cinfo)
      decreases DCTSIZE2 - k, !last
    {
      ghost var st, k0 := rd.State(), k;
      ok, last, k := AcCode(rd, tb, needed, b, k, coef);
      ghost var ws' := AfterStep(goal, src, st, tb, needed, b, k0, ws, base, ok, last, k, rd.State());
      ws := ws';
      if !ok { return; }
    }
    AtEnd(goal, src, rd.State(), tb, needed, b, k, ws, last);
  }

  lemma AtStart(src: BitSource<Register>, st: Register, tb: Table, needed: bool, b: nat, k: nat)
    ensures OnCourse(DecodeAc(src, st, tb, needed, b, k), [], false, src, st, tb, needed, b, k)
  {
    var a := DecodeAc(src, st, tb, needed, b, k);
    assert [] + a.writes == a.writes;
  }

  lemma AtEnd(goal: Attempt<Register>, src: BitSource<Register>, st: BitState, tb: Table, needed: bool, b: nat, k: nat,
      ws: seq<Write>, last: bool)
    requires OnCourse(goal, ws, last, src, st, tb, needed, b, k) && (last || k >= DCTSIZE2)
    ensures goal == Attempt(ws, Some(st))
  {
    assert ws + [] == ws;
  }

  /** One pass keeps the loop on course. */
  lemma AfterStep(goal: Attempt<Register>, src: BitSource<Register>, st: Register, tb: Table, needed: bool, b: nat,
      k: nat, ws: seq<Write>, base: seq<int>, ok: bool, last: bool, k': nat, st': BitState)
    returns (ws': seq<Write>)
    requires k < DCTSIZE2 && OnCourse(goal, ws, false, src, st, tb, needed, b, k)
    requires Advanced(ReadAc(src, st, tb), k, ok, last, k', st')
    ensures Apply(ws', base) == Stored(ReadAc(src, st, tb), needed, b, k, Apply(ws, base))
    ensures if ok then OnCourse(goal, ws', last, src, st', tb, needed, b, k') else goal == Attempt(ws', None)
  {
    var step := ReadAc(src, st, tb);
    ws' := ws;
    if step.Coef? {
      var w := Keep(needed, b, k + step.run, step.val);
      ws' := ws + w;
      BeforeBefore(ws, w, DecodeAc(src, step.rest, tb, needed, b, k + step.run + 1));
      if needed {
        ApplySnoc(ws, w[0], base);
      } else {
        assert ws' == ws;
      }
    } else {
      assert ws + [] == ws;
    }
  }

  lemma BeforeBefore<S>(a: seq<Write>, b: seq<Write>, x: Attempt<S>)
    ensures Before(a, Before(b, x)) == Before(a + b, x)
  {
  }

  /** The blocks of an MCU, ws stores in and predictors last, on course for goal. */
  ghost predicate BlocksOnCourse(goal: Attempt<(Register, seq<int>)>, ws: seq<Write>, src: BitSource<Register>,
      st: BitState, last: seq<int>, plans: seq<BlockPlan>, b: nat) {
    st.left <= 32 && goal == Before(ws, DecodeBlocks(src, st, last, plans, b))
  }

  lemma BlockDone(goal: Attempt<(Register, seq<int>)>, ws: seq<Write>, src: BitSource<Register>, st: Register,
      last: seq<int>, plans: seq<BlockPlan>, b: nat)
    requires b < |plans| && BlocksOnCourse(goal, ws, src, st, last, plans, b)
    ensures var a := DecodeBlock(src, st, last, plans[b], b);
      if a.out.Some? then BlocksOnCourse(goal, ws + a.writes, src, a.out.value.0, a.out.value.1, plans, b + 1)
      else goal == Attempt(ws + a.writes, None)
  {
    var a := DecodeBlock(src, st, last, plans[b], b);
    if a.out.Some? {
      BeforeBefore(ws, a.writes, DecodeBlocks(src, a.out.value.0, a.out.value.1, plans, b + 1));
    }
  }

  /** The stores of a block: its DC store, if any, then its AC stores. */
  lemma BlockStores(src: BitSource<Register>, st: Register, last: seq<int>, plan: BlockPlan, b: nat, base: seq<int>,
      diff: int, s1: Register)
    requires DecodeDiff(src, st, plan.dc) == Some((diff, s1)) && plan.ci < |last|
    ensures var a := DecodeAc(src, s1, plan.ac, plan.acNeeded, b, 1);
      && Apply(DecodeBlock(src, st, last, plan, b).writes, base) ==
           Apply(a.writes, if plan.dcNeeded then Store(Write(b, 0, Wrap16(diff + last[plan.ci])), base) else base)
      && DecodeBlock(src, st, last, plan, b).out ==
           if a.out.None? then None
           else Some((a.out.value, if plan.dcNeeded then last[plan.ci := diff + last[plan.ci]] else last))
  {
    hide DecodeAc, DecodeDiff, Store, Wrap16;
    var a := DecodeAc(src, s1, plan.ac, plan.acNeeded, b, 1);
    if plan.dcNeeded {
      var w := Write(b, 0, Wrap16(diff + last[plan.ci]));
      ApplyConcat([w], a.writes, base);
      ApplySnoc([], w, base);
      assert [] + [w] == [w];
    }
  }

  /** The DC half of a block. */
  method DecodeDcHalf(rd: Reader, state: seq<int>, plan: BlockPlan, b: nat, coef: array<int>)
    returns (ok: bool, state': seq<int>, ghost diff: int)
    requires ForDc(plan.dc) && plan.ci < |state| && DCTSIZE2 * (b + 1) <= coef.Length && rd.bitsLeft <= 32
    modifies rd, rd.cinfo`unreadMarker, rd.cinfo`insufficientData, coef
    ensures ok <==> DecodeDiff(Concrete(rd.cinfo.data), old(rd.State()), plan.dc).Some?
    ensures !ok ==> coef[..] == old(coef[..])
    ensures ok ==>
              && rd.bitsLeft <= 32 && DecodeDiff(Concrete(rd.cinfo.data), old(rd.State()), plan.dc)
                  == Some((diff, rd.State()))
              && var dc := diff + state[plan.ci];
              && state' == (if plan.dcNeeded then state[plan.ci := dc] else state)
              && coef[..] == if plan.dcNeeded then Store(Write(b, 0, Wrap16(dc)), old(coef[..])) else old(coef[..])
    ensures !ok ==> unchanged(rd.cinfo) && rd.cinfo.unreadMarker == 0
    ensures rd.cinfo.unreadMarker == 0 ==> unchanged(rd.cinfo)
  {
    hide DecodeDiff, Concrete, Store, Wrap16;
    state' := state;
    var s;
    ok, s := DecodeDcDiff(rd, plan.dc);
    diff := s;
    if ok && plan.dcNeeded {
      s := s + state[plan.ci];
      state' := state[plan.ci := s];
      PutCoef(coef, b, 0, Wrap16(s));
    }
  }

  /** One block, with rd and state as working state. */
  method DecodeOneBlock(rd: Reader, state: seq<int>, plan: BlockPlan, b: nat, coef: array<int>)
    returns (ok: bool, state': seq<int>)
    requires ForDc(plan.dc) && plan.ci < |state| && DCTSIZE2 * (b + 1) <= coef.Length && rd.bitsLeft <= 32
    modifies rd, rd.cinfo`unreadMarker, rd.cinfo`insufficientData, coef
    ensures ok ==> rd.bitsLeft <= 32 && |state'| == |state|
    ensures var a := DecodeBlock(Concrete(rd.cinfo.data), old(rd.State()), state, plan, b);
      && coef[..] == Apply(a.writes, old(coef[..]))
      && a.out == if ok then Some((rd.State(), state')) else None
    ensures !ok ==> unchanged(rd.cinfo) && rd.cinfo.unreadMarker == 0
    ensures rd.cinfo.unreadMarker == 0 ==> unchanged(rd.cinfo)
  {
    ghost var src, st, base := Concrete(rd.cinfo.data), rd.State(), coef[..];
    ghost var diff;
    ok, state', diff := DecodeDcHalf(rd, state, plan, b, coef);
    if !ok { return; }
    BlockStores(src, st, state, plan, b, base, diff, rd.State());
    ok := DecodeAcCoefs(rd, plan.ac, plan.acNeeded, b, coef);
  }

  method DecodeAllBlocks(rd: Reader, last: seq<int>, plans: seq<BlockPlan>, coef: array<int>)
    returns (ok: bool, state: seq<int>)
    requires forall b :: 0 <= b < |plans| ==> ForDc(plans[b].dc) && plans[b].ci < |last|
    requires rd.bitsLeft <= 32 && coef.Length >= DCTSIZE2 * |plans|
    modifies rd, rd.cinfo`unreadMarker, rd.cinfo`insufficientData, coef
    ensures ok ==> rd.bitsLeft <= 32 && |state| == |last|
    ensures var a := DecodeBlocks(Concrete(rd.cinfo.data), old(rd.State()), last, plans, 0);
      && coef[..] == Apply(a.writes, old(coef[..]))
      && a.out == if ok then Some((rd.State(), state)) else None
    ensures !ok ==> unchanged(rd.cinfo)
  {
    hide DecodeBlock, Concrete, DecodeDiff, Store, ForDc;
    ghost var src := Concrete(rd.cinfo.data);
    ghost var goal := DecodeBlocks(src, rd.State(), last, plans, 0);
    ghost var ws: seq<Write> := [];
    ghost var base := coef[..];
    assert [] + goal.writes == goal.writes;
    state := last;
    var b := 0;
    while b < |plans|
      invariant 0 <= b <= |plans| && |state| == |last|
      invariant BlocksOnCourse(goal, ws, src, rd.State(), state, plans, b)
      invariant coef[..] == Apply(ws, base)
      invariant rd.cinfo.unreadMarker == 0 ==> unchanged(rd.cinfo)
    {
      BlockDone(goal, ws, src, rd.State(), state, plans, b);
      ghost var a := DecodeBlock(src, rd.State(), state, plans[b], b);
      ApplyConcat(ws, a.writes, base);
      ok, state := DecodeOneBlock(rd, state, plans[b], b, coef);
      if !ok { return; }
      ws := ws + a.writes;
      b := b + 1;
    }
    assert ws + [] == ws;
    ok := true;
  }

  /** Tables validated for their use, and every block's component in the scan. */
  ghost predicate PlanOk(plan: ScanPlan) {
    forall b :: 0 <= b < |plan.blocks| ==> ForDc(plan.blocks[b].dc) && plan.blocks[b].ci < plan.comps
  }

  class EntropyDecoder {
    const cinfo: Decompressor
    // state as of the start of the next MCU
    var getBuffer: int
    var bitsLeft: nat
    var lastDcVal: seq<int>
    var restartsToGo: nat
    // fixed by start_pass
    const plan: ScanPlan

    ghost predicate Valid()
      reads this, cinfo
    {
      bitsLeft <= 32 && cinfo.nextRestartNum < 8 && |lastDcVal| == plan.comps && PlanOk(plan)
    }

    ghost function State(): Perm
      requires Valid()
      reads this, cinfo
    {
      Saved(PointOf(cinfo), cinfo.insufficientData, getBuffer, bitsLeft, lastDcVal, restartsToGo, cinfo.nextRestartNum)
    }

    /** start_pass_huff_decoder, with the tables derived for the scan. */
    constructor (cinfo: Decompressor, plan: ScanPlan)
      requires cinfo.nextRestartNum < 8 && PlanOk(plan)
      modifies cinfo`insufficientData
      ensures Valid() && this.cinfo == cinfo && this.plan == plan
      ensures State()
          == Saved(old(PointOf(cinfo)), false, 0, 0, ZeroPredictors(plan.comps), plan.restartInterval,
          old(cinfo.nextRestartNum))
    {
      this.cinfo, this.plan := cinfo, plan;
      getBuffer, bitsLeft, restartsToGo := 0, 0, plan.restartInterval;
      lastDcVal := seq(plan.comps, _ => 0);
      new;
      cinfo.insufficientData := false;
    }

    /** process_restart; false means suspension. */
    method ProcessRestart() returns (ok: bool)
      requires Valid()
      modifies this, cinfo
      ensures Valid() && cinfo.data == old(cinfo.data)
      ensures (State(), ok) == SequentialMcu.ProcessRestart(cinfo.data, old(State()), plan)
      ensures ok ==> cinfo.insufficientData == (old(cinfo.insufficientData) && cinfo.unreadMarker != 0)
    {
      cinfo.discardedBytes := cinfo.discardedBytes + bitsLeft / 8;
      bitsLeft := 0;
      ok := ReadRestartMarker(cinfo);
      if !ok { return; }
      lastDcVal := seq(plan.comps, _ => 0);
      restartsToGo := plan.restartInterval;
      if cinfo.unreadMarker == 0 {
        cinfo.insufficientData := false;
      }
    }

    /** decode_mcu.  A false result means the source suspended. */
    method DecodeMcu(coef: array<int>) returns (ok: bool)
      requires Valid() && coef.Length >= DCTSIZE2 * |plan.blocks|
      modifies this, cinfo, coef
      ensures Valid() && cinfo.data == old(cinfo.data)
      ensures var r := SequentialMcu.DecodeMcu(cinfo.data, old(State()), plan);
        ok == r.done && State() == r.saved && coef[..] == Apply(r.writes, old(coef[..]))
    {
      if plan.restartInterval != 0 && restartsToGo == 0 {
        ok := ProcessRestart();
        if !ok { return; }
      }
      ok := DecodeAfterRestart(coef);
    }

    method DecodeAfterRestart(coef: array<int>) returns (ok: bool)
      requires Valid() && coef.Length >= DCTSIZE2 * |plan.blocks|
      modifies this, cinfo, coef
      ensures Valid() && cinfo.data == old(cinfo.data)
      ensures var r := DecodeBody(cinfo.data, old(State()), plan);
        ok == r.done && State() == r.saved && coef[..] == Apply(r.writes, old(coef[..]))
    {
      assert Apply([], coef[..]) == coef[..];
      hide DecodeBlocks, Concrete, Apply;
      if !cinfo.insufficientData {
        var rd := new Reader(cinfo, cinfo.srcPos, getBuffer, bitsLeft);
        var state;
        ok, state := DecodeAllBlocks(rd, lastDcVal, plan.blocks, coef);
        if !ok { return; }
        cinfo.srcPos := rd.next;
        getBuffer, bitsLeft := rd.getBuffer, rd.bitsLeft;
        lastDcVal := state;
      }
      restartsToGo := if restartsToGo == 0 then 0xFFFF_FFFF else restartsToGo - 1;
      ok := true;
    }
  }
}
