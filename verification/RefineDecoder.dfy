/** decode_mcu_AC_refine, working in place on the coefficient block. */
module RefineDecoder {
  import opened Wrappers
  import opened Bits
  import opened HuffDecode
  import opened BitReader
  import opened BitSources
  import opened Zigzag
  import opened Refine

  /** One raw bit; false means suspension. */
  method OneBit(rd: Reader) returns (ok: bool, v: nat)
    requires rd.bitsLeft <= 32
    modifies rd, rd.cinfo`unreadMarker, rd.cinfo`insufficientData
    ensures ok <==> Concrete(rd.cinfo.data).receive(old(rd.State()), 1).Some?
    ensures ok ==> rd.bitsLeft <= 32 && Concrete(rd.cinfo.data).receive(old(rd.State()), 1) == Some((v, rd.State()))
    ensures !ok ==> unchanged(rd.cinfo) && rd.cinfo.unreadMarker == 0
    ensures rd.cinfo.unreadMarker == 0 ==> unchanged(rd.cinfo)
  {
    v := 0;
    ok := rd.CheckBitBuffer(1);
    if ok {
      v := rd.GetBits(1);
    }
  }

  method RawBits(rd: Reader, n: Width) returns (ok: bool, v: nat)
    requires rd.bitsLeft <= 32
    modifies rd, rd.cinfo`unreadMarker, rd.cinfo`insufficientData
    ensures ok <==> Concrete(rd.cinfo.data).receive(old(rd.State()), n).Some?
    ensures ok ==> rd.bitsLeft <= 32 && Concrete(rd.cinfo.data).receive(old(rd.State()), n) == Some((v, rd.State()))
    ensures !ok ==> unchanged(rd.cinfo) && rd.cinfo.unreadMarker == 0
    ensures rd.cinfo.unreadMarker == 0 ==> unchanged(rd.cinfo)
  {
    v := 0;
    ok := rd.CheckBitBuffer(n);
    if ok {
      v := rd.GetBits(n);
    }
  }

  method Code(rd: Reader, tb: Table) returns (ok: bool, s: byte)
    requires rd.bitsLeft <= 32
    modifies rd, rd.cinfo`unreadMarker, rd.cinfo`insufficientData
    ensures ok <==> Concrete(rd.cinfo.data).symbol(old(rd.State()), tb).Some?
    ensures ok ==> rd.bitsLeft <= 32 && Concrete(rd.cinfo.data).symbol(old(rd.State()), tb) == Some((s, rd.State()))
    ensures !ok ==> unchanged(rd.cinfo) && rd.cinfo.unreadMarker == 0
    ensures rd.cinfo.unreadMarker == 0 ==> unchanged(rd.cinfo)
  {
    ok, s := rd.HuffDecode(tb);
  }

  /** Reads one code with its appended bits: either a run r towards a new value s, or an
      end-of-band run of e blocks (e > 0). */
  method ReadRefinement(rd: Reader, tb: Table, al: nat) returns (ok: bool, r: nat, s: Coefficient, e: nat)
    requires rd.bitsLeft <= 32 && al <= 13
    modifies rd, rd.cinfo`unreadMarker, rd.cinfo`insufficientData
    ensures match Interpret(Concrete(rd.cinfo.data), old(rd.State()), tb, al)
      case None => !ok
      case Some((ph, st)) => ok && rd.State() == st && ph == (if e > 0 then Tail(e) else Approach(r, s))
    ensures ok ==> rd.bitsLeft <= 32
    ensures !ok ==> unchanged(rd.cinfo) && rd.cinfo.unreadMarker == 0
    ensures rd.cinfo.unreadMarker == 0 ==> unchanged(rd.cinfo)
  {
    r, s, e := 0, 0, 0;
    var y;
    ok, y := Code(rd, tb);
    if !ok { return; }
    r := y / 16;
    var bit;
    if y % 16 != 0 {
      ok, bit := OneBit(rd);
      if !ok { return; }
      s := NewValue(bit, al);
    } else if r != 15 {
      e := Pow2(r);
      if r != 0 {
        ok, bit := RawBits(rd, r);
        if !ok { return; }
        e := e + bit;
      }
    }
  }

  /** Reads a correction bit for place p and applies it. */
  method AmendInPlace(rd: Reader, block: array<Coefficient>, p: Place, al: nat) returns (ok: bool)
    requires rd.bitsLeft <= 32 && block.Length == DCTSIZE2 && al <= 13
    modifies rd, rd.cinfo`unreadMarker, rd.cinfo`insufficientData, block
    ensures match Amend(Concrete(rd.cinfo.data), old(rd.State()), old(block[..]), p, al)
      case None => !ok && block[..] == old(block[..])
      case Some((b, st)) => ok && block[..] == b && rd.State() == st
    ensures ok ==> rd.bitsLeft <= 32
    ensures !ok ==> unchanged(rd.cinfo) && rd.cinfo.unreadMarker == 0
    ensures rd.cinfo.unreadMarker == 0 ==> unchanged(rd.cinfo)
  {
    var bit;
    ok, bit := OneBit(rd);
    if ok && bit != 0 {
      var c := block[p];
      var p1 := Pow2(al);
      if c / p1 % 2 == 0 {
        block[p] := if c >= 0 then Wrap16(c + p1) else Wrap16(c - p1);
      }
    }
  }

  ghost predicate SamePattern(a: seq<Coefficient>, b: seq<Coefficient>) {
    |a| == |b| && forall i :: 0 <= i < |a| ==> (a[i] == 0 <==> b[i] == 0)
  }

  lemma AmendPattern<S>(src: BitSource<S>, s: S, b: Block, p: Place, al: nat)
    requires al <= 13 && b[p] != 0 && Amend(src, s, b, p, al).Some?
    ensures SamePattern(b, Amend(src, s, b, p, al).value.0)
  {
    CorrectOnce(b[p], al);
  }

  /** What is still to come from index k on. */
  ghost function Remaining(rd: Reader, tb: Table, o: Order, d: Scan, block: array<Coefficient>, k: nat,
      ph: Phase): Outcome<Register>
    requires block.Length == DCTSIZE2 && rd.bitsLeft <= 32 && k <= d.se + 2 && (ph.Approach? ==> k <= d.se + 1)
    reads rd, rd.cinfo, block
  {
    Run(Concrete(rd.cinfo.data), rd.State(), tb, o, d, block[..], k, ph)
  }

  /** Index k holds a nonzero coefficient: read its correction bit and move on. */
  method PassCoefficient(rd: Reader, tb: Table, o: Order, d: Scan, block: array<Coefficient>, k: nat, ghost ph: Phase)
    returns (ok: bool)
    requires rd.bitsLeft <= 32 && block.Length == DCTSIZE2 && k <= d.se && block[o[k]] != 0 && !ph.Fetch?
    modifies rd, rd.cinfo`unreadMarker, rd.cinfo`insufficientData, block
    ensures SamePattern(block[..], old(block[..])) && (ok ==> rd.bitsLeft <= 32)
    ensures old(Remaining(rd, tb, o, d, block, k, ph)) ==
              if ok then Remaining(rd, tb, o, d, block, k + 1, ph) else Stop(block[..])
    ensures !ok ==> unchanged(rd.cinfo) && rd.cinfo.unreadMarker == 0
    ensures rd.cinfo.unreadMarker == 0 ==> unchanged(rd.cinfo)
  {
    ghost var src, st, before := Concrete(rd.cinfo.data), rd.State(), block[..];
    PassNonzero(src, st, tb, o, d, before, k, ph);
    ok := AmendInPlace(rd, block, o[k], d.al);
    if ok {
      AmendPattern(src, st, before, o[k], d.al);
    }
  }

  /** The inner loop: passes over nonzero coefficients, correcting them, and over r zeros. */
  method PassOver(rd: Reader, tb: Table, o: Order, d: Scan, block: array<Coefficient>, start: nat, run: nat,
      ghost v: Coefficient)
    returns (ok: bool, k: nat)
    requires rd.bitsLeft <= 32 && block.Length == DCTSIZE2 && start <= d.se
    modifies rd, rd.cinfo`unreadMarker, rd.cinfo`insufficientData, block
    ensures SamePattern(block[..], old(block[..]))
    ensures start <= k <= d.se + 1 && (ok ==> rd.bitsLeft <= 32)
    ensures old(Remaining(rd, tb, o, d, block, start, Approach(run, v))) ==
              if ok then Run(Concrete(rd.cinfo.data), rd.State(), tb, o, d, Landed(block[..], o, k, v), k + 1, Fetch)
                  else Stop(block[..])
    ensures ok && k <= d.se ==> block[o[k]] == 0
    ensures !ok ==> unchanged(rd.cinfo) && rd.cinfo.unreadMarker == 0
    ensures rd.cinfo.unreadMarker == 0 ==> unchanged(rd.cinfo)
  {
    hide Run, Concrete, Landed;
    ghost var goal := Remaining(rd, tb, o, d, block, start, Approach(run, v));
    ok := true;
    k := start;
    var r: int := run;
    while k <= d.se
      invariant ok && start <= k <= d.se + 1 && r >= 0 && rd.bitsLeft <= 32
      invariant goal == Remaining(rd, tb, o, d, block, k, Approach(r, v))
      invariant SamePattern(block[..], old(block[..]))
      invariant rd.cinfo.unreadMarker == 0 ==> unchanged(rd.cinfo)
    {
      if block[o[k]] != 0 {
        ok := PassCoefficient(rd, tb, o, d, block, k, Approach(r, v));
        if !ok { return; }
      } else {
        if r == 0 {
          break;
        }
        PassZero(Concrete(rd.cinfo.data), rd.State(), tb, o, d, block[..], k, r, v);
        r := r - 1;
      }
      k := k + 1;
    }
    Lands(Concrete(rd.cinfo.data), rd.State(), tb, o, d, block[..], k, r, v);
  }

  /** The loop after an end-of-band code: corrections only. */
  method CorrectRest(rd: Reader, tb: Table, o: Order, d: Scan, block: array<Coefficient>, start: nat, e: nat)
    returns (ok: bool)
    requires rd.bitsLeft <= 32 && block.Length == DCTSIZE2 && start <= d.se + 1 && e > 0
    modifies rd, rd.cinfo`unreadMarker, rd.cinfo`insufficientData, block
    ensures SamePattern(block[..], old(block[..])) && (ok ==> rd.bitsLeft <= 32)
    ensures old(Remaining(rd, tb, o, d, block, start, Tail(e))) ==
              if ok then Done(rd.State(), block[..], e - 1) else Stop(block[..])
    ensures !ok ==> unchanged(rd.cinfo) && rd.cinfo.unreadMarker == 0
    ensures rd.cinfo.unreadMarker == 0 ==> unchanged(rd.cinfo)
  {
    hide Concrete;
    ghost var goal := Remaining(rd, tb, o, d, block, start, Tail(e));
    ok := true;
    var k := start;
    while k <= d.se
      invariant ok && start <= k <= d.se + 1 && rd.bitsLeft <= 32
      invariant goal == Remaining(rd, tb, o, d, block, k, Tail(e))
      invariant SamePattern(block[..], old(block[..]))
      invariant rd.cinfo.unreadMarker == 0 ==> unchanged(rd.cinfo)
    {
      if block[o[k]] != 0 {
        ok := PassCoefficient(rd, tb, o, d, block, k, Tail(e));
        if !ok { return; }
      }
      k := k + 1;
    }
  }

  /** The list of newly nonzero places is exact. */
  ghost predicate Tracks(places: seq<Place>, before: seq<Coefficient>, now: seq<Coefficient>)
    requires |before| == |now| == DCTSIZE2
  {
    && (forall i :: 0 <= i < |places| ==> before[places[i]] == 0)
    && (forall p: Place :: before[p] == 0 && now[p] != 0 ==> p in places)
    && (forall p: Place :: before[p] != 0 ==> now[p] != 0)
  }

  /** undoit. */
  method UndoNew(block: array<Coefficient>, places: array<Place>, count: nat, ghost before: Block)
    requires block.Length == DCTSIZE2 && count <= places.Length
    requires Tracks(places[..count], before, block[..])
    modifies block
    ensures block[..] == Undo(old(block[..]), before)
  {
    var n := count;
    while n > 0
      invariant 0 <= n <= count
      invariant forall p: Place :: block[p] == 0 || block[p] == old(block[p])
      invariant forall p: Place :: before[p] != 0 ==> block[p] == old(block[p])
      invariant forall p: Place :: before[p] == 0 && block[p] != 0 ==> p in places[..n]
    {
      n := n - 1;
      assert places[..n + 1] == places[..n] + [places[n]];
      assert before[places[..count][n]] == 0;
      block[places[n]] := 0;
    }
  }

  lemma TracksPattern(places: seq<Place>, before: Block, now: Block, now': Block)
    requires Tracks(places, before, now) && SamePattern(now, now')
    ensures Tracks(places, before, now')
  {
  }

  function Next(e: nat): Phase {
    if e > 0 then Tail(e) else Fetch
  }

  /** One pass of the code loop from index k. */
  method RefineCode(rd: Reader, tb: Table, o: Order, d: Scan, block: array<Coefficient>, newnz: array<Place>, k: nat,
      num: nat, ghost before: Block)
    returns (ok: bool, k': nat, e: nat, num': nat)
    requires rd.bitsLeft <= 32 && block.Length == DCTSIZE2 && newnz.Length == DCTSIZE2 && k <= d.se && num < DCTSIZE2
    requires Tracks(newnz[..num], before, block[..])
    modifies rd, rd.cinfo`unreadMarker, rd.cinfo`insufficientData, block, newnz
    ensures ok ==> rd.bitsLeft <= 32
    ensures num <= num' <= DCTSIZE2 && (if ok && e == 0 then k < k' <= d.se + 2
        && num' <= num + 1 else k <= k' <= d.se + 1)
    ensures e > 0 ==> k' <= d.se
    ensures old(Remaining(rd, tb, o, d, block, k, Fetch)) ==
              if ok then Remaining(rd, tb, o, d, block, k', Next(e)) else Stop(block[..])
    ensures k' <= d.se + 1 ==> Tracks(newnz[..num'], before, block[..])
    ensures !ok ==> unchanged(rd.cinfo) && rd.cinfo.unreadMarker == 0
    ensures rd.cinfo.unreadMarker == 0 ==> unchanged(rd.cinfo)
  {
    var r, s;
    k', num' := k, num;
    ok, r, s, e := ReadRefinement(rd, tb, d.al);
    if !ok { e := 0; return; }
    if e > 0 { return; }
    ghost var b0: Block := block[..];
    hide Tracks, Landed;
    ok, k' := PassOver(rd, tb, o, d, block, k, r, s);
    TracksPattern(newnz[..num], before, b0, block[..]);
    if !ok { return; }
    num' := StoreNew(o, d, block, newnz, k', num, s, before);
    k' := k' + 1;
  }

  /** Stores the newly nonzero coefficient, if any, and remembers its place. */
  method StoreNew(o: Order, d: Scan, block: array<Coefficient>, newnz: array<Place>, k: nat, num: nat, s: Coefficient,
      ghost before: Block)
    returns (num': nat)
    requires block.Length == DCTSIZE2 && newnz.Length == DCTSIZE2 && k <= d.se + 1 && num < DCTSIZE2
    requires Tracks(newnz[..num], before, block[..]) && (k <= d.se ==> block[o[k]] == 0)
    modifies block, newnz
    ensures block[..] == Landed(old(block[..]), o, k, s) && num <= num' <= num + 1
    ensures k <= d.se ==> Tracks(newnz[..num'], before, block[..])
  {
    num' := num;
    if s != 0 {
      ghost var list, b1 := newnz[..num], block[..];
      var pos := o[k];
      block[pos] := s;
      newnz[num] := pos;
      num' := num + 1;
      assert newnz[..num'] == list + [pos];
      if k <= d.se { TracksOneMore(list, before, b1, pos, s); }
    }
  }

  /** The code loop: runs until the band ends or an end-of-band code is read (e > 0). */
  method RefineCodes(rd: Reader, tb: Table, o: Order, d: Scan, block: array<Coefficient>, newnz: array<Place>)
    returns (ok: bool, k: nat, e: nat, num: nat)
    requires rd.bitsLeft <= 32 && block.Length == DCTSIZE2 && newnz.Length == DCTSIZE2 && d.ss >= 1
    modifies rd, rd.cinfo`unreadMarker, rd.cinfo`insufficientData, block, newnz
    ensures ok ==> rd.bitsLeft <= 32
    ensures k <= d.se + 2 && num <= DCTSIZE2 && (e > 0 ==> k <= d.se) && (ok && e == 0 ==> k > d.se)
    ensures old(Remaining(rd, tb, o, d, block, d.ss, Fetch)) ==
              if ok then Remaining(rd, tb, o, d, block, k, Next(e)) else Stop(block[..])
    ensures !ok || e > 0 ==> Tracks(newnz[..num], old(block[..]), block[..])
    ensures !ok ==> unchanged(rd.cinfo) && rd.cinfo.unreadMarker == 0
    ensures rd.cinfo.unreadMarker == 0 ==> unchanged(rd.cinfo)
  {
    ghost var goal := Remaining(rd, tb, o, d, block, d.ss, Fetch);
    ghost var before: Block := block[..];
    ok, k, e, num := true, d.ss, 0, 0;
    while k <= d.se
      invariant ok && e == 0 && d.ss <= k <= d.se + 2 && num <= k - d.ss && rd.bitsLeft <= 32
      invariant goal == Remaining(rd, tb, o, d, block, k, Fetch)
      invariant k <= d.se + 1 ==> Tracks(newnz[..num], before, block[..])
      invariant rd.cinfo.unreadMarker == 0 ==> unchanged(rd.cinfo)
      decreases d.se + 2 - k
    {
      ok, k, e, num := RefineCode(rd, tb, o, d, block, newnz, k, num, before);
      if !ok || e > 0 { return; }
    }
  }

  lemma TracksOneMore(places: seq<Place>, before: Block, now: Block, p: Place, v: Coefficient)
    requires Tracks(places, before, now) && now[p] == 0 && v != 0
    ensures Tracks(places + [p], before, now[p := v])
  {
    assert before[p] == 0;
  }

  /** One block of an AC refinement: decode_mcu_AC_refine between loading and saving the working state.  On
      suspension the block is as the attempt found it, except for corrections, which are safe to meet
      again. */
  method DecodeAcRefine(rd: Reader, tb: Table, o: Order, d: Scan, block: array<Coefficient>, eobRun: nat)
    returns (ok: bool, eobRun': nat)
    requires rd.bitsLeft <= 32 && block.Length == DCTSIZE2 && d.ss >= 1
    modifies rd, rd.cinfo`unreadMarker, rd.cinfo`insufficientData, block
    ensures match RefineBlock(Concrete(rd.cinfo.data), old(rd.State()), tb, o, d, old(block[..]), eobRun)
      case Done(st, b, e) => ok && rd.State() == st && block[..] == b && eobRun' == e
      case Stop(b) => !ok && block[..] == Undo(b, old(block[..]))
    ensures !ok ==> unchanged(rd.cinfo) && rd.cinfo.unreadMarker == 0
    ensures rd.cinfo.unreadMarker == 0 ==> unchanged(rd.cinfo)
  {
    ghost var before: Block := block[..];
    var newnz := new Place[DCTSIZE2];
    var num, k, e := 0, d.ss, eobRun;
    ok := true;
    if e == 0 {
      ok, k, e, num := RefineCodes(rd, tb, o, d, block, newnz);
    }
    if ok && e > 0 {
      ghost var b0: Block := block[..];
      ok := CorrectRest(rd, tb, o, d, block, k, e);
      TracksPattern(newnz[..num], before, b0, block[..]);
      e := e - 1;
    }
    eobRun' := e;
    if !ok {
      UndoNew(block, newnz, num, before);
    }
  }
}
