/** decode_mcu_DC_first, decode_mcu_DC_refine and decode_mcu_AC_first, block by block and in place. */
module ProgressiveDecoder {
  import opened Wrappers
  import opened Bits
  import opened HuffDecode
  import opened BitReader
  import opened BitSources
  import opened Coefficients
  import opened Zigzag
  import opened Refine
  import opened Progressive
  import opened HuffDecoder
  import opened RefineDecoder

  /** One block of a first DC scan. */
  method DecodeDcFirst(rd: Reader, tb: Table, last: int, al: nat, block: array<Coefficient>)
    returns (ok: bool, last': int)
    requires rd.bitsLeft <= 32 && ForDc(tb) && block.Length == DCTSIZE2
    modifies rd, rd.cinfo`unreadMarker, rd.cinfo`insufficientData, block
    ensures match DcFirst(Concrete(rd.cinfo.data), old(rd.State()), tb, last, al)
      case None => !ok && last' == last && block[..] == old(block[..])
      case Some((c, l, st)) => ok && last' == l && rd.State() == st && block[..] == old(block[..])[0 := c]
    ensures !ok ==> unchanged(rd.cinfo) && rd.cinfo.unreadMarker == 0
    ensures rd.cinfo.unreadMarker == 0 ==> unchanged(rd.cinfo)
  {
    hide DecodeDiff, Concrete, Pow2, Wrap16;
    var s;
    last' := last;
    ok, s := DecodeDcDiff(rd, tb);
    if ok {
      s := s + last;
      last' := s;
      block[0] := Wrap16(s * Pow2(al));
    }
  }

  /** One block of a DC refinement scan. */
  method DecodeDcRefine(rd: Reader, al: nat, block: array<Coefficient>) returns (ok: bool)
    requires rd.bitsLeft <= 32 && block.Length == DCTSIZE2
    modifies rd, rd.cinfo`unreadMarker, rd.cinfo`insufficientData, block
    ensures match DcRefine(Concrete(rd.cinfo.data), old(rd.State()), old(block[0]), al)
      case None => !ok && block[..] == old(block[..])
      case Some((c, st)) => ok && rd.State() == st && block[..] == old(block[..])[0 := c]
    ensures !ok ==> unchanged(rd.cinfo) && rd.cinfo.unreadMarker == 0
    ensures rd.cinfo.unreadMarker == 0 ==> unchanged(rd.cinfo)
  {
    var bit;
    ok, bit := OneBit(rd);
    if ok && bit != 0 && block[0] / Pow2(al) % 2 == 0 {
      block[0] := Wrap16(block[0] + Pow2(al));
    }
  }

  /** How a first AC scan ends from index k on, or behind an end-of-band run of e > 0 blocks: the block,
      and the state and run reached unless input runs out. */
  ghost function Ahead(rd: Reader, tb: Table, o: Order, d: Scan, block: array<Coefficient>, k: nat, e: nat): (Block,
      Option<(Register, nat)>)
    requires block.Length == DCTSIZE2 && rd.bitsLeft <= 32
    reads rd, rd.cinfo, block
  {
    if e > 0 then (block[..], Some((rd.State(), e - 1)))
    else
      var r := AcFirstPuts(Concrete(rd.cinfo.data), rd.State(), tb, o, d, k);
      (PutAll(r.puts, block[..]), r.out)
  }

  /** One code of a first AC scan: a value behind r zeros, sixteen zeros, or an end-of-band run. */
  datatype FirstCode<+S> = Starved | Sixteen(s: S) | RunOf(e: nat, s: S) | Value(r: nat, v: int, s: S)

  ghost function ReadFirst<S>(src: BitSource<S>, s: S, tb: Table): FirstCode<S> {
    match src.symbol(s, tb)
    case None => Starved
    case Some((y, s1)) =>
      var r, size := y / 16, y % 16;
      if size != 0 then
        match src.receive(s1, size)
        case None => Starved
        case Some((x, s2)) => Value(r, Extend(x, size), s2)
      else if r == 15 then Sixteen(s1)
      else if r == 0 then RunOf(1, s1)
      else
        match src.receive(s1, r)
        case None => Starved
        case Some((v, s2)) => RunOf(Pow2(r) + v, s2)
  }

  lemma FirstUnfolds<S>(src: BitSource<S>, s: S, tb: Table, o: Order, d: Scan, b: Block, k: nat)
    requires k <= d.se
    ensures var f := AcFirstPuts(src, s, tb, o, d, k);
      match ReadFirst(src, s, tb)
      case Starved => f == Puts([], None) && PutAll(f.puts, b) == b
      case Sixteen(s1) => f == AcFirstPuts(src, s1, tb, o, d, k + 16)
      case RunOf(e, s1) => e > 0 && f == Puts([], Some((s1, e - 1))) && PutAll(f.puts, b) == b
      case Value(r, v, s1) =>
        var later := AcFirstPuts(src, s1, tb, o, d, k + r + 1);
        r <= 15 && f.out == later.out && PutAll(f.puts, b) == PutAll(later.puts, b[o[k + r] := Wrap16(v * Pow2(d.al))])
  {
    hide Extend, Wrap16;
    if ReadFirst(src, s, tb).Value? {
      var f, v := AcFirstPuts(src, s, tb, o, d, k), ReadFirst(src, s, tb);
      var later := AcFirstPuts(src, v.s, tb, o, d, k + v.r + 1);
      assert f.puts == [Put(o[k + v.r], Wrap16(v.v * Pow2(d.al)))] + later.puts;
      assert f.puts[1..] == later.puts;
    }
  }

  /** Reads one code: run r and value v if s != 0, an end-of-band run of e blocks if e > 0. */
  method ReadFirstCode(rd: Reader, tb: Table) returns (ok: bool, r: nat, s: nat, v: int, e: nat)
    requires rd.bitsLeft <= 32
    modifies rd, rd.cinfo`unreadMarker, rd.cinfo`insufficientData
    ensures ok ==> rd.bitsLeft <= 32
    ensures match ReadFirst(Concrete(rd.cinfo.data), old(rd.State()), tb)
      case Starved => !ok
      case Sixteen(st) => ok && s == 0 && e == 0 && rd.State() == st
      case RunOf(n, st) => ok && s == 0 && e == n && rd.State() == st
      case Value(run, val, st) => ok && s != 0 && e == 0 && r == run && v == val && rd.State() == st
    ensures !ok ==> unchanged(rd.cinfo) && rd.cinfo.unreadMarker == 0
    ensures rd.cinfo.unreadMarker == 0 ==> unchanged(rd.cinfo)
  {
    r, s, v, e := 0, 0, 0, 0;
    var y, bits;
    ok, y := Code(rd, tb);
    if !ok { return; }
    r, s := y / 16, y % 16;
    if s != 0 {
      ok, v := ReceiveExtend(rd, s);
    } else if r != 15 {
      e := Pow2(r);
      if r != 0 {
        ok, bits := RawBits(rd, r);
        if ok { e := e + bits; }
      }
    }
  }

  /** One pass of the code loop; e > 0 reports an end-of-band run of e blocks. */
  method AcFirstCode(rd: Reader, tb: Table, o: Order, d: Scan, block: array<Coefficient>, k: nat)
    returns (ok: bool, k': nat, e: nat)
    requires rd.bitsLeft <= 32 && block.Length == DCTSIZE2 && k <= d.se
    modifies rd, rd.cinfo`unreadMarker, rd.cinfo`insufficientData, block
    ensures ok ==> rd.bitsLeft <= 32
    ensures if ok then old(Ahead(rd, tb, o, d, block, k, 0)) == Ahead(rd, tb, o, d, block, k', e)
            else old(Ahead(rd, tb, o, d, block, k, 0)) == (block[..], None)
    ensures ok && e == 0 ==> k < k' <= k + 16
    ensures !ok ==> unchanged(rd.cinfo) && rd.cinfo.unreadMarker == 0
    ensures rd.cinfo.unreadMarker == 0 ==> unchanged(rd.cinfo)
  {
    hide ReadFirst, AcFirstPuts, PutAll, Wrap16;
    FirstUnfolds(Concrete(rd.cinfo.data), rd.State(), tb, o, d, block[..], k);
    k' := k;
    var r, s, v;
    ok, r, s, v, e := ReadFirstCode(rd, tb);
    if !ok || e > 0 { return; }
    if s != 0 {
      k' := k' + r;
      block[o[k']] := Wrap16(v * Pow2(d.al));
    } else {
      k' := k' + 15;
    }
    k' := k' + 1;
  }

  lemma EndsBehindBand<S>(src: BitSource<S>, s: S, tb: Table, o: Order, d: Scan, b: Block, k: nat)
    requires k > d.se
    ensures var r := AcFirstPuts(src, s, tb, o, d, k); r.out == Some((s, 0)) && PutAll(r.puts, b) == b
  {
  }

  /** The code loop; e is the end-of-band run left over. */
  method AcFirstCodes(rd: Reader, tb: Table, o: Order, d: Scan, block: array<Coefficient>) returns (ok: bool, e: nat)
    requires rd.bitsLeft <= 32 && block.Length == DCTSIZE2
    modifies rd, rd.cinfo`unreadMarker, rd.cinfo`insufficientData, block
    ensures ok ==> rd.bitsLeft <= 32
    ensures old(Ahead(rd, tb, o, d, block, d.ss, 0)).0 == block[..]
    ensures old(Ahead(rd, tb, o, d, block, d.ss, 0)).1 == if ok then Some((rd.State(), e)) else None
    ensures !ok ==> unchanged(rd.cinfo) && rd.cinfo.unreadMarker == 0
    ensures rd.cinfo.unreadMarker == 0 ==> unchanged(rd.cinfo)
  {
    hide AcFirstPuts, PutAll, Concrete;
    var k: nat;
    ok, k, e := true, d.ss, 0;
    while k <= d.se && e == 0
      invariant ok && rd.bitsLeft <= 32
      invariant old(Ahead(rd, tb, o, d, block, d.ss, 0)) == Ahead(rd, tb, o, d, block, k, e)
      invariant rd.cinfo.unreadMarker == 0 ==> unchanged(rd.cinfo)
      decreases if e == 0 then d.se + 17 - k else 0
    {
      ok, k, e := AcFirstCode(rd, tb, o, d, block, k);
      if !ok { return; }
    }
    if e == 0 { EndsBehindBand(Concrete(rd.cinfo.data), rd.State(), tb, o, d, block[..], k); }
    e := if e > 0 then e - 1 else 0;
  }

  /** One block of a first AC scan.  A suspended attempt has made the first of its stores. */
  method DecodeAcFirst(rd: Reader, tb: Table, o: Order, d: Scan, block: array<Coefficient>, eobRun: nat)
    returns (ok: bool, eobRun': nat)
    requires rd.bitsLeft <= 32 && block.Length == DCTSIZE2
    modifies rd, rd.cinfo`unreadMarker, rd.cinfo`insufficientData, block
    ensures match AcFirstBlock(Concrete(rd.cinfo.data), old(rd.State()), tb, o, d, old(block[..]), eobRun)
      case None => !ok && block[..]
          == PutAll(AcFirstPuts(Concrete(rd.cinfo.data), old(rd.State()), tb, o, d, d.ss).puts, old(block[..]))
      case Some((st, b, e)) => ok && rd.State() == st && block[..] == b && eobRun' == e
    ensures !ok ==> unchanged(rd.cinfo) && rd.cinfo.unreadMarker == 0 && eobRun' == eobRun
    ensures rd.cinfo.unreadMarker == 0 ==> unchanged(rd.cinfo)
  {
    hide AcFirst, AcFirstPuts, PutAll, Concrete;
    ok, eobRun' := true, eobRun;
    if eobRun > 0 {
      eobRun' := eobRun - 1;
    } else {
      AcFirstIsPuts(Concrete(rd.cinfo.data), rd.State(), tb, o, d, block[..], d.ss);
      var e;
      ok, e := AcFirstCodes(rd, tb, o, d, block);
      if ok { eobRun' := e; }
    }
  }
}
