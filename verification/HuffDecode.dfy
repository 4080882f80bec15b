/** The HUFF_DECODE fast path: 8-bit lookahead with a bit-at-a-time fallback over the
    prefetching register, shown equal to the plain decoder on the abstract stream. */
module HuffDecode {
  import opened Wrappers
  import opened Bits
  import opened HuffTable
  import opened Canonical
  import opened BitStream

  /** A code table together with its expansion. */
  datatype RawTable = RawTable(spec: HuffTbl, d: Derived)

  ghost predicate Usable(tb: RawTable) {
    Sized(tb.spec) && DerivedFrom(tb.spec, tb.d)
  }

  type Table = tb: RawTable | Usable(tb) ghost witness EmptyTable()

  /** The table of a DHT marker that defines no codes; it is accepted. */
  ghost function EmptyTable(): (tb: RawTable)
    ensures Usable(tb)
  {
    var t := HuffTbl(seq(17, _ => 0), seq(256, _ => 0));
    NoCodes(t, 16);
    RawTable(t, Derived(seq(18, i => if i == 17 then SENTINEL else -1), seq(17, _ => 0), seq(256, _ => 0),
        seq(256, _ => 0)))
  }

  lemma {:induction false} NoCodes(t: HuffTbl, l: nat)
    requires |t.bits| == 17 && l <= NUM_LENGTHS && forall i :: 0 <= i < 17 ==> t.bits[i] == 0
    ensures Count(t, l) == 0
    ensures forall i :: 1 <= i <= l ==> FirstCode(t, i) == 0
  {
    if l > 0 {
      NoCodes(t, l - 1);
    }
  }

  datatype Symbol = Symbol(sym: byte, st: BitState)

  /** More unread bits than this and decoding one symbol cannot suspend. */
  const ENOUGH := MIN_GET_BITS + NUM_LENGTHS

  /** jpeg_huff_decode's loop, with l bits already collected in code. */
  function Collect(data: seq<byte>, st: BitState, tb: Table, code: nat, l: nat): Option<Symbol>
    requires 1 <= l <= 17 && code < Pow2(l) && st.left <= 32
    requires l <= NUM_LENGTHS ==> FirstCode(tb.spec, l) <= code
    decreases 17 - l
  {
    if code > tb.d.maxcode[l] then
      CollectGoesOn(tb, code, l);
      match FetchBit(data, st, code)
      case None => None
      case Some((code', st')) => Collect(data, st', tb, code', l + 1)
    else
      Some(Symbol(if l > 16 then 0 else CodeIndexOk(tb, code, l); tb.spec.huffval[code + tb.d.valoffset[l]], st))
  }

  /** One more bit appended to the code. */
  function FetchBit(data: seq<byte>, st: BitState, code: nat): (r: Option<(nat, BitState)>)
    requires st.left <= 32
    ensures r.Some? ==> 2 * code <= r.value.0 <= 2 * code + 1 && r.value.1.left <= 32
  {
    CheckRefines(data, st, 1);
    match Check(data, st, 1)
    case None => None
    case Some(s) =>
      RegisterBits(data, s, 1);
      Pow2Small();
      Some((code * 2 + PeekBits(s, 1), DropBits(s, 1)))
  }

  lemma CollectGoesOn(tb: Table, code: nat, l: nat)
    requires 1 <= l <= 17 && code < Pow2(l) && code > tb.d.maxcode[l]
    requires l <= NUM_LENGTHS ==> FirstCode(tb.spec, l) <= code
    ensures l <= NUM_LENGTHS && code > MaxCode(tb.spec, l) && 2 * code >= FirstCode(tb.spec, l + 1)
    ensures 2 * code + 1 < Pow2(l + 1)
  {
    Pow2Small();
    if l <= NUM_LENGTHS {
      assert LengthOk(tb.spec, l, tb.d.maxcode[l], tb.d.valoffset[l]);
    }
  }

  lemma CodeIndexOk(tb: Table, code: nat, l: nat)
    requires 1 <= l <= NUM_LENGTHS && FirstCode(tb.spec, l) <= code <= tb.d.maxcode[l]
    ensures 0 <= code + tb.d.valoffset[l] < 256
    ensures code <= MaxCode(tb.spec, l)
    ensures tb.spec.huffval[code + tb.d.valoffset[l]] == SymbolOf(tb.spec, l, code)
  {
    assert LengthOk(tb.spec, l, tb.d.maxcode[l], tb.d.valoffset[l]);
    CountMono(tb.spec, l, NUM_LENGTHS);
  }

  /** jpeg_huff_decode entered with a request for n bits at once. */
  function Slow(data: seq<byte>, st: BitState, tb: Table, n: nat): Option<Symbol>
    requires 1 <= n <= NUM_LENGTHS && st.left <= 32
    requires Has(Rest(data, st), n) ==> FirstCode(tb.spec, n) <= Val(Peek(Rest(data, st), n))
  {
    CheckRefines(data, st, n);
    match Check(data, st, n)
    case None => None
    case Some(s) =>
      RegisterBits(data, s, n);
      assert Peek(Rest(data, s), n) == Peek(Rest(data, st), n);
      Collect(data, DropBits(s, n), tb, PeekBits(s, n), n)
  }

  lemma SlowIsCollect(data: seq<byte>, st: BitState, tb: Table, n: nat)
    requires 1 <= n <= NUM_LENGTHS && st.left <= 32
    requires Has(Rest(data, st), n) ==> FirstCode(tb.spec, n) <= Val(Peek(Rest(data, st), n))
    ensures Check(data, st, n).None? ==> Slow(data, st, tb, n).None?
    ensures Check(data, st, n).Some? ==>
              var s := Check(data, st, n).value;
              && n <= s.left <= 32 && FirstCode(tb.spec, n) <= PeekBits(s, n) < Pow2(n)
              && Slow(data, st, tb, n) == Collect(data, DropBits(s, n), tb, PeekBits(s, n), n)
  {
    CheckRefines(data, st, n);
    if Check(data, st, n).Some? {
      var s := Check(data, st, n).value;
      RegisterBits(data, s, n);
      assert Peek(Rest(data, s), n) == Peek(Rest(data, st), n);
    }
  }

  /** The lookahead, with at least 8 bits in the register. */
  function Look(data: seq<byte>, st: BitState, tb: Table): Option<Symbol>
    requires LOOKAHEAD <= st.left <= 32
  {
    RegisterBits(data, st, LOOKAHEAD);
    Pow2Small();
    var v := PeekBits(st, LOOKAHEAD);
    var nb := tb.d.nbits[v];
    if nb != 0 then
      assert LookOk(tb.spec, v, nb, tb.d.sym[v]);
      Some(Symbol(tb.d.sym[v], DropBits(st, nb)))
    else
      LookMiss(data, st, tb);
      Slow(data, st, tb, LOOKAHEAD + 1)
  }

  /** HUFF_DECODE; None means suspension. */
  function DecodeSymbol(data: seq<byte>, st: BitState, tb: Table): Option<Symbol>
    requires st.left <= 32
  {
    if st.left < LOOKAHEAD then
      FillRefines(data, st, 0);
      match Fill(data, st, 0)
      case None => None
      case Some(s) =>
        if s.left < LOOKAHEAD then Slow(data, s, tb, 1) else Look(data, s, tb)
    else
      Look(data, st, tb)
  }

  // ---------------------------------------------------------------- the lookahead table

  /** Dropping low bits of a number drops the tail of its bit string. */
  lemma PrefixValue(bs: seq<bool>, l: nat)
    requires l <= |bs|
    ensures Val(bs[..l]) == Val(bs) / Pow2(|bs| - l)
  {
    assert bs == bs[..l] + bs[l..];
    ValConcat(bs[..l], bs[l..]);
    ValBound(bs[l..]);
    QuotientIs(Val(bs), Pow2(|bs| - l), Val(bs[..l]), Val(bs[l..]));
  }

  /** A hit names the code that begins the stream. */
  lemma LookHit(tb: Table, bs: seq<bool>)
    requires |bs| >= LOOKAHEAD
    requires var v := Val(bs[..LOOKAHEAD]); v < 256 && tb.d.nbits[v] != 0
    ensures var v := Val(bs[..LOOKAHEAD]); var nb := tb.d.nbits[v];
            0 <= nb && Decode(tb.spec, bs) == Some(Decoded(tb.d.sym[v], nb))
  {
    var t := tb.spec;
    var v := Val(bs[..LOOKAHEAD]);
    var nb := tb.d.nbits[v];
    assert LookOk(t, v, nb, tb.d.sym[v]);
    PrefixValue(bs[..LOOKAHEAD], nb);
    assert bs[..LOOKAHEAD][..nb] == bs[..nb];
    var p := EntryAt(t, bs, nb);
    DecodeIsPrefixMatch(t, bs);
  }

  /** A miss rules out every code of at most 8 bits. */
  lemma MissSkips(tb: Table, bs: seq<bool>)
    requires |bs| >= LOOKAHEAD + 1
    requires var v := Val(bs[..LOOKAHEAD]); v < 256 && tb.d.nbits[v] == 0
    ensures FirstCode(tb.spec, LOOKAHEAD + 1) <= Val(bs[..LOOKAHEAD + 1])
    ensures Decode(tb.spec, bs) == DecodeFrom(tb.spec, bs, LOOKAHEAD + 1)
  {
    var t := tb.spec;
    var v := Val(bs[..LOOKAHEAD]);
    assert LookOk(t, v, 0, tb.d.sym[v]);
    forall j | 1 <= j < LOOKAHEAD + 1
      ensures Val(bs[..j]) > MaxCode(t, j) || Val(bs[..j]) < FirstCode(t, j)
    {
      assert !Matches(t, v, j);
      PrefixValue(bs[..LOOKAHEAD], j);
      assert bs[..LOOKAHEAD][..j] == bs[..j];
    }
    DecodeSkip(t, bs, 1, LOOKAHEAD + 1);
  }

  lemma LookMiss(data: seq<byte>, st: BitState, tb: Table)
    requires LOOKAHEAD <= st.left <= 32
    requires PeekBits(st, LOOKAHEAD) < 256 && tb.d.nbits[PeekBits(st, LOOKAHEAD)] == 0
    ensures var s := Rest(data, st);
            Has(s, LOOKAHEAD + 1) ==> FirstCode(tb.spec, LOOKAHEAD + 1) <= Val(Peek(s, LOOKAHEAD + 1))
  {
    var s := Rest(data, st);
    RegisterBits(data, st, LOOKAHEAD);
    if Has(s, LOOKAHEAD + 1) {
      var bs := Peek(s, LOOKAHEAD + 1);
      assert bs[..LOOKAHEAD] == Peek(s, LOOKAHEAD);
      MissSkips(tb, bs);
      assert bs[..LOOKAHEAD + 1] == bs;
    }
  }

  // ---------------------------------------------------------------- equivalence

  /** What one call must deliver: the plain decoder's symbol, with the stream advanced by
      exactly the bits the plain decoder consumes. */
  ghost predicate Delivers(data: seq<byte>, s: Stream, tb: Table, r: Symbol)
  {
    match Decode(tb.spec, Peek(s, 17))
    case None => false
    case Some(d) =>
      && r.sym == d.sym && Has(s, d.len) && r.st.left <= 32
      && Same(Rest(data, r.st), Drop(s, d.len))
  }

  ghost predicate Outcome(data: seq<byte>, s: Stream, tb: Table, o: Option<Symbol>)
  {
    match o
    case None => !s.ended && |s.bits| < ENOUGH
    case Some(r) => Delivers(data, s, tb, r)
  }

  /** The plain decoder goes on as well. */
  lemma OneFurther(tb: Table, s: Stream, l: nat)
    requires 1 <= l <= NUM_LENGTHS && Has(s, l + 1) && Peek(s, 17)[..l] == Peek(s, l)
        && Peek(s, 17)[..l + 1] == Peek(s, l + 1)
    requires FirstCode(tb.spec, l) <= Val(Peek(s, l)) && Val(Peek(s, l)) > MaxCode(tb.spec, l)
    ensures l + 1 <= NUM_LENGTHS ==> FirstCode(tb.spec, l + 1) <= Val(Peek(s, l + 1))
    ensures DecodeFrom(tb.spec, Peek(s, 17), l) == DecodeFrom(tb.spec, Peek(s, 17), l + 1)
  {
    var bs := Peek(s, 17);
    hide Val, Peek;
    DecodeOn(tb.spec, bs, l);
  }

  /** One round of the loop. */
  lemma CollectNext(data: seq<byte>, st: BitState, tb: Table, code: nat, l: nat)
    requires 1 <= l <= 17 && code < Pow2(l) && st.left <= 32
    requires l <= NUM_LENGTHS ==> FirstCode(tb.spec, l) <= code
    ensures code > tb.d.maxcode[l] ==>
      l <= NUM_LENGTHS && code > MaxCode(tb.spec, l) && 2 * code >= FirstCode(tb.spec, l + 1)
      && 2 * code + 1 < Pow2(l + 1)
    ensures code > tb.d.maxcode[l] ==>
      Collect(data, st, tb, code, l) ==
      match FetchBit(data, st, code)
      case None => None
      case Some((code', st')) => Collect(data, st', tb, code', l + 1)
    ensures code <= tb.d.maxcode[l] && l <= NUM_LENGTHS ==>
      code <= MaxCode(tb.spec, l) && Collect(data, st, tb, code, l) == Some(Symbol(SymbolOf(tb.spec, l, code), st))
    ensures l > NUM_LENGTHS ==> Collect(data, st, tb, code, l) == Some(Symbol(0, st))
  {
    if code > tb.d.maxcode[l] {
      CollectGoesOn(tb, code, l);
    } else if l <= NUM_LENGTHS {
      CodeIndexOk(tb, code, l);
    }
    hide FetchBit, Pow2, FirstCode;
  }

  lemma {:induction false} CollectCorrect(data: seq<byte>, st: BitState, tb: Table, s: Stream, l: nat)
    requires 1 <= l <= 17 && st.left <= 32 && Has(s, l)
    requires Same(Rest(data, st), Drop(s, l))
    requires Val(Peek(s, l)) < Pow2(l)
    requires l <= NUM_LENGTHS ==> FirstCode(tb.spec, l) <= Val(Peek(s, l)) && Peek(s, 17)[..l] == Peek(s, l)
    requires Decode(tb.spec, Peek(s, 17)) == DecodeFrom(tb.spec, Peek(s, 17), l)
    ensures Outcome(data, s, tb, Collect(data, st, tb, Val(Peek(s, l)), l))
    decreases 17 - l
  {
    var code := Val(Peek(s, l));
    hide Collect, FetchBit, Rest, Same, Val, Peek, Pow2, FirstCode;
    CollectNext(data, st, tb, code, l);
    if code > tb.d.maxcode[l] {
      FetchBitRefines(data, st, s, l);
      if FetchBit(data, st, code).Some? {
        OneFurther(tb, s, l);
        hide Decode, DecodeFrom;
        CollectCorrect(data, FetchBit(data, st, code).value.1, tb, s, l + 1);
      }
    }
  }

  lemma FetchBitRefines(data: seq<byte>, st: BitState, s: Stream, l: nat)
    requires 1 <= l <= NUM_LENGTHS && st.left <= 32 && Has(s, l) && Same(Rest(data, st), Drop(s, l))
    ensures match FetchBit(data, st, Val(Peek(s, l)))
      case None => !s.ended && |s.bits| < ENOUGH
      case Some((code, st')) =>
        && Has(s, l + 1) && Same(Rest(data, st'), Drop(s, l + 1))
        && code == Val(Peek(s, l + 1)) < Pow2(l + 1) && Peek(s, 17)[..l + 1] == Peek(s, l + 1)
  {
    CheckRefines(data, st, 1);
    if Check(data, st, 1).Some? {
      OneBitRefines(data, Check(data, st, 1).value, Rest(data, st), s, l);
    } else {
      SameHas(Rest(data, st), Drop(s, l), MIN_GET_BITS);
    }
  }

  lemma OneBitRefines(data: seq<byte>, s1: BitState, r: Stream, s: Stream, l: nat)
    requires 1 <= l <= NUM_LENGTHS && 1 <= s1.left && Has(s, l) && Same(Rest(data, s1), r) && Same(r, Drop(s, l))
    ensures Has(s, l + 1) && Same(Rest(data, DropBits(s1, 1)), Drop(s, l + 1))
    ensures Val(Peek(s, l)) * 2 + PeekBits(s1, 1) == Val(Peek(s, l + 1)) < Pow2(l + 1)
    ensures Peek(s, 17)[..l + 1] == Peek(s, l + 1)
  {
    SameTrans(Rest(data, s1), r, Drop(s, l));
    OneBitStep(data, s1, Rest(data, s1), s, l);
  }

  lemma OneBitStep(data: seq<byte>, s1: BitState, r: Stream, s: Stream, l: nat)
    requires 1 <= l <= NUM_LENGTHS && 1 <= s1.left && Has(s, l) && r == Rest(data, s1) && Same(r, Drop(s, l))
    ensures Has(s, l + 1) && Same(Rest(data, DropBits(s1, 1)), Drop(s, l + 1))
    ensures Val(Peek(s, l)) * 2 + PeekBits(s1, 1) == Val(Peek(s, l + 1)) < Pow2(l + 1)
    ensures Peek(s, 17)[..l + 1] == Peek(s, l + 1)
  {
    hide Same, Peek, Val, Pow2, Drop, Rest, PeekBits, DropBits;
    RegisterBits(data, s1, 1);
    OneBitOn(r, s, l);
    PeekSnoc(s, l);
    PeekPrefix(s, l + 1, 17);
  }

  /** A stream that is s without l bits, and one bit more. */
  lemma OneBitOn(r: Stream, s: Stream, l: nat)
    requires Has(s, l) && Same(r, Drop(s, l)) && Has(r, 1)
    ensures Has(s, l + 1) && Same(Drop(r, 1), Drop(s, l + 1)) && Has(Drop(s, l), 1) && Peek(r, 1) == Peek(Drop(s, l), 1)
  {
    hide Same;
    SameDrop(r, Drop(s, l), 1);
    PeekDrop(s, l, 1);
    DropDrop(s, l, 1);
    SamePeek(r, Drop(s, l), 1);
  }

  lemma SamePeek(a: Stream, b: Stream, n: nat)
    requires Same(a, b)
    ensures Peek(a, n) == Peek(b, n)
  {
  }

  lemma PeekSnoc(s: Stream, l: nat)
    requires Has(s, l + 1) && l <= NUM_LENGTHS
    ensures Has(s, l) && Has(Drop(s, l), 1)
    ensures Val(Peek(s, l + 1)) == Val(Peek(s, l)) * 2 + Val(Peek(Drop(s, l), 1)) < Pow2(l + 1)
  {
    PeekDrop(s, l, 1);
    SplitAt(Peek(s, l + 1), l);
    PeekPrefix(s, l, l + 1);
    ValSnoc(Peek(s, l), Peek(Drop(s, l), 1));
  }

  lemma SplitAt(bs: seq<bool>, l: nat)
    requires l <= |bs|
    ensures bs == bs[..l] + bs[l..]
  {
  }

  lemma PeekPrefix(s: Stream, l: nat, m: nat)
    requires Has(s, l) && l <= m
    ensures |Peek(s, m)| >= l && Peek(s, m)[..l] == Peek(s, l)
  {
  }

  lemma ValSnoc(a: seq<bool>, b: seq<bool>)
    requires |b| == 1
    ensures Val(a + b) == Val(a) * 2 + Val(b) < Pow2(|a| + 1)
  {
    ValConcat(a, b);
    Pow2Small();
    ValBound(a + b);
  }

  lemma SlowCorrect(data: seq<byte>, st: BitState, tb: Table, s: Stream, n: nat)
    requires 1 <= n <= NUM_LENGTHS && st.left <= 32
    requires Same(Rest(data, st), s)
    requires Has(Rest(data, st), n) ==> FirstCode(tb.spec, n) <= Val(Peek(Rest(data, st), n))
    requires Has(s, n) ==> Peek(s, 17)[..n] == Peek(s, n) && FirstCode(tb.spec, n) <= Val(Peek(s, n))
    requires Has(s, n) ==> Decode(tb.spec, Peek(s, 17)) == DecodeFrom(tb.spec, Peek(s, 17), n)
    ensures Outcome(data, s, tb, Slow(data, st, tb, n))
  {
    CheckRefines(data, st, n);
    if Check(data, st, n).Some? {
      var s1 := Check(data, st, n).value;
      SameTrans(Rest(data, s1), Rest(data, st), s);
      SameHas(Rest(data, s1), s, n);
      RegisterBits(data, s1, n);
      SameDrop(Rest(data, s1), s, n);
      assert Peek(Rest(data, s1), n) == Peek(s, n);
      CollectCorrect(data, DropBits(s1, n), tb, s, n);
    } else {
      SameHas(Rest(data, st), s, MIN_GET_BITS);
    }
  }

  lemma SameTrans(a: Stream, b: Stream, c: Stream)
    requires Same(a, b) && Same(b, c)
    ensures Same(a, c)
  {
    forall n: nat ensures Peek(a, n) == Peek(c, n) {
      assert Peek(a, n) == Peek(b, n);
    }
  }

  lemma LookCorrect(data: seq<byte>, st: BitState, tb: Table, s: Stream)
    requires LOOKAHEAD <= st.left <= 32 && Same(Rest(data, st), s)
    ensures Outcome(data, s, tb, Look(data, st, tb))
  {
    RegisterBits(data, st, LOOKAHEAD);
    Pow2Small();
    var v := PeekBits(st, LOOKAHEAD);
    SameHas(Rest(data, st), s, LOOKAHEAD);
    var bs := Peek(s, 17);
    assert bs[..LOOKAHEAD] == Peek(s, LOOKAHEAD) == Peek(Rest(data, st), LOOKAHEAD);
    if tb.d.nbits[v] != 0 {
      LookHit(tb, bs);
      var nb := tb.d.nbits[v];
      assert LookOk(tb.spec, v, nb, tb.d.sym[v]);
      RegisterBits(data, st, nb);
      SameDrop(Rest(data, st), s, nb);
    } else {
      LookMissCorrect(data, st, tb, s, bs);
    }
  }

  lemma LookMissCorrect(data: seq<byte>, st: BitState, tb: Table, s: Stream, bs: seq<bool>)
    requires LOOKAHEAD <= st.left <= 32 && Same(Rest(data, st), s)
    requires PeekBits(st, LOOKAHEAD) < 256 && tb.d.nbits[PeekBits(st, LOOKAHEAD)] == 0
    requires bs == Peek(s, 17) && |bs| >= LOOKAHEAD && Val(bs[..LOOKAHEAD]) == PeekBits(st, LOOKAHEAD)
    ensures Outcome(data, s, tb, Look(data, st, tb))
  {
    LookMiss(data, st, tb);
    if Has(s, LOOKAHEAD + 1) {
      MissSkips(tb, bs);
      assert bs[..LOOKAHEAD + 1] == Peek(s, LOOKAHEAD + 1);
    }
    SlowCorrect(data, st, tb, s, LOOKAHEAD + 1);
  }

  /** Main result.  Through the lookahead table, through the 9-bit continuation or from one bit
      up, HUFF_DECODE returns the symbol of the plain decoder and advances the stream by exactly
      as many bits (17 and symbol 0 for garbage).  It suspends only while fewer than ENOUGH
      unread bits have arrived and the segment's end has not. */
  lemma DecodeSymbolCorrect(data: seq<byte>, st: BitState, tb: Table)
    requires st.left <= 32
    ensures Outcome(data, Rest(data, st), tb, DecodeSymbol(data, st, tb))
  {
    var s := Rest(data, st);
    if st.left < LOOKAHEAD {
      FillRefines(data, st, 0);
      if Fill(data, st, 0).Some? {
        var s1 := Fill(data, st, 0).value;
        if s1.left < LOOKAHEAD {
          if Has(s, 1) {
            assert Peek(s, 17)[..1] == Peek(s, 1);
          }
          SlowCorrect(data, s1, tb, s, 1);
        } else {
          LookCorrect(data, s1, tb, s);
        }
      }
    } else {
      LookCorrect(data, st, tb, s);
    }
  }

  // ---------------------------------------------------------------- more input

  lemma {:induction false} CollectStable(data: seq<byte>, more: seq<byte>, st: BitState, tb: Table, code: nat, l: nat)
    requires 1 <= l <= 17 && code < Pow2(l) && st.left <= 32
    requires l <= NUM_LENGTHS ==> FirstCode(tb.spec, l) <= code
    requires Collect(data, st, tb, code, l).Some?
    ensures Collect(data + more, st, tb, code, l) == Collect(data, st, tb, code, l)
    decreases 17 - l
  {
    if code > tb.d.maxcode[l] {
      CollectGoesOn(tb, code, l);
      FetchBitStable(data, more, st, code);
      var r := FetchBit(data, st, code).value;
      CollectStable(data, more, r.1, tb, r.0, l + 1);
    }
  }

  lemma FetchBitStable(data: seq<byte>, more: seq<byte>, st: BitState, code: nat)
    requires st.left <= 32 && FetchBit(data, st, code).Some?
    ensures FetchBit(data + more, st, code) == FetchBit(data, st, code)
  {
    FillStable(data, more, st, 1);
  }

  lemma SlowStable(data: seq<byte>, more: seq<byte>, st: BitState, tb: Table, n: nat)
    requires 1 <= n <= NUM_LENGTHS && st.left <= 32
    requires Has(Rest(data, st), n) ==> FirstCode(tb.spec, n) <= Val(Peek(Rest(data, st), n))
    requires Has(Rest(data + more, st), n) ==> FirstCode(tb.spec, n) <= Val(Peek(Rest(data + more, st), n))
    requires Slow(data, st, tb, n).Some?
    ensures Slow(data + more, st, tb, n) == Slow(data, st, tb, n)
  {
    CheckRefines(data, st, n);
    FillStable(data, more, st, n);
    var s := Check(data, st, n).value;
    RegisterBits(data, s, n);
    assert Peek(Rest(data, s), n) == Peek(Rest(data, st), n);
    CollectStable(data, more, DropBits(s, n), tb, PeekBits(s, n), n);
  }

  lemma LookStable(data: seq<byte>, more: seq<byte>, st: BitState, tb: Table)
    requires LOOKAHEAD <= st.left <= 32 && Look(data, st, tb).Some?
    ensures Look(data + more, st, tb) == Look(data, st, tb)
  {
    RegisterBits(data, st, LOOKAHEAD);
    Pow2Small();
    if tb.d.nbits[PeekBits(st, LOOKAHEAD)] == 0 {
      LookMiss(data, st, tb);
      LookMiss(data + more, st, tb);
      SlowStable(data, more, st, tb, LOOKAHEAD + 1);
    }
  }

  /** A symbol decoded from a prefix of the input is decoded identically, register and input
      position included, from any longer input. */
  lemma DecodeSymbolStable(data: seq<byte>, more: seq<byte>, st: BitState, tb: Table)
    requires st.left <= 32 && DecodeSymbol(data, st, tb).Some?
    ensures DecodeSymbol(data + more, st, tb) == DecodeSymbol(data, st, tb)
  {
    if st.left < LOOKAHEAD {
      FillRefines(data, st, 0);
      FillStable(data, more, st, 0);
      var s := Fill(data, st, 0).value;
      if s.left < LOOKAHEAD {
        SlowStable(data, more, s, tb, 1);
      } else {
        LookStable(data, more, s, tb);
      }
    } else {
      LookStable(data, more, st, tb);
    }
  }
}
