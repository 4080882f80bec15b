/** The warned-once flag: it is set by the first read that goes beyond the bits of the segment, and by
    nothing else.  Up to then the register holds exactly what is left of the segment. */
module InsufficientData {
  import opened Wrappers
  import opened Bits
  import opened HuffTable
  import opened Canonical
  import opened BitStream
  import opened HuffDecode
  import opened BitSources

  /** The register after n bits of the stream s have been read. */
  ghost predicate After(data: seq<byte>, st: BitState, s: Stream, n: nat) {
    if n <= |s.bits| then !st.short && Rest(data, st) == Drop(s, n) else st.short
  }

  // ---------------------------------------------------------------- fills

  lemma FillKeepsShort(data: seq<byte>, st: BitState, k: nat)
    requires st.left <= 32 && st.short && Fill(data, st, k).Some?
    ensures Fill(data, st, k).value.short
  {
    if st.marker == 0 { LoadBounds(data, st); }
  }

  /** A fill makes up bits exactly when more are asked for than the segment has. */
  lemma FillExact(data: seq<byte>, st: BitState, k: nat)
    requires st.left <= 32 && st.left < k <= MIN_GET_BITS && !st.short && Fill(data, st, k).Some?
    ensures var c := Fill(data, st, k).value;
      if k <= |Rest(data, st).bits| then !c.short && Rest(data, c) == Rest(data, st) else c.short
  {
    if st.marker == 0 {
      LoadBounds(data, st);
      LoadRefines(data, st);
    }
  }

  /** A fill without a request makes up nothing. */
  lemma FreeFill(data: seq<byte>, st: BitState)
    requires st.left <= 32 && Fill(data, st, 0).Some?
    ensures var c := Fill(data, st, 0).value; c.short == st.short && Rest(data, c) == Rest(data, st)
  {
    if st.marker == 0 {
      LoadBounds(data, st);
      LoadRefines(data, st);
    }
  }

  /** CHECK_BIT_BUFFER and the removal of k bits. */
  lemma CheckAfter(data: seq<byte>, st: BitState, s: Stream, n: nat, k: nat)
    requires st.left <= 32 && k <= MIN_GET_BITS && After(data, st, s, n) && Check(data, st, k).Some?
    ensures var c := Check(data, st, k).value; k <= c.left && After(data, DropBits(c, k), s, n + k)
  {
    CheckRefines(data, st, k);
    var c := Check(data, st, k).value;
    RegisterBits(data, c, k);
    if st.short {
      if st.left < k { FillKeepsShort(data, st, k); }
    } else {
      if st.left < k { FillExact(data, st, k); } else { RegisterFits(data, st, k); }
      hide *;
      DroppedAfter(data, st, c, s, n, k);
    }
  }

  lemma RegisterFits(data: seq<byte>, st: BitState, k: nat)
    requires k <= st.left
    ensures k <= |Rest(data, st).bits|
  {
  }

  lemma DroppedAfter(data: seq<byte>, st: BitState, c: BitState, s: Stream, n: nat, k: nat)
    requires !st.short && After(data, st, s, n) && k <= c.left
    requires if k <= |Rest(data, st).bits| then !c.short && Rest(data, c) == Rest(data, st) else c.short
    requires Has(Rest(data, c), k) && Rest(data, DropBits(c, k)) == Drop(Rest(data, c), k)
    ensures After(data, DropBits(c, k), s, n + k)
  {
    hide Rest;
    if n + k <= |s.bits| {
      DropDrop(s, n, k);
    }
  }

  // ---------------------------------------------------------------- symbols

  lemma FetchAfter(data: seq<byte>, st: BitState, s: Stream, n: nat, code: nat)
    requires st.left <= 32 && After(data, st, s, n) && FetchBit(data, st, code).Some?
    ensures After(data, FetchBit(data, st, code).value.1, s, n + 1)
  {
    hide After;
    CheckAfter(data, st, s, n, 1);
  }

  /** The symbol found in s, after as many bits as its code has. */
  ghost predicate Ends(data: seq<byte>, s: Stream, tb: Table, o: Option<Symbol>) {
    o.Some? && Decode(tb.spec, Peek(s, 17)).Some? ==> After(data, o.value.st, s, Decode(tb.spec, Peek(s, 17)).value.len)
  }

  lemma {:induction false} CollectAfter(data: seq<byte>, st: BitState, tb: Table, s: Stream, l: nat)
    requires 1 <= l <= 17 && st.left <= 32 && Has(s, l) && Same(Rest(data, st), Drop(s, l)) && After(data, st, s, l)
    requires Val(Peek(s, l)) < Pow2(l)
    requires l <= NUM_LENGTHS ==> FirstCode(tb.spec, l) <= Val(Peek(s, l)) && Peek(s, 17)[..l] == Peek(s, l)
    requires Decode(tb.spec, Peek(s, 17)) == DecodeFrom(tb.spec, Peek(s, 17), l)
    ensures Ends(data, s, tb, Collect(data, st, tb, Val(Peek(s, l)), l))
    decreases 17 - l
  {
    var code := Val(Peek(s, l));
    hide Collect, After, FetchBit, Rest, Same, Val, Peek, Pow2, FirstCode;
    CollectNext(data, st, tb, code, l);
    if code > tb.d.maxcode[l] {
      FetchBitRefines(data, st, s, l);
      if FetchBit(data, st, code).Some? {
        OneFurther(tb, s, l);
        hide Decode, DecodeFrom;
        FetchAfter(data, st, s, l, code);
        CollectAfter(data, FetchBit(data, st, code).value.1, tb, s, l + 1);
      }
    }
  }

  lemma Unread(data: seq<byte>, st: BitState)
    requires !st.short
    ensures After(data, st, Rest(data, st), 0)
  {
  }

  lemma SlowAfter(data: seq<byte>, st: BitState, tb: Table, n: nat)
    requires 1 <= n <= NUM_LENGTHS && st.left <= 32 && !st.short
    requires var s := Rest(data, st);
      Has(s, n) ==> Peek(s, 17)[..n] == Peek(s, n) && FirstCode(tb.spec, n) <= Val(Peek(s, n))
                    && Decode(tb.spec, Peek(s, 17)) == DecodeFrom(tb.spec, Peek(s, 17), n)
    ensures Ends(data, Rest(data, st), tb, Slow(data, st, tb, n))
  {
    SlowIsCollect(data, st, tb, n);
    CheckRefines(data, st, n);
    hide *;
    if Check(data, st, n).Some? {
      var s, c := Rest(data, st), Check(data, st, n).value;
      RegisterBits(data, c, n);
      SameDrop(Rest(data, c), s, n);
      SamePeek(Rest(data, c), s, n);
      Unread(data, st);
      CheckAfter(data, st, s, 0, n);
      CollectAfter(data, DropBits(c, n), tb, s, n);
    }
  }

  lemma LookAfter(data: seq<byte>, st: BitState, tb: Table)
    requires LOOKAHEAD <= st.left <= 32 && !st.short
    ensures Ends(data, Rest(data, st), tb, Look(data, st, tb))
  {
    RegisterBits(data, st, LOOKAHEAD);
    Pow2Small();
    var s, v := Rest(data, st), PeekBits(st, LOOKAHEAD);
    PeekPrefix(s, LOOKAHEAD, 17);
    if tb.d.nbits[v] != 0 {
      assert LookOk(tb.spec, v, tb.d.nbits[v], tb.d.sym[v]);
      Unread(data, st);
      hide After, Rest, Peek, Val, PeekBits, Pow2, Decode;
      LookHit(tb, Peek(s, 17));
      CheckAfter(data, st, s, 0, tb.d.nbits[v]);
    } else {
      hide After, Rest, Peek, Val, PeekBits, Pow2, Decode;
      LookMiss(data, st, tb);
      MissAfter(data, st, tb);
    }
  }

  lemma MissAfter(data: seq<byte>, st: BitState, tb: Table)
    requires LOOKAHEAD <= st.left <= 32 && !st.short
    requires var s := Rest(data, st);
      Has(s, LOOKAHEAD) && |Peek(s, 17)| >= LOOKAHEAD && Peek(s, 17)[..LOOKAHEAD] == Peek(s, LOOKAHEAD)
      && var v := Val(Peek(s, LOOKAHEAD)); v < 256 && tb.d.nbits[v] == 0
    requires Has(Rest(data, st), LOOKAHEAD + 1) ==>
      FirstCode(tb.spec, LOOKAHEAD + 1) <= Val(Peek(Rest(data, st), LOOKAHEAD + 1))
    ensures Ends(data, Rest(data, st), tb, Slow(data, st, tb, LOOKAHEAD + 1))
  {
    assert LOOKAHEAD + 1 <= NUM_LENGTHS < 17;
    hide *;
    var s := Rest(data, st);
    if Has(s, LOOKAHEAD + 1) {
      PeekPrefix(s, LOOKAHEAD + 1, 17);
      MissSkips(tb, Peek(s, 17));
    }
    SlowAfter(data, st, tb, LOOKAHEAD + 1);
  }

  /** HUFF_DECODE sets the flag exactly when the symbol's code goes beyond the segment. */
  lemma SymbolAfter(data: seq<byte>, st: BitState, tb: Table, s: Stream)
    requires st.left <= 32 && !st.short && s == Rest(data, st)
    ensures Ends(data, s, tb, DecodeSymbol(data, st, tb))
  {
    if st.left < LOOKAHEAD {
      FillRefines(data, st, 0);
      if Fill(data, st, 0).Some? {
        FreeFill(data, st);
        var s1 := Fill(data, st, 0).value;
        if s1.left < LOOKAHEAD {
          if Has(s, 1) {
            assert Peek(s, 17)[..1] == Peek(s, 1);
          }
          SlowAfter(data, s1, tb, 1);
        } else {
          LookAfter(data, s1, tb);
        }
      }
    } else {
      LookAfter(data, st, tb);
    }
  }

  // ---------------------------------------------------------------- the flag stays set

  lemma CheckKeepsShort(data: seq<byte>, st: BitState, k: nat)
    requires st.left <= 32 && st.short && Check(data, st, k).Some?
    ensures Check(data, st, k).value.short
  {
    if st.left < k { FillKeepsShort(data, st, k); }
  }

  lemma {:induction false} CollectKeepsShort(data: seq<byte>, st: BitState, tb: Table, code: nat, l: nat)
    requires 1 <= l <= 17 && code < Pow2(l) && st.left <= 32 && st.short
    requires l <= NUM_LENGTHS ==> FirstCode(tb.spec, l) <= code
    ensures Collect(data, st, tb, code, l).Some? ==> Collect(data, st, tb, code, l).value.st.short
    decreases 17 - l
  {
    if code > tb.d.maxcode[l] {
      CollectGoesOn(tb, code, l);
      if FetchBit(data, st, code).Some? {
        CheckKeepsShort(data, st, 1);
        var r := FetchBit(data, st, code).value;
        CollectKeepsShort(data, r.1, tb, r.0, l + 1);
      }
    }
  }

  lemma SlowKeepsShort(data: seq<byte>, st: BitState, tb: Table, n: nat)
    requires 1 <= n <= NUM_LENGTHS && st.left <= 32 && st.short
    requires Has(Rest(data, st), n) ==> FirstCode(tb.spec, n) <= Val(Peek(Rest(data, st), n))
    ensures Slow(data, st, tb, n).Some? ==> Slow(data, st, tb, n).value.st.short
  {
    SlowIsCollect(data, st, tb, n);
    hide *;
    if Check(data, st, n).Some? {
      var c := Check(data, st, n).value;
      CheckKeepsShort(data, st, n);
      DropKeepsShort(c, n);
      CollectKeepsShort(data, DropBits(c, n), tb, PeekBits(c, n), n);
    }
  }

  lemma DropKeepsShort(st: BitState, n: nat)
    requires n <= st.left
    ensures DropBits(st, n).short == st.short && DropBits(st, n).left == st.left - n
  {
  }

  lemma LookKeepsShort(data: seq<byte>, st: BitState, tb: Table)
    requires LOOKAHEAD <= st.left <= 32 && st.short
    ensures Look(data, st, tb).Some? ==> Look(data, st, tb).value.st.short
  {
    RegisterBits(data, st, LOOKAHEAD);
    Pow2Small();
    if tb.d.nbits[PeekBits(st, LOOKAHEAD)] == 0 {
      LookMiss(data, st, tb);
      SlowKeepsShort(data, st, tb, LOOKAHEAD + 1);
    }
  }

  lemma SymbolKeepsShort(data: seq<byte>, st: BitState, tb: Table)
    requires st.left <= 32 && st.short
    ensures DecodeSymbol(data, st, tb).Some? ==> DecodeSymbol(data, st, tb).value.st.short
  {
    if st.left < LOOKAHEAD {
      FillRefines(data, st, 0);
      if Fill(data, st, 0).Some? {
        FreeFill(data, st);
        var c := Fill(data, st, 0).value;
        if c.left < LOOKAHEAD { SlowKeepsShort(data, c, tb, 1); } else { LookKeepsShort(data, c, tb); }
      }
    } else {
      LookKeepsShort(data, st, tb);
    }
  }

  // ---------------------------------------------------------------- as a source

  /** A stream being read: what is left of it, and whether more than its bits has been read. */
  datatype Reading = Reading(s: Stream, over: bool)

  function MeteredSymbol(r: Reading, tb: Table): Option<(byte, Reading)> {
    match AbsSymbol(r.s, tb)
    case None => None
    case Some((y, s1)) => Some((y, Reading(s1, r.over || Decode(tb.spec, Peek(r.s, 17)).value.len > |r.s.bits|)))
  }

  function MeteredReceive(r: Reading, n: Width): Option<(nat, Reading)> {
    match AbsReceive(r.s, n)
    case None => None
    case Some((v, s1)) => Some((v, Reading(s1, r.over || n > |r.s.bits|)))
  }

  /** The standard's source with that account kept. */
  function Metered(): BitSource<Reading> {
    BitSource((r: Reading, tb: Table) => MeteredSymbol(r, tb), (r: Reading, n: Width) => MeteredReceive(r, n))
  }

  /** The register and the flag against the stream and the account. */
  ghost predicate Reads(data: seq<byte>, st: Register, r: Reading) {
    Denotes(data, st, r.s) && st.short == r.over && (!r.over ==> Rest(data, st) == r.s)
  }

  lemma SymbolReads(data: seq<byte>, st: Register, r: Reading, tb: Table)
    requires Reads(data, st, r) && ReadSymbol(data, st, tb).Some?
    ensures MeteredSymbol(r, tb).Some? && MeteredSymbol(r, tb).value.0 == ReadSymbol(data, st, tb).value.0
    ensures Reads(data, ReadSymbol(data, st, tb).value.1, MeteredSymbol(r, tb).value.1)
  {
    SymbolRefines(data, st, r.s, tb);
    DecodeSymbolCorrect(data, st, tb);
    hide Denotes, Rest;
    if r.over {
      SymbolKeepsShort(data, st, tb);
    } else {
      SymbolAfter(data, st, tb, r.s);
    }
  }

  lemma ReceiveReads(data: seq<byte>, st: Register, r: Reading, n: Width)
    requires Reads(data, st, r) && Receive(data, st, n).Some?
    ensures MeteredReceive(r, n).Some? && MeteredReceive(r, n).value.0 == Receive(data, st, n).value.0
    ensures Reads(data, Receive(data, st, n).value.1, MeteredReceive(r, n).value.1)
  {
    ReceiveRefines(data, st, r.s, n);
    CheckRefines(data, st, n);
    hide Denotes, Rest, Check;
    if r.over {
      CheckKeepsShort(data, st, n);
    } else {
      Unread(data, st);
      CheckAfter(data, st, r.s, 0, n);
    }
  }

  /** Whatever the register delivers the stream delivers, and the flag is the account: it is set exactly
      when more has been read than the segment's bits. */
  lemma ConcreteMetered(data: seq<byte>)
    ensures Simulates(Concrete(data), Metered(), (st, r) => Reads(data, st, r))
  {
    var rel := (st, r) => Reads(data, st, r);
    forall st: Register, r: Reading, tb: Table | rel(st, r) && Concrete(data).symbol(st, tb).Some?
      ensures Matched(Concrete(data).symbol(st, tb), Metered().symbol(r, tb), rel)
    {
      SymbolReads(data, st, r, tb);
    }
    forall st: Register, r: Reading, n: Width | rel(st, r) && Concrete(data).receive(st, n).Some?
      ensures Matched(Concrete(data).receive(st, n), Metered().receive(r, n), rel)
    {
      ReceiveReads(data, st, r, n);
    }
  }

  function IsShort(st: Register): bool {
    st.short
  }

  function IsOver(r: Reading): bool {
    r.over
  }
}
