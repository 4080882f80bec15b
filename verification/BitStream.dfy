/** The entropy-coded segment as a bit stream, and the prefetching 32-bit register
    that hides it from the Huffman decoder. */
module BitStream {
  import opened Wrappers
  import opened Bits

  const MIN_GET_BITS := 25

  // ---------------------------------------------------------------- the abstract stream

  /** Bits not yet consumed.  After the terminating marker the stream goes on with
      zeros for ever (ended); otherwise what follows bits has not arrived yet. */
  datatype Stream = Stream(bits: seq<bool>, ended: bool)

  ghost predicate Has(s: Stream, n: nat) {
    s.ended || n <= |s.bits|
  }

  /** The first n bits, or fewer when no more have arrived. */
  function Peek(s: Stream, n: nat): (bs: seq<bool>)
    ensures Has(s, n) ==> |bs| == n
    ensures !Has(s, n) ==> bs == s.bits
  {
    if n <= |s.bits| then s.bits[..n]
    else if s.ended then s.bits + Zeros(n - |s.bits|)
    else s.bits
  }

  function Drop(s: Stream, n: nat): Stream
    requires Has(s, n)
  {
    Stream(if n <= |s.bits| then s.bits[n..] else [], s.ended)
  }

  /** Two streams no reader can tell apart. */
  ghost predicate Same(s: Stream, t: Stream) {
    s.ended == t.ended && forall n: nat :: Peek(s, n) == Peek(t, n)
  }

  lemma PeekDrop(s: Stream, n: nat, m: nat)
    requires Has(s, n)
    ensures |Peek(s, n + m)| >= n
    ensures Peek(Drop(s, n), m) == Peek(s, n + m)[n..]
    ensures Has(Drop(s, n), m) <==> Has(s, n + m)
  {
  }

  lemma SameHas(s: Stream, t: Stream, n: nat)
    requires Same(s, t)
    ensures Has(s, n) <==> Has(t, n)
  {
    assert Peek(s, n) == Peek(t, n);
    if !s.ended {
      var k := |s.bits| + |t.bits| + n;
      assert Peek(s, k) == Peek(t, k);
    }
  }

  lemma SameDrop(s: Stream, t: Stream, n: nat)
    requires Same(s, t) && Has(s, n)
    ensures Has(t, n) && Same(Drop(s, n), Drop(t, n))
  {
    SameHas(s, t, n);
    forall m: nat ensures Peek(Drop(s, n), m) == Peek(Drop(t, n), m) {
      PeekDrop(s, n, m);
      PeekDrop(t, n, m);
      assert Peek(s, n + m) == Peek(t, n + m);
    }
  }

  lemma DropDrop(s: Stream, n: nat, m: nat)
    requires Has(s, n + m)
    ensures Has(s, n) && Has(Drop(s, n), m) && Drop(Drop(s, n), m) == Drop(s, n + m)
  {
  }

  lemma SamePadded(b: seq<bool>, k: nat)
    ensures Same(Stream(b, true), Stream(b + Zeros(k), true))
  {
    forall n: nat ensures Peek(Stream(b, true), n) == Peek(Stream(b + Zeros(k), true), n) {
    }
  }

  // ---------------------------------------------------------------- byte stuffing

  datatype ByteRead = Starved | Datum(c: byte, next: nat) | Mark(code: byte, next: nat)

  /** The next entropy-coded byte at pos: FF FF* 00 is one FF byte, FF FF* m is marker m. */
  function NextByte(data: seq<byte>, pos: nat): (r: ByteRead)
    ensures r.Datum? ==> pos < r.next <= |data|
    ensures r.Mark? ==> pos < r.next <= |data| && r.code != 0
  {
    if pos >= |data| then Starved
    else if data[pos] != 0xFF then Datum(data[pos], pos + 1)
    else AfterFF(data, pos + 1)
  }

  function AfterFF(data: seq<byte>, pos: nat): (r: ByteRead)
    ensures r.Datum? ==> pos < r.next <= |data|
    ensures r.Mark? ==> pos < r.next <= |data| && r.code != 0
    decreases |data| - pos
  {
    if pos >= |data| then Starved
    else if data[pos] == 0xFF then AfterFF(data, pos + 1)
    else if data[pos] == 0 then Datum(0xFF, pos + 1)
    else Mark(data[pos], pos + 1)
  }

  /** The de-stuffed bits from pos on. */
  function Destuff(data: seq<byte>, pos: nat): Stream
    decreases |data| - pos
  {
    match NextByte(data, pos)
    case Starved => Stream([], false)
    case Mark(_, _) => Stream([], true)
    case Datum(c, next) =>
      var s := Destuff(data, next);
      Stream(ToBits(c, 8) + s.bits, s.ended)
  }

  lemma {:induction false} AfterFFStable(data: seq<byte>, more: seq<byte>, pos: nat)
    ensures !AfterFF(data, pos).Starved? ==> AfterFF(data + more, pos) == AfterFF(data, pos)
    decreases |data| - pos
  {
    if pos < |data| && data[pos] == 0xFF {
      AfterFFStable(data, more, pos + 1);
    }
  }

  lemma NextByteStable(data: seq<byte>, more: seq<byte>, pos: nat)
    ensures !NextByte(data, pos).Starved? ==> NextByte(data + more, pos) == NextByte(data, pos)
  {
    if pos < |data| && data[pos] == 0xFF {
      AfterFFStable(data, more, pos + 1);
    }
  }

  // ---------------------------------------------------------------- the register

  /** Bit-reading state: input position, pending marker (0 = none), the warned-once flag,
      and the register of which the low left bits are unread. */
  datatype BitState = BitState(pos: nat, marker: byte, short: bool, buf: int, left: nat)

  /** What is still to be read: the register, then the rest of the input. */
  function Rest(data: seq<byte>, st: BitState): Stream {
    if st.marker != 0 then Stream(ToBits(st.buf, st.left), true)
    else Stream(ToBits(st.buf, st.left) + Destuff(data, st.pos).bits, Destuff(data, st.pos).ended)
  }

  /** One byte shifted into the register. */
  function Absorb(st: BitState, c: byte, next: nat): BitState {
    st.(pos := next, buf := Wrap32(st.buf * 256 + c), left := st.left + 8)
  }

  /** Bytes are shifted in until the register is nearly full or a marker turns up;
      None when the input is exhausted first. */
  function Load(data: seq<byte>, st: BitState): Option<BitState>
    decreases MIN_GET_BITS - st.left
  {
    if st.left >= MIN_GET_BITS then Some(st)
    else
      match NextByte(data, st.pos)
      case Starved => None
      case Mark(m, next) => Some(st.(marker := m, pos := next))
      case Datum(c, next) =>
        Load(data, Absorb(st, c, next))
  }

  /** Bits made up once the marker is reached and the request cannot be met. */
  function Pad(st: BitState, nbits: nat): BitState {
    if st.marker != 0 && st.left < nbits && st.left <= MIN_GET_BITS then
      st.(short := true, buf := Wrap32(st.buf * Pow2(MIN_GET_BITS - st.left)), left := MIN_GET_BITS)
    else st
  }

  /** One jpeg_fill_bit_buffer call; None means suspension. */
  function Fill(data: seq<byte>, st: BitState, nbits: nat): Option<BitState> {
    if st.marker != 0 then Some(Pad(st, nbits))
    else
      match Load(data, st)
      case None => None
      case Some(s) => Some(Pad(s, nbits))
  }

  /** CHECK_BIT_BUFFER. */
  function Check(data: seq<byte>, st: BitState, nbits: nat): Option<BitState> {
    if st.left < nbits then Fill(data, st, nbits) else Some(st)
  }

  /** PEEK_BITS: the number spelled by the first n unread bits of the register. */
  function PeekBits(st: BitState, n: nat): nat
    requires n <= st.left
  {
    Val(ToBits(st.buf, st.left)[..n])
  }

  function DropBits(st: BitState, n: nat): BitState
    requires n <= st.left
  {
    st.(left := st.left - n)
  }

  // ---------------------------------------------------------------- refinement

  lemma ShiftInByte(buf: int, left: nat, c: byte)
    requires left + 8 <= 32
    ensures ToBits(Wrap32(buf * 256 + c), left + 8) == ToBits(buf, left) + ToBits(c, 8)
  {
    var v := buf * 256 + c;
    Wrap32Bits(v, left + 8);
    Pow2Small();
    ToBitsSplit(v, left, 8);
    QuotientIs(v, 256, buf, c);
    DivUnique(c, 256, 0, c);
    ToBitsMod(v, c, 8);
  }

  lemma ShiftInZeros(buf: int, left: nat, k: nat)
    requires left + k <= 32
    ensures ToBits(Wrap32(buf * Pow2(k)), left + k) == ToBits(buf, left) + Zeros(k)
  {
    var v := buf * Pow2(k);
    Wrap32Bits(v, left + k);
    ToBitsSplit(v, left, k);
    QuotientIs(v, Pow2(k), buf, 0);
    DivUnique(0, Pow2(k), 0, 0);
    ToBitsMod(v, 0, k);
    BitsOfZero(k);
  }

  lemma {:induction false} BitsOfZero(k: nat)
    ensures ToBits(0, k) == Zeros(k)
  {
    if k > 0 {
      BitsOfZero(k - 1);
    }
  }

  lemma DatumStep(data: seq<byte>, st: BitState, c: byte, next: nat)
    requires st.left + 8 <= 32 && st.marker == 0 && NextByte(data, st.pos) == Datum(c, next)
    ensures Rest(data, Absorb(st, c, next)) == Rest(data, st)
  {
    ShiftInByte(st.buf, st.left, c);
    var d := Destuff(data, next);
    assert Destuff(data, st.pos) == Stream(ToBits(c, 8) + d.bits, d.ended);
    Reassociate(ToBits(st.buf, st.left), ToBits(c, 8), d.bits);
  }

  lemma Reassociate(a: seq<bool>, b: seq<bool>, c: seq<bool>)
    ensures a + (b + c) == (a + b) + c
  {
  }

  lemma MarkStep(data: seq<byte>, st: BitState, m: byte, next: nat)
    requires st.marker == 0 && NextByte(data, st.pos) == Mark(m, next)
    ensures Rest(data, st.(marker := m, pos := next)) == Rest(data, st)
  {
    assert ToBits(st.buf, st.left) + [] == ToBits(st.buf, st.left);
  }

  lemma {:induction false} LoadBounds(data: seq<byte>, st: BitState)
    requires st.left <= 32 && st.marker == 0 && Load(data, st).Some?
    ensures var s := Load(data, st).value;
      && st.left <= s.left <= 32 && (s.marker == 0 ==> s.left >= MIN_GET_BITS)
      && s.pos >= st.pos && (st.pos <= |data| ==> s.pos <= |data|) && s.short == st.short
    decreases MIN_GET_BITS - st.left
  {
    if st.left < MIN_GET_BITS && NextByte(data, st.pos).Datum? {
      var b := NextByte(data, st.pos);
      LoadBounds(data, Absorb(st, b.c, b.next));
    }
  }

  lemma {:induction false} LoadRefines(data: seq<byte>, st: BitState)
    requires st.left <= 32 && st.marker == 0 && Load(data, st).Some?
    ensures Rest(data, Load(data, st).value) == Rest(data, st)
    decreases MIN_GET_BITS - st.left
  {
    if st.left < MIN_GET_BITS {
      match NextByte(data, st.pos)
      case Mark(m, next) =>
        MarkStep(data, st, m, next);
      case Datum(c, next) =>
        DatumStep(data, st, c, next);
        LoadRefines(data, Absorb(st, c, next));
    }
  }

  lemma {:induction false} LoadStarves(data: seq<byte>, st: BitState)
    requires st.left <= 32 && st.marker == 0 && Load(data, st).None?
    ensures !Rest(data, st).ended && |Rest(data, st).bits| < MIN_GET_BITS
    decreases MIN_GET_BITS - st.left
  {
    if NextByte(data, st.pos).Datum? {
      var b := NextByte(data, st.pos);
      DatumStep(data, st, b.c, b.next);
      LoadStarves(data, Absorb(st, b.c, b.next));
    }
  }

  /** The register refines the stream: a fill changes nothing a reader can observe and
      delivers the bits asked for; it suspends exactly when fewer than MIN_GET_BITS unread
      bits have arrived and no marker has. */
  lemma FillRefines(data: seq<byte>, st: BitState, nbits: nat)
    requires st.left <= 32 && nbits <= MIN_GET_BITS
    ensures Fill(data, st, nbits).None? <==>
              !Rest(data, st).ended && |Rest(data, st).bits| < MIN_GET_BITS
    ensures Fill(data, st, nbits).Some? ==>
              var s := Fill(data, st, nbits).value;
              && Same(Rest(data, s), Rest(data, st))
              && nbits <= s.left <= 32 && st.left <= s.left
              && (s.marker == 0 ==> s.left >= MIN_GET_BITS)
              && (st.marker != 0 ==> s.marker == st.marker && s.pos == st.pos)
              && s.pos >= st.pos && (st.pos <= |data| ==> s.pos <= |data|)
              && (s.marker == 0 ==> st.marker == 0 && s.short == st.short)
  {
    if st.marker == 0 {
      if Load(data, st).None? {
        LoadStarves(data, st);
      } else {
        LoadRefines(data, st);
        LoadBounds(data, st);
        PadRefines(data, Load(data, st).value, nbits);
        if !Rest(data, st).ended {
          assert Load(data, st).value.left >= MIN_GET_BITS;
        }
      }
    } else {
      PadRefines(data, st, nbits);
    }
  }

  lemma PadRefines(data: seq<byte>, st: BitState, nbits: nat)
    requires st.left <= 32 && nbits <= MIN_GET_BITS
    ensures Same(Rest(data, Pad(st, nbits)), Rest(data, st))
    ensures st.marker != 0 || st.left >= MIN_GET_BITS ==> nbits <= Pad(st, nbits).left
    ensures Pad(st, nbits).left <= 32 && Pad(st, nbits).left >= st.left
  {
    if st.marker != 0 && st.left < nbits {
      var k := MIN_GET_BITS - st.left;
      ShiftInZeros(st.buf, st.left, k);
      SamePadded(ToBits(st.buf, st.left), k);
      hide Pow2, ToBits;
      forall n: nat ensures Peek(Rest(data, Pad(st, nbits)), n) == Peek(Rest(data, st), n) {
      }
    }
  }

  lemma CheckRefines(data: seq<byte>, st: BitState, nbits: nat)
    requires st.left <= 32 && nbits <= MIN_GET_BITS
    ensures Check(data, st, nbits).None? ==> !Rest(data, st).ended && |Rest(data, st).bits| < MIN_GET_BITS
    ensures Check(data, st, nbits).Some? ==>
              var s := Check(data, st, nbits).value;
              && Same(Rest(data, s), Rest(data, st)) && nbits <= s.left <= 32
              && Has(Rest(data, st), nbits)
              && s.pos >= st.pos && (st.pos <= |data| ==> s.pos <= |data|)
  {
    FillRefines(data, st, nbits);
    if Check(data, st, nbits).Some? {
      var s := Check(data, st, nbits).value;
      SameHas(Rest(data, s), Rest(data, st), nbits);
    }
  }

  /** The arithmetic shift and mask of the macros extract exactly those bits. */
  lemma ShiftAndMask(st: BitState, n: nat)
    requires n <= st.left
    ensures PeekBits(st, n) == st.buf / Pow2(st.left - n) % Pow2(n)
  {
    var hi := ToBits(st.buf / Pow2(st.left - n), n);
    ToBitsSplit(st.buf, n, st.left - n);
    assert ToBits(st.buf, st.left)[..n] == hi;
    ValToBits(st.buf / Pow2(st.left - n), n);
  }

  /** Reading from the register reads from the stream. */
  lemma RegisterBits(data: seq<byte>, st: BitState, n: nat)
    requires n <= st.left
    ensures Has(Rest(data, st), n)
    ensures PeekBits(st, n) == Val(Peek(Rest(data, st), n)) < Pow2(n)
    ensures Rest(data, DropBits(st, n)) == Drop(Rest(data, st), n)
  {
    var all := ToBits(st.buf, st.left);
    ValBound(all[..n]);
    TailBits(st, n);
    RestSplit(data, st, n, all[..n], all[n..]);
  }

  lemma TailBits(st: BitState, n: nat)
    requires n <= st.left
    ensures ToBits(st.buf, st.left)[n..] == ToBits(st.buf, st.left - n)
  {
    ToBitsSplit(st.buf, n, st.left - n);
  }

  lemma RestSplit(data: seq<byte>, st: BitState, n: nat, hi: seq<bool>, lo: seq<bool>)
    requires n <= st.left && |hi| == n
    requires ToBits(st.buf, st.left) == hi + lo && ToBits(st.buf, st.left - n) == lo
    ensures Has(Rest(data, st), n) && Peek(Rest(data, st), n) == hi
    ensures Rest(data, DropBits(st, n)) == Drop(Rest(data, st), n)
  {
    if st.marker != 0 {
      assert hi + lo + [] == hi + lo && lo + [] == lo;
      StreamSplit(hi, lo, [], true);
    } else {
      StreamSplit(hi, lo, Destuff(data, st.pos).bits, Destuff(data, st.pos).ended);
    }
  }

  lemma StreamSplit(hi: seq<bool>, lo: seq<bool>, d: seq<bool>, ended: bool)
    ensures var s := Stream(hi + lo + d, ended);
            Has(s, |hi|) && Peek(s, |hi|) == hi && Drop(s, |hi|) == Stream(lo + d, ended)
  {
  }

  // ---------------------------------------------------------------- more input

  lemma {:induction false} LoadStable(data: seq<byte>, more: seq<byte>, st: BitState)
    ensures Load(data, st).Some? ==> Load(data + more, st) == Load(data, st)
    decreases MIN_GET_BITS - st.left
  {
    NextByteStable(data, more, st.pos);
    if st.left < MIN_GET_BITS && NextByte(data, st.pos).Datum? {
      var b := NextByte(data, st.pos);
      LoadStable(data, more, Absorb(st, b.c, b.next));
    }
  }

  /** A fill that succeeded on a prefix of the input does the very same on any longer input. */
  lemma FillStable(data: seq<byte>, more: seq<byte>, st: BitState, nbits: nat)
    ensures Fill(data, st, nbits).Some? ==> Fill(data + more, st, nbits) == Fill(data, st, nbits)
  {
    LoadStable(data, more, st);
  }
}
