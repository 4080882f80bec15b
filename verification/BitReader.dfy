/** The bit reader as the decoder runs it: registers and input pointers updated in place. */
module BitReader {
  import opened Wrappers
  import opened Bits
  import opened HuffTable
  import opened BitStream
  import opened HuffDecode

  /** The part of the decompressor that survives from one MCU to the next and that bit
      reading touches.  data holds every byte the application has delivered so far;
      srcPos is the source manager's read position. */
  class Decompressor {
    var data: seq<byte>
    var srcPos: nat
    var unreadMarker: byte
    var insufficientData: bool
    var discardedBytes: nat
    var nextRestartNum: nat

    constructor ()
      ensures data == [] && srcPos == 0 && unreadMarker == 0 && !insufficientData
      ensures discardedBytes == 0 && nextRestartNum == 0
    {
      data, srcPos, unreadMarker, insufficientData, discardedBytes, nextRestartNum := [], 0, 0, false, 0, 0;
    }
  }

  /** Working state within one MCU: a private copy of the read position and the register. */
  class Reader {
    const cinfo: Decompressor
    var next: nat
    var getBuffer: int
    var bitsLeft: nat

    constructor (cinfo: Decompressor, next: nat, getBuffer: int, bitsLeft: nat)
      ensures this.cinfo == cinfo && this.next == next
      ensures this.getBuffer == getBuffer && this.bitsLeft == bitsLeft
    {
      this.cinfo := cinfo;
      this.next := next;
      this.getBuffer := getBuffer;
      this.bitsLeft := bitsLeft;
    }

    function State(): BitState
      reads this, cinfo
    {
      BitState(next, cinfo.unreadMarker, cinfo.insufficientData, getBuffer, bitsLeft)
    }

    /** jpeg_fill_bit_buffer: false means the source must suspend. */
    method FillBitBuffer(nbits: nat) returns (ok: bool)
      requires bitsLeft <= 32 && nbits <= MIN_GET_BITS
      modifies this, cinfo`unreadMarker, cinfo`insufficientData
      ensures ok <==> Fill(cinfo.data, old(State()), nbits).Some?
      ensures ok ==> State() == Fill(cinfo.data, old(State()), nbits).value
      ensures !ok ==> unchanged(this) && unchanged(cinfo) && cinfo.unreadMarker == 0
      ensures cinfo.unreadMarker == 0 ==> unchanged(cinfo)
    {
      hide Wrap32, Pow2;
      ghost var data := cinfo.data;
      ghost var st0 := State();
      var pos, buf, left := next, getBuffer, bitsLeft;
      if cinfo.unreadMarker == 0 {
        while left < MIN_GET_BITS
          invariant 0 <= pos && cinfo.data == data && unchanged(this) && unchanged(cinfo)
          invariant Load(data, BitState(pos, 0, st0.short, buf, left)) == Load(data, st0)
          decreases 32 - left
        {
          if pos >= |cinfo.data| {
            return false;
          }
          var c: byte := cinfo.data[pos];
          pos := pos + 1;
          if c == 0xFF {
            var starved;
            starved, c, pos := SkipPadding(pos);
            if starved {
              return false;
            }
            if c == 0 {
              c := 0xFF;
            } else {
              cinfo.unreadMarker := c;
              break;
            }
          }
          buf := Wrap32(buf * 256 + c);
          left := left + 8;
        }
      }
      if cinfo.unreadMarker != 0 && nbits > left {
        if !cinfo.insufficientData {
          cinfo.insufficientData := true;
        }
        buf := Wrap32(buf * Pow2(MIN_GET_BITS - left));
        left := MIN_GET_BITS;
      }
      next, getBuffer, bitsLeft := pos, buf, left;
      ok := true;
    }

    /** After an FF: swallows further FFs and returns the byte that ends them. */
    method SkipPadding(start: nat) returns (starved: bool, c: byte, pos: nat)
      ensures starved <==> AfterFF(cinfo.data, start).Starved?
      ensures !starved ==> AfterFF(cinfo.data, start) == if c == 0 then Datum(0xFF, pos) else Mark(c, pos)
    {
      c, pos := 0xFF, start;
      while c == 0xFF
        invariant start <= pos
        invariant if c == 0xFF then AfterFF(cinfo.data, pos) == AfterFF(cinfo.data, start)
                  else AfterFF(cinfo.data, start) == if c == 0 then Datum(0xFF, pos) else Mark(c, pos)
        decreases |cinfo.data| - pos, if c == 0xFF then 1 else 0
      {
        if pos >= |cinfo.data| {
          return true, c, pos;
        }
        c := cinfo.data[pos];
        pos := pos + 1;
      }
      starved := false;
    }

    /** CHECK_BIT_BUFFER. */
    method CheckBitBuffer(nbits: nat) returns (ok: bool)
      requires bitsLeft <= 32 && nbits <= MIN_GET_BITS
      modifies this, cinfo`unreadMarker, cinfo`insufficientData
      ensures ok <==> Check(cinfo.data, old(State()), nbits).Some?
      ensures ok ==> State() == Check(cinfo.data, old(State()), nbits).value && nbits <= bitsLeft <= 32
      ensures !ok ==> unchanged(this) && unchanged(cinfo) && cinfo.unreadMarker == 0
      ensures cinfo.unreadMarker == 0 ==> unchanged(cinfo)
    {
      CheckRefines(cinfo.data, State(), nbits);
      FillRefines(cinfo.data, State(), nbits);
      ok := true;
      if bitsLeft < nbits {
        ok := FillBitBuffer(nbits);
      }
    }

    /** GET_BITS. */
    method GetBits(nbits: nat) returns (v: nat)
      requires nbits <= bitsLeft
      modifies this`bitsLeft
      ensures v == PeekBits(old(State()), nbits) && State() == DropBits(old(State()), nbits)
    {
      ShiftAndMask(State(), nbits);
      bitsLeft := bitsLeft - nbits;
      v := getBuffer / Pow2(bitsLeft) % Pow2(nbits);
    }

    /** The lookahead index: PEEK_BITS(8). */
    method PeekEight() returns (look: nat)
      requires LOOKAHEAD <= bitsLeft
      ensures look == PeekBits(State(), LOOKAHEAD) < 256
    {
      ShiftAndMask(State(), LOOKAHEAD);
      RegisterBits(cinfo.data, State(), LOOKAHEAD);
      Pow2Small();
      look := getBuffer / Pow2(bitsLeft - LOOKAHEAD) % Pow2(LOOKAHEAD);
    }

    /** The bit-collecting step of jpeg_huff_decode's loop. */
    method AppendBit(code: nat) returns (ok: bool, code': nat)
      requires bitsLeft <= 32
      modifies this, cinfo`unreadMarker, cinfo`insufficientData
      ensures ok <==> FetchBit(cinfo.data, old(State()), code).Some?
      ensures ok ==> (code', State()) == FetchBit(cinfo.data, old(State()), code).value && bitsLeft <= 32
      ensures !ok ==> unchanged(this) && unchanged(cinfo) && cinfo.unreadMarker == 0
      ensures cinfo.unreadMarker == 0 ==> unchanged(cinfo)
    {
      CheckRefines(cinfo.data, State(), 1);
      code' := code * 2;
      ok := CheckBitBuffer(1);
      if ok {
        var bit := GetBits(1);
        code' := code' + bit;
      }
    }

    /** jpeg_huff_decode. */
    method JpegHuffDecode(tb: Table, minBits: nat) returns (ok: bool, result: byte)
      requires bitsLeft <= 32 && 1 <= minBits <= NUM_LENGTHS
      requires var s := Rest(cinfo.data, State());
        Has(s, minBits) ==> FirstCode(tb.spec, minBits) <= Val(Peek(s, minBits))
      modifies this, cinfo`unreadMarker, cinfo`insufficientData
      ensures ok <==> Slow(cinfo.data, old(State()), tb, minBits).Some?
      ensures ok ==> Symbol(result, State()) == Slow(cinfo.data, old(State()), tb, minBits).value
      ensures !ok ==> unchanged(cinfo) && cinfo.unreadMarker == 0
      ensures cinfo.unreadMarker == 0 ==> unchanged(cinfo)
    {
      SlowIsCollect(cinfo.data, State(), tb, minBits);
      result := 0;
      ok := CheckBitBuffer(minBits);
      if !ok { return; }
      var code := GetBits(minBits);
      ok, result := CollectBits(tb, code, minBits);
    }

    /** jpeg_huff_decode's loop: the rest of the code, one bit at a time. */
    method CollectBits(tb: Table, first: nat, minBits: nat) returns (ok: bool, result: byte)
      requires bitsLeft <= 32 && 1 <= minBits <= NUM_LENGTHS && first < Pow2(minBits)
      requires FirstCode(tb.spec, minBits) <= first
      modifies this, cinfo`unreadMarker, cinfo`insufficientData
      ensures ok <==> Collect(cinfo.data, old(State()), tb, first, minBits).Some?
      ensures ok ==> Symbol(result, State()) == Collect(cinfo.data, old(State()), tb, first, minBits).value
      ensures !ok ==> unchanged(cinfo) && cinfo.unreadMarker == 0
      ensures cinfo.unreadMarker == 0 ==> unchanged(cinfo)
    {
      hide FirstCode, Count, Rest, FetchBit, Pow2;
      ghost var data := cinfo.data;
      ghost var goal := Collect(data, State(), tb, first, minBits);
      result := 0;
      ok := true;
      var code: nat, l: nat := first, minBits;
      while code > tb.d.maxcode[l]
        invariant minBits <= l <= 17 && code < Pow2(l) && bitsLeft <= 32
        invariant l <= NUM_LENGTHS ==> FirstCode(tb.spec, l) <= code
        invariant Collect(data, State(), tb, code, l) == goal
        invariant ok && (cinfo.unreadMarker == 0 ==> unchanged(cinfo))
        decreases 17 - l
      {
        CollectGoesOn(tb, code, l);
        CheckRefines(data, State(), 1);
        ok, code := AppendBit(code);
        if !ok { return; }
        l := l + 1;
      }
      if l > 16 {
        result := 0;
      } else {
        CodeIndexOk(tb, code, l);
        result := tb.spec.huffval[code + tb.d.valoffset[l]];
      }
    }

    /** The table lookup of HUFF_DECODE, once 8 bits are in the register. */
    method LookAhead(tb: Table) returns (ok: bool, result: byte)
      requires LOOKAHEAD <= bitsLeft <= 32
      modifies this, cinfo`unreadMarker, cinfo`insufficientData
      ensures ok <==> Look(cinfo.data, old(State()), tb).Some?
      ensures ok ==> Symbol(result, State()) == Look(cinfo.data, old(State()), tb).value
      ensures !ok ==> unchanged(cinfo) && cinfo.unreadMarker == 0
      ensures cinfo.unreadMarker == 0 ==> unchanged(cinfo)
    {
      var look := PeekEight();
      var nb := tb.d.nbits[look];
      if nb != 0 {
        assert LookOk(tb.spec, look, nb, tb.d.sym[look]);
        bitsLeft := bitsLeft - nb;
        result := tb.d.sym[look];
        ok := true;
      } else {
        LookMiss(cinfo.data, State(), tb);
        ok, result := JpegHuffDecode(tb, LOOKAHEAD + 1);
      }
    }

    /** The HUFF_DECODE macro. */
    method HuffDecode(tb: Table) returns (ok: bool, result: byte)
      requires bitsLeft <= 32
      modifies this, cinfo`unreadMarker, cinfo`insufficientData
      ensures ok <==> DecodeSymbol(cinfo.data, old(State()), tb).Some?
      ensures ok ==> Symbol(result, State()) == DecodeSymbol(cinfo.data, old(State()), tb).value
      ensures ok ==> bitsLeft <= 32
      ensures !ok ==> unchanged(cinfo) && cinfo.unreadMarker == 0
      ensures cinfo.unreadMarker == 0 ==> unchanged(cinfo)
    {
      DecodeSymbolCorrect(cinfo.data, State(), tb);
      if bitsLeft < LOOKAHEAD {
        FillRefines(cinfo.data, State(), 0);
        ok := FillBitBuffer(0);
        if !ok { return false, 0; }
        if bitsLeft < LOOKAHEAD {
          ok, result := JpegHuffDecode(tb, 1);
          return;
        }
      }
      ok, result := LookAhead(tb);
    }
  }
}
