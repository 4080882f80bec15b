/** The bytes an encoder writes for the segments of a scan (sections B.1.1.5 and F.1.2.3 of ITU-T T.81): bits
    packed and filled up with ones, FF bytes stuffed, a restart marker after each segment but the last. */
module SegmentLayout {
  import opened Wrappers
  import opened Bits
  import opened BitStream
  import opened Markers
  import opened SegmentEnds
  import opened RestartIntervals

  const M_EOI: byte := 0xD9

  /** Eight bits to a byte. */
  function Pack(bits: seq<bool>): (bs: seq<byte>)
    requires |bits| % 8 == 0
  {
    if bits == [] then []
    else
      ValBound(bits[..8]);
      Pow2Small();
      [Val(bits[..8])] + Pack(bits[8..])
  }

  function Unpack(bs: seq<byte>): seq<bool> {
    if bs == [] then [] else ToBits(bs[0], 8) + Unpack(bs[1..])
  }

  lemma {:induction false} PackedBits(bits: seq<bool>)
    requires |bits| % 8 == 0
    ensures Unpack(Pack(bits)) == bits
  {
    if bits != [] {
      ToBitsVal(bits[..8]);
      PackedBits(bits[8..]);
      assert bits == bits[..8] + bits[8..];
    }
  }

  function Ones(n: nat): (s: seq<bool>)
    ensures |s| == n
  {
    seq(n, _ => true)
  }

  /** Filled up to whole bytes. */
  function Padded(bits: seq<bool>): (r: seq<bool>)
    ensures bits <= r && |r| % 8 == 0 && |r| - |bits| < 8
  {
    bits + Ones((8 - |bits| % 8) % 8)
  }

  function StuffByte(c: byte): seq<byte> {
    if c == 0xFF then [0xFF, 0] else [c]
  }

  function Stuff(bs: seq<byte>): seq<byte> {
    if bs == [] then [] else StuffByte(bs[0]) + Stuff(bs[1..])
  }

  lemma ByteFollows(pre: seq<byte>, c: byte, tail: seq<byte>)
    ensures NextByte(pre + StuffByte(c) + tail, |pre|) == Datum(c, |pre| + |StuffByte(c)|)
  {
    var data := pre + StuffByte(c) + tail;
    assert data[|pre|] == c;
    if c == 0xFF { assert data[|pre| + 1] == 0; }
  }

  lemma MarkerFollows(pre: seq<byte>, m: byte, tail: seq<byte>)
    requires m != 0 && m != 0xFF
    ensures NextByte(pre + [0xFF, m] + tail, |pre|) == Mark(m, |pre| + 2)
  {
    var data := pre + [0xFF, m] + tail;
    assert data[|pre|] == 0xFF && data[|pre| + 1] == m;
  }

  lemma AtDatum(data: seq<byte>, pos: nat, c: byte, next: nat)
    requires NextByte(data, pos) == Datum(c, next)
    ensures Destuff(data, pos) == Stream(ToBits(c, 8) + Destuff(data, next).bits, Destuff(data, next).ended)
    ensures MarkerAfter(data, pos) == MarkerAfter(data, next)
  {
    hide ToBits;
  }

  lemma AtMark(data: seq<byte>, pos: nat, m: byte, next: nat)
    requires m != 0 && NextByte(data, pos) == Mark(m, next)
    ensures Destuff(data, pos) == Stream([], true) && MarkerAfter(data, pos) == Some((m, next))
  {
  }

  lemma Regroup(a: seq<byte>, b: seq<byte>, c: seq<byte>, d: seq<byte>, e: seq<byte>)
    ensures a + (b + c) + d + e == (a + b) + c + d + e == a + b + (c + d + e)
  {
  }

  lemma StuffParts(bs: seq<byte>)
    requires bs != []
    ensures Stuff(bs) == StuffByte(bs[0]) + Stuff(bs[1..]) && Unpack(bs) == ToBits(bs[0], 8) + Unpack(bs[1..])
  {
    hide StuffByte, ToBits;
  }

  lemma StuffNone(pre: seq<byte>)
    ensures pre + Stuff([]) == pre && Unpack([]) == [] && Stuff([]) == []
  {
  }

  /** Destuffing undoes stuffing, up to the marker. */
  lemma {:induction false} StuffedSegment(pre: seq<byte>, bs: seq<byte>, m: byte, tail: seq<byte>)
    requires m != 0 && m != 0xFF
    ensures var data := pre + Stuff(bs) + [0xFF, m] + tail;
      && Destuff(data, |pre|) == Stream(Unpack(bs), true)
      && MarkerAfter(data, |pre|) == Some((m, |pre| + |Stuff(bs)| + 2))
    decreases |bs|
  {
    hide *;
    var data := pre + Stuff(bs) + [0xFF, m] + tail;
    if bs == [] {
      StuffNone(pre);
      MarkerFollows(pre, m, tail);
      AtMark(data, |pre|, m, |pre| + 2);
    } else {
      var pre1, more := pre + StuffByte(bs[0]), Stuff(bs[1..]);
      StuffParts(bs);
      Regroup(pre, StuffByte(bs[0]), more, [0xFF, m], tail);
      ByteFollows(pre, bs[0], more + [0xFF, m] + tail);
      StuffedSegment(pre1, bs[1..], m, tail);
      AtDatum(data, |pre|, bs[0], |pre1|);
    }
  }

  // ---------------------------------------------------------------- a whole scan

  function SegmentBytes(bits: seq<bool>): seq<byte> {
    Stuff(Pack(Padded(bits)))
  }

  /** The bytes of all segments, restart markers counting on from rst, and the end of the image. */
  function LayOut(segs: seq<seq<bool>>, rst: nat): seq<byte>
    requires rst < 8
    decreases |segs|
  {
    if segs == [] then []
    else if |segs| == 1 then SegmentBytes(segs[0]) + [0xFF, M_EOI]
    else SegmentBytes(segs[0]) + [0xFF, M_RST0 + rst] + LayOut(segs[1..], (rst + 1) % 8)
  }

  /** One segment for each stretch between restarts, with its codes. */
  ghost predicate Coded(segs: seq<seq<bool>>, interval: nat, total: nat, m: nat, codes: Coding)
    requires m <= total
    decreases total - m
  {
    var n := Stretch(interval, total, m);
    && segs != [] && codes(m, n, segs[0])
    && if m + n < total then Coded(segs[1..], interval, total, m + n, codes) else |segs| == 1
  }

  lemma SegmentFollows(pre: seq<byte>, bits: seq<bool>, m: byte, tail: seq<byte>)
    requires m != 0 && m != 0xFF
    ensures var data := pre + SegmentBytes(bits) + [0xFF, m] + tail;
      && Destuff(data, |pre|) == Stream(Padded(bits), true)
      && MarkerAfter(data, |pre|) == Some((m, |pre + SegmentBytes(bits) + [0xFF, m]|))
  {
    hide *;
    PackedBits(Padded(bits));
    SegmentIs(bits);
    StuffedSegment(pre, Pack(Padded(bits)), m, tail);
  }

  lemma SegmentIs(bits: seq<bool>)
    ensures SegmentBytes(bits) == Stuff(Pack(Padded(bits)))
  {
  }

  lemma LastSegment(pre: seq<byte>, bits: seq<bool>, rst: nat, interval: nat, total: nat, m: nat, codes: Coding)
    requires m <= total && rst < 8 && m + Stretch(interval, total, m) == total && codes(m, total - m, bits)
    ensures var data := pre + SegmentBytes(bits) + [0xFF, M_EOI];
      Laid(data, |pre|, rst, interval, total, m, codes) && Closed(data, |pre|, interval, total, m)
  {
    var data := pre + SegmentBytes(bits) + [0xFF, M_EOI];
    assert data + [] == data;
    SegmentFollows(pre, bits, M_EOI, []);
    hide Destuff, MarkerAfter, SegmentBytes;
    assert Segment(data, |pre|, rst, interval, total, m, codes, bits);
  }

  lemma OneSegment(data: seq<byte>, pos: nat, bits: seq<bool>, rst: nat, interval: nat, total: nat, m: nat,
      codes: Coding, next: nat)
    requires m <= total && rst < 8 && codes(m, Stretch(interval, total, m), bits)
    requires Destuff(data, pos) == Stream(Padded(bits), true) && MarkerAfter(data, pos) == Some((M_RST0 + rst, next))
    requires var n := Stretch(interval, total, m);
      && m + n < total && Laid(data, next, (rst + 1) % 8, interval, total, m + n, codes)
      && Closed(data, next, interval, total, m + n)
    ensures Laid(data, pos, rst, interval, total, m, codes) && Closed(data, pos, interval, total, m)
  {
    hide Destuff, MarkerAfter, Padded;
    assert Segment(data, pos, rst, interval, total, m, codes, bits);
  }

  lemma LastLaidOut(pre: seq<byte>, segs: seq<seq<bool>>, rst: nat, interval: nat, total: nat, m: nat, codes: Coding)
    requires m <= total && rst < 8 && Coded(segs, interval, total, m, codes)
    requires m + Stretch(interval, total, m) == total
    ensures segs != [] && codes(m, total - m, segs[0])
    ensures pre + LayOut(segs, rst) == pre + SegmentBytes(segs[0]) + [0xFF, M_EOI]
  {
    hide SegmentBytes, Stretch;
    assert pre + (SegmentBytes(segs[0]) + [0xFF, M_EOI]) == pre + SegmentBytes(segs[0]) + [0xFF, M_EOI];
  }

  lemma NextLaidOut(pre: seq<byte>, segs: seq<seq<bool>>, rst: nat, interval: nat, total: nat, m: nat, codes: Coding)
    requires m <= total && rst < 8 && Coded(segs, interval, total, m, codes)
    requires m + Stretch(interval, total, m) < total
    ensures segs != [] && codes(m, Stretch(interval, total, m), segs[0])
    ensures Coded(segs[1..], interval, total, m + Stretch(interval, total, m), codes)
    ensures pre + LayOut(segs, rst)
         == pre + SegmentBytes(segs[0]) + [0xFF, M_RST0 + rst] + LayOut(segs[1..], (rst + 1) % 8)
  {
    hide SegmentBytes, Stretch;
    assert |segs| > 1;
    var a, b, c := SegmentBytes(segs[0]), [0xFF, M_RST0 + rst], LayOut(segs[1..], (rst + 1) % 8);
    assert pre + (a + b + c) == pre + a + b + c;
  }

  /** A segment in front of what is laid out already. */
  lemma InFront(pre: seq<byte>, bits: seq<bool>, mk: byte, tail: seq<byte>, rst: nat, interval: nat, total: nat, m: nat,
      codes: Coding)
    requires m <= total && rst < 8 && mk == M_RST0 + rst && codes(m, Stretch(interval, total, m), bits)
    requires var n, pre1 := Stretch(interval, total, m), pre + SegmentBytes(bits) + [0xFF, mk];
      && m + n < total && Laid(pre1 + tail, |pre1|, (rst + 1) % 8, interval, total, m + n, codes)
      && Closed(pre1 + tail, |pre1|, interval, total, m + n)
    ensures var data := pre + SegmentBytes(bits) + [0xFF, mk] + tail;
      Laid(data, |pre|, rst, interval, total, m, codes) && Closed(data, |pre|, interval, total, m)
  {
    var pre1 := pre + SegmentBytes(bits) + [0xFF, mk];
    assert mk != 0 && mk != 0xFF;
    hide SegmentBytes, Destuff, MarkerAfter, Laid, Closed, Padded, Stretch;
    SegmentFollows(pre, bits, mk, tail);
    OneSegment(pre1 + tail, |pre|, bits, rst, interval, total, m, codes, |pre1|);
  }

  /** What the encoder writes is laid out as the decoder wants it, down to the last marker. */
  lemma {:induction false} LaidOut(pre: seq<byte>, segs: seq<seq<bool>>, rst: nat, interval: nat, total: nat, m: nat,
      codes: Coding)
    requires m <= total && rst < 8 && Coded(segs, interval, total, m, codes)
    ensures var data := pre + LayOut(segs, rst);
      Laid(data, |pre|, rst, interval, total, m, codes) && Closed(data, |pre|, interval, total, m)
    decreases total - m
  {
    var mk: byte := M_RST0 + rst;
    hide *;
    var n := Stretch(interval, total, m);
    if m + n == total {
      LastLaidOut(pre, segs, rst, interval, total, m, codes);
      LastSegment(pre, segs[0], rst, interval, total, m, codes);
    } else {
      NextLaidOut(pre, segs, rst, interval, total, m, codes);
      var pre1, tail := pre + SegmentBytes(segs[0]) + [0xFF, mk], LayOut(segs[1..], (rst + 1) % 8);
      LaidOut(pre1, segs[1..], (rst + 1) % 8, interval, total, m + n, codes);
      InFront(pre, segs[0], mk, tail, rst, interval, total, m, codes);
    }
  }
}
