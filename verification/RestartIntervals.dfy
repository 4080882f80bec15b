/** How the data of a scan with restart markers is laid out: segment after segment, each with the codes of
    the MCUs up to the next restart. */
module RestartIntervals {
  import opened Wrappers
  import opened Bits
  import opened BitStream
  import opened BitSources
  import opened Markers
  import opened SegmentEnds
  import Seq = SequentialMcu

  /** codes(m, n, bits): the bits code n MCUs from number m on. */
  type Coding = (nat, nat, seq<bool>) -> bool

  /** The MCUs up to the next restart, or to the end of the scan. */
  function Stretch(interval: nat, total: nat, m: nat): (n: nat)
    requires m <= total
    ensures m + n <= total && (m < total ==> n > 0)
    ensures interval != 0 ==> n <= interval && (m + n < total ==> n == interval)
    ensures interval == 0 ==> m + n == total
  {
    if interval == 0 || total - m <= interval then total - m else interval
  }

  /** From pos on the data holds the codes of MCU m and all that follow. */
  ghost predicate Laid(data: seq<byte>, pos: nat, rst: nat, interval: nat, total: nat, m: nat, codes: Coding)
    requires m <= total && rst < 8
    decreases total - m, 1
  {
    exists bits :: Segment(data, pos, rst, interval, total, m, codes, bits)
  }

  /** First come the bits of the MCUs up to the next restart.  If there are more MCUs then, the restart marker due
      ends the segment, behind whatever padding, and the rest is laid out behind. */
  ghost predicate Segment(data: seq<byte>, pos: nat, rst: nat, interval: nat, total: nat, m: nat, codes: Coding,
      bits: seq<bool>)
    requires m <= total && rst < 8
    decreases total - m, 0
  {
    var s, n := Destuff(data, pos), Stretch(interval, total, m);
    && codes(m, n, bits) && bits <= s.bits
    && (m + n < total ==>
          var mk := MarkerAfter(data, pos);
          && mk.Some? && mk.value.0 == M_RST0 + rst
          && Laid(data, mk.value.1, (rst + 1) % 8, interval, total, m + n, codes))
  }

  /** The marker that ends the last segment is there too. */
  predicate Closed(data: seq<byte>, pos: nat, interval: nat, total: nat, m: nat)
    requires m <= total
    decreases total - m
  {
    var n, mk := Stretch(interval, total, m), MarkerAfter(data, pos);
    mk.Some? && (m + n < total ==> Closed(data, mk.value.1, interval, total, m + n))
  }

  lemma ClosedParts(data: seq<byte>, pos: nat, interval: nat, total: nat, m: nat)
    requires m <= total && Closed(data, pos, interval, total, m)
    ensures var n, mk := Stretch(interval, total, m), MarkerAfter(data, pos);
      mk.Some? && (m + n < total ==> Closed(data, mk.value.1, interval, total, m + n))
  {
    hide MarkerAfter, Stretch;
  }

  lemma FirstSegment(data: seq<byte>, pos: nat, rst: nat, interval: nat, total: nat, m: nat, codes: Coding)
    returns (bits: seq<bool>)
    requires m <= total && rst < 8 && Laid(data, pos, rst, interval, total, m, codes)
    ensures Segment(data, pos, rst, interval, total, m, codes, bits)
  {
    bits :| Segment(data, pos, rst, interval, total, m, codes, bits);
  }

  lemma SegmentParts(data: seq<byte>, pos: nat, rst: nat, interval: nat, total: nat, m: nat, codes: Coding,
      bits: seq<bool>)
    requires m <= total && rst < 8 && Segment(data, pos, rst, interval, total, m, codes, bits)
    ensures var s, n, mk := Destuff(data, pos), Stretch(interval, total, m), MarkerAfter(data, pos);
      && codes(m, n, bits) && bits <= s.bits
      && (m + n < total ==>
            && mk.Some? && mk.value.0 == M_RST0 + rst
            && Laid(data, mk.value.1, (rst + 1) % 8, interval, total, m + n, codes))
  {
    hide Destuff, MarkerAfter, Laid, Stretch;
  }

  /** A segment of which all but what follows bits has been read, up to the marker that ends it. */
  ghost predicate ReadOff(data: seq<byte>, pos: nat, bits: seq<bool>, st: Register)
    requires bits <= Destuff(data, pos).bits
  {
    var s := Destuff(data, pos);
    !st.short && Rest(data, st) == Stream(s.bits[|bits|..], s.ended) && MarkerOf(data, st) == MarkerAfter(data, pos)
  }

  lemma ReadToMarker(data: seq<byte>, pos: nat, bits: seq<bool>, st: Register)
    requires bits <= Destuff(data, pos).bits && ReadOff(data, pos, bits, st)
    ensures MarkerOf(data, st) == MarkerAfter(data, pos)
  {
    hide Destuff, Rest, MarkerOf, MarkerAfter;
  }

  /** What follows bits in the segment. */
  function Following(s: Stream, bits: seq<bool>): (r: Stream)
    requires bits <= s.bits
    ensures s == Stream(bits + r.bits, r.ended)
  {
    Stream(s.bits[|bits|..], s.ended)
  }

  lemma FreshRest(data: seq<byte>, p: Seq.Perm, pos: nat)
    requires Fresh(p, pos)
    ensures var st := Seq.RegisterOf(p);
      Rest(data, st) == Destuff(data, pos) && MarkerOf(data, st) == MarkerAfter(data, pos) && !st.short
  {
    assert [] + Destuff(data, pos).bits == Destuff(data, pos).bits;
  }

  /** Number of the first MCU of segment k. */
  function FirstMcu(interval: nat, k: nat): nat {
    if k == 0 then 0 else FirstMcu(interval, k - 1) + interval
  }

  lemma NextFirstMcu(interval: nat, k: nat)
    requires k > 0
    ensures FirstMcu(interval, k) == FirstMcu(interval, k - 1) + interval
  {
  }

  lemma NextNumber(rst: nat, k: nat)
    requires k > 0
    ensures ((rst + k - 1) % 8 + 1) % 8 == (rst + k) % 8
  {
  }

  /** One or two restarts missing. */
  lemma IsLater(rst: nat, lost: nat)
    requires rst < 8 && 1 <= lost <= 2
    ensures Later(M_RST0 + (rst + lost) % 8, rst)
  {
  }

  lemma NextLost(rst: nat, lost: nat)
    requires rst < 8 && 1 <= lost <= 2
    ensures ((rst + 1) % 8 + (lost - 1)) % 8 == (rst + lost) % 8
    ensures ((rst + 1) % 8 + (lost - 1) + 1) % 8 == (rst + lost + 1) % 8
  {
  }

  /** Where segment k begins, when each of those before it is ended by the restart marker due, whatever else it
      holds. */
  function StartOfSegment(data: seq<byte>, pos: nat, rst: nat, k: nat): Option<nat> {
    if k == 0 then Some(pos)
    else
      match StartOfSegment(data, pos, rst, k - 1)
      case None => None
      case Some(start) =>
        match MarkerAfter(data, start)
        case None => None
        case Some((mk, next)) => if mk == M_RST0 + (rst + k - 1) % 8 then Some(next) else None
  }

  lemma SegmentBefore(data: seq<byte>, pos: nat, rst: nat, k: nat, next: nat) returns (start: nat)
    requires k > 0 && StartOfSegment(data, pos, rst, k) == Some(next)
    ensures StartOfSegment(data, pos, rst, k - 1) == Some(start)
    ensures MarkerAfter(data, start) == Some((M_RST0 + (rst + k - 1) % 8, next))
  {
    hide MarkerAfter;
    start := StartOfSegment(data, pos, rst, k - 1).value;
  }
}
