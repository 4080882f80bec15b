/** Where an entropy-coded segment ends: the marker that stops the reader, however far it has prefetched,
    is the one that restart processing goes on from. */
module SegmentEnds {
  import opened Wrappers
  import opened Bits
  import opened HuffTable
  import opened BitStream
  import opened HuffDecode
  import opened BitSources
  import opened InsufficientData
  import opened Markers
  import Seq = SequentialMcu

  // ---------------------------------------------------------------- the marker ahead

  /** The marker that ends the segment from pos on, and the position after it. */
  function MarkerAfter(data: seq<byte>, pos: nat): Option<(byte, nat)>
    decreases |data| - pos
  {
    match NextByte(data, pos)
    case Starved => None
    case Mark(m, next) => Some((m, next))
    case Datum(_, next) => MarkerAfter(data, next)
  }

  /** The same, as seen from a register that may have come upon it already. */
  function MarkerOf(data: seq<byte>, st: BitState): Option<(byte, nat)> {
    if st.marker != 0 then Some((st.marker, st.pos)) else MarkerAfter(data, st.pos)
  }

  lemma {:induction false} EndedByMarker(data: seq<byte>, pos: nat)
    ensures Destuff(data, pos).ended <==> MarkerAfter(data, pos).Some?
    decreases |data| - pos
  {
    if NextByte(data, pos).Datum? { EndedByMarker(data, NextByte(data, pos).next); }
  }

  // ---------------------------------------------------------------- reading does not pass it

  lemma {:induction false} LoadKeepsMarker(data: seq<byte>, st: BitState)
    requires st.marker == 0 && Load(data, st).Some?
    ensures MarkerOf(data, Load(data, st).value) == MarkerOf(data, st)
    decreases MIN_GET_BITS - st.left
  {
    if st.left < MIN_GET_BITS && NextByte(data, st.pos).Datum? {
      var b := NextByte(data, st.pos);
      LoadKeepsMarker(data, Absorb(st, b.c, b.next));
    }
  }

  lemma CheckKeepsMarker(data: seq<byte>, st: BitState, k: nat)
    requires Check(data, st, k).Some?
    ensures MarkerOf(data, Check(data, st, k).value) == MarkerOf(data, st)
  {
    if st.left < k && st.marker == 0 { LoadKeepsMarker(data, st); }
  }

  lemma FreeFillKeepsMarker(data: seq<byte>, st: BitState)
    requires Fill(data, st, 0).Some?
    ensures MarkerOf(data, Fill(data, st, 0).value) == MarkerOf(data, st)
  {
    if st.marker == 0 { LoadKeepsMarker(data, st); }
  }

  lemma DropKeepsMarker(data: seq<byte>, st: BitState, n: nat)
    requires n <= st.left
    ensures MarkerOf(data, DropBits(st, n)) == MarkerOf(data, st) && DropBits(st, n).left == st.left - n
  {
  }

  lemma {:induction false} CollectKeepsMarker(data: seq<byte>, st: BitState, tb: Table, code: nat, l: nat)
    requires 1 <= l <= 17 && code < Pow2(l) && st.left <= 32
    requires l <= NUM_LENGTHS ==> FirstCode(tb.spec, l) <= code
    ensures Collect(data, st, tb, code, l).Some? ==>
        MarkerOf(data, Collect(data, st, tb, code, l).value.st) == MarkerOf(data, st)
    decreases 17 - l
  {
    if code > tb.d.maxcode[l] {
      CollectGoesOn(tb, code, l);
      if FetchBit(data, st, code).Some? {
        CheckKeepsMarker(data, st, 1);
        var r := FetchBit(data, st, code).value;
        hide Check, MarkerAfter;
        CollectKeepsMarker(data, r.1, tb, r.0, l + 1);
      }
    }
  }

  lemma SlowKeepsMarker(data: seq<byte>, st: BitState, tb: Table, n: nat)
    requires 1 <= n <= NUM_LENGTHS && st.left <= 32
    requires Has(Rest(data, st), n) ==> FirstCode(tb.spec, n) <= Val(Peek(Rest(data, st), n))
    ensures Slow(data, st, tb, n).Some? ==> MarkerOf(data, Slow(data, st, tb, n).value.st) == MarkerOf(data, st)
  {
    SlowIsCollect(data, st, tb, n);
    hide *;
    if Check(data, st, n).Some? {
      var c := Check(data, st, n).value;
      CheckKeepsMarker(data, st, n);
      DropKeepsMarker(data, c, n);
      CollectKeepsMarker(data, DropBits(c, n), tb, PeekBits(c, n), n);
    }
  }

  lemma LookKeepsMarker(data: seq<byte>, st: BitState, tb: Table)
    requires LOOKAHEAD <= st.left <= 32
    ensures Look(data, st, tb).Some? ==> MarkerOf(data, Look(data, st, tb).value.st) == MarkerOf(data, st)
  {
    RegisterBits(data, st, LOOKAHEAD);
    Pow2Small();
    if tb.d.nbits[PeekBits(st, LOOKAHEAD)] == 0 {
      LookMiss(data, st, tb);
      SlowKeepsMarker(data, st, tb, LOOKAHEAD + 1);
    }
  }

  lemma SymbolKeepsMarker(data: seq<byte>, st: Register, tb: Table)
    requires ReadSymbol(data, st, tb).Some?
    ensures MarkerOf(data, ReadSymbol(data, st, tb).value.1) == MarkerOf(data, st)
  {
    if st.left < LOOKAHEAD {
      FillRefines(data, st, 0);
      FreeFillKeepsMarker(data, st);
      var c := Fill(data, st, 0).value;
      hide MarkerOf, Fill;
      if c.left < LOOKAHEAD { SlowKeepsMarker(data, c, tb, 1); } else { LookKeepsMarker(data, c, tb); }
    } else {
      hide MarkerOf;
      LookKeepsMarker(data, st, tb);
    }
  }

  lemma ReceiveKeepsMarker(data: seq<byte>, st: Register, n: Width)
    requires Receive(data, st, n).Some?
    ensures MarkerOf(data, Receive(data, st, n).value.1) == MarkerOf(data, st)
  {
    CheckKeepsMarker(data, st, n);
    hide Check, MarkerAfter;
  }

  // ---------------------------------------------------------------- as a relation

  /** The register and the flag against the stream and the account, and the marker that is ahead. */
  ghost predicate ReadsTo(data: seq<byte>, mk: Option<(byte, nat)>, st: Register, r: Reading) {
    Reads(data, st, r) && MarkerOf(data, st) == mk
  }

  lemma ConcreteToMarker(data: seq<byte>, mk: Option<(byte, nat)>)
    ensures Simulates(Concrete(data), Metered(), (st, r) => ReadsTo(data, mk, st, r))
  {
    var rel := (st, r) => ReadsTo(data, mk, st, r);
    hide Reads, MarkerOf, MeteredSymbol, MeteredReceive, ReadSymbol, Receive;
    forall st: Register, r: Reading, tb: Table | rel(st, r) && Concrete(data).symbol(st, tb).Some?
      ensures Matched(Concrete(data).symbol(st, tb), Metered().symbol(r, tb), rel)
    {
      SymbolReads(data, st, r, tb);
      SymbolKeepsMarker(data, st, tb);
    }
    forall st: Register, r: Reading, n: Width | rel(st, r) && Concrete(data).receive(st, n).Some?
      ensures Matched(Concrete(data).receive(st, n), Metered().receive(r, n), rel)
    {
      ReceiveReads(data, st, r, n);
      ReceiveKeepsMarker(data, st, n);
    }
  }

  // ---------------------------------------------------------------- whatever the data

  /** A register state against itself, with the marker that is ahead. */
  ghost function SameMarker(data: seq<byte>, mk: Option<(byte, nat)>): (Register, Register) -> bool {
    (s: Register, t: Register) => s == t && MarkerOf(data, s) == mk
  }

  /** Reading leaves the marker ahead where it is also when data has run out or makes no sense. */
  lemma ConcreteKeepsMarker(data: seq<byte>, mk: Option<(byte, nat)>)
    ensures Simulates(Concrete(data), Concrete(data), SameMarker(data, mk))
  {
    var rel := SameMarker(data, mk);
    hide MarkerOf, ReadSymbol, Receive;
    forall s: Register, t: Register, tb: Table | rel(s, t) && Concrete(data).symbol(s, tb).Some?
      ensures Matched(Concrete(data).symbol(s, tb), Concrete(data).symbol(t, tb), rel)
    {
      SymbolKeepsMarker(data, s, tb);
    }
    forall s: Register, t: Register, n: Width | rel(s, t) && Concrete(data).receive(s, n).Some?
      ensures Matched(Concrete(data).receive(s, n), Concrete(data).receive(t, n), rel)
    {
      ReceiveKeepsMarker(data, s, n);
    }
  }

  /** There is an end in sight exactly when there is a marker ahead. */
  lemma EndIsMarker(data: seq<byte>, st: BitState)
    ensures Rest(data, st).ended <==> MarkerOf(data, st).Some?
  {
    EndedByMarker(data, st.pos);
  }

  // ---------------------------------------------------------------- restarting there

  /** Behind entropy-coded data the search for a marker finds the one that ends it. */
  lemma {:induction false} MarkerFound(data: seq<byte>, pos: nat, discarded: nat)
    requires MarkerAfter(data, pos).Some?
    ensures var mk := MarkerAfter(data, pos).value; NextMarker(data, pos, discarded) == Found(mk.0, mk.1)
    decreases |data| - pos
  {
    var b := NextByte(data, pos);
    if b.Datum? { MarkerFound(data, b.next, if data[pos] == 0xFF then discarded + 2 else discarded + 1); }
  }

  /** The register is empty and in front of pos, as at the start of a segment. */
  predicate Fresh(p: Seq.Perm, pos: nat) {
    p.at.pos == pos && p.at.marker == 0 && p.left == 0 && !p.short
  }

  /** Recovery at a restart.  When the marker ahead is the one due, restart processing swallows it and leaves a
      fresh register behind it, whatever is left of the segment, whatever has been read of it, and whether or
      not its data had run out. */
  lemma RestartAtMarker(data: seq<byte>, p: Seq.Perm, plan: Seq.ScanPlan, pos: nat)
    requires MarkerOf(data, Seq.RegisterOf(p)) == Some((M_RST0 + p.nextRst, pos))
    ensures var (q, ok) := Seq.ProcessRestart(data, p, plan);
      && ok && Fresh(q, pos) && q.last == Seq.ZeroPredictors(plan.comps) && q.toGo == plan.restartInterval
      && q.nextRst == (p.nextRst + 1) % 8
  {
    if p.at.marker == 0 { MarkerFound(data, p.at.pos, p.at.discarded + p.left / 8); }
    hide NextMarker;
  }

  /** When the marker ahead is one of the next two restarts, or of another kind, it stays pending, and so does the
      flag that data has run out. */
  lemma RestartGivesUp(data: seq<byte>, p: Seq.Perm, plan: Seq.ScanPlan, m: byte, pos: nat)
    requires MarkerOf(data, Seq.RegisterOf(p)) == Some((m, pos)) && m != 0 && Later(m, p.nextRst)
    ensures var (q, ok) := Seq.ProcessRestart(data, p, plan);
      && ok && MarkerOf(data, Seq.RegisterOf(q)) == Some((m, pos)) && q.at.marker == m && q.short == p.short
      && q.toGo == plan.restartInterval && q.nextRst == (p.nextRst + 1) % 8
  {
    if p.at.marker == 0 { MarkerFound(data, p.at.pos, p.at.discarded + p.left / 8); }
    Sorted(m, p.nextRst);
    hide NextMarker, Later;
  }
}
