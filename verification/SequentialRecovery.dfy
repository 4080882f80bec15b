/** Damage in a sequential scan stays where it is: a restart makes up for everything that went wrong before it,
    data that ran out and restart markers that were lost included. */
module SequentialRecovery {
  import opened Wrappers
  import opened Bits
  import opened BitStream
  import opened BitSources
  import opened Coefficients
  import opened SequentialMcu
  import opened SequentialExact
  import opened SequentialScans
  import opened SegmentEnds
  import opened RestartIntervals
  import opened Markers

  // ---------------------------------------------------------------- without data

  function NoStores(n: nat): (ms: seq<seq<Write>>)
    ensures |ms| == n
  {
    seq(n, _ => [])
  }

  /** Once data has run out an MCU is left alone, and counted. */
  lemma ShortMcu(data: seq<byte>, p: Perm, plan: ScanPlan)
    requires p.short && !RestartDue(p, plan)
    ensures var r := DecodeMcu(data, p, plan);
      && r.done && r.writes == [] && r.saved == p.(toGo := r.saved.toGo) && (p.toGo > 0 ==> r.saved.toGo == p.toGo - 1)
  {
  }

  /** And so is every MCU up to the next restart. */
  lemma {:induction false} ShortLeavesAlone(data: seq<byte>, p: Perm, n: nat, plan: ScanPlan)
    requires p.short && (plan.restartInterval == 0 || n <= p.toGo)
    ensures var u := Unbroken(data, p, n, plan);
      && u.Some? && u.value.1 == NoStores(n) && u.value.0 == p.(toGo := u.value.0.toGo)
      && (n <= p.toGo ==> u.value.0.toGo == p.toGo - n)
  {
    hide DecodeMcu;
    if n > 0 {
      ShortLeavesAlone(data, p, n - 1, plan);
      ShortMcu(data, Unbroken(data, p, n - 1, plan).value.0, plan);
    }
  }

  // ---------------------------------------------------------------- whatever the data

  /** A completed MCU, whatever it read, has not passed the marker ahead, and is counted. */
  lemma McuKeepsMarker(data: seq<byte>, p: Perm, plan: ScanPlan)
    requires !RestartDue(p, plan) && DecodeMcu(data, p, plan).done
    ensures var q := DecodeMcu(data, p, plan).saved;
      && MarkerOf(data, RegisterOf(q)) == MarkerOf(data, RegisterOf(p)) && q.nextRst == p.nextRst
      && (p.toGo > 0 ==> q.toGo == p.toGo - 1)
  {
    if !p.short {
      var st, mk := RegisterOf(p), MarkerOf(data, RegisterOf(p));
      var rel := SameMarker(data, mk);
      assert rel(st, st);
      ConcreteKeepsMarker(data, mk);
      hide MarkerOf, Concrete, Simulates, DecodeBlocks;
      BlocksSimulated(Concrete(data), Concrete(data), rel, st, st, p.last, plan.blocks, 0);
      var a := DecodeBlocks(Concrete(data), st, p.last, plan.blocks, 0);
      assert Paired(rel)(a.out.value, a.out.value);
      Retained(p, a.out.value.0, a.out.value.1);
    }
  }

  lemma {:induction false} StretchKeepsMarker(data: seq<byte>, p: Perm, n: nat, plan: ScanPlan, q: Perm,
      ms: seq<seq<Write>>)
    requires plan.restartInterval != 0 && n <= p.toGo && Unbroken(data, p, n, plan) == Some((q, ms))
    ensures MarkerOf(data, RegisterOf(q)) == MarkerOf(data, RegisterOf(p)) && q.nextRst == p.nextRst
    ensures q.toGo == p.toGo - n && |ms| == n
  {
    hide DecodeMcu, MarkerOf;
    if n > 0 {
      var q1, ms1 := UnbrokenBack(data, p, n, plan, q, ms);
      StretchKeepsMarker(data, p, n - 1, plan, q1, ms1);
      McuKeepsMarker(data, q1, plan);
    }
  }

  /** With the marker that ends it in sight no MCU suspends, whatever the segment holds. */
  lemma {:induction false} StretchCompletes(data: seq<byte>, p: Perm, n: nat, plan: ScanPlan)
    requires plan.restartInterval != 0 && n <= p.toGo && TablesOk(plan)
    requires MarkerOf(data, RegisterOf(p)).Some?
    ensures Unbroken(data, p, n, plan).Some?
  {
    hide DecodeMcu, MarkerOf, Rest, TablesOk;
    if n > 0 {
      StretchCompletes(data, p, n - 1, plan);
      var (q, ms) := Unbroken(data, p, n - 1, plan).value;
      StretchKeepsMarker(data, p, n - 1, plan, q, ms);
      EndIsMarker(data, RegisterOf(q));
      NeverSuspends(data, q, plan);
    }
  }

  lemma NeverSuspends(data: seq<byte>, p: Perm, plan: ScanPlan)
    requires !RestartDue(p, plan) && Rest(data, RegisterOf(p)).ended && TablesOk(plan)
    ensures DecodeMcu(data, p, plan).done
  {
    SegmentEndNeverSuspends(data, p, plan);
  }

  // ---------------------------------------------------------------- segment after segment

  /** The state from which the next call goes on in front of segment k. */
  ghost predicate InFrontOf(data: seq<byte>, y: Perm, q: Perm, start: nat, plan: ScanPlan) {
    AtStretch(q, start, plan) && DecodeMcu(data, y, plan) == DecodeMcu(data, q, plan)
  }

  /** From the beginning of one segment to that of the next, whatever it holds. */
  lemma AcrossSegment(data: seq<byte>, y: Perm, q: Perm, start: nat, plan: ScanPlan, z: Perm, ms: seq<seq<Write>>,
      next: nat)
    returns (q1: Perm)
    requires plan.restartInterval != 0 && InFrontOf(data, y, q, start, plan)
    requires Unbroken(data, y, plan.restartInterval, plan) == Some((z, ms))
    requires MarkerAfter(data, start) == Some((M_RST0 + q.nextRst, next))
    ensures InFrontOf(data, z, q1, next, plan) && q1.nextRst == (q.nextRst + 1) % 8
  {
    hide DecodeMcu, MarkerAfter, MarkerOf;
    UnbrokenSame(data, y, q, plan.restartInterval, plan);
    FreshRest(data, q, start);
    StretchKeepsMarker(data, q, plan.restartInterval, plan, z, ms);
    q1 := AcrossRestart(data, z, next, plan);
  }

  lemma FirstInFront(data: seq<byte>, p: Perm, pos: nat, plan: ScanPlan)
    requires AtStretch(p, pos, plan)
    ensures InFrontOf(data, p, p, pos, plan) && StartOfSegment(data, pos, p.nextRst, 0) == Some(pos)
    ensures Unbroken(data, p, FirstMcu(plan.restartInterval, 0), plan) == Some((p, []))
    ensures (p.nextRst + 0) % 8 == p.nextRst
  {
    hide DecodeMcu, AtStretch;
  }

  /** However its MCUs came out, a segment that is ended by the restart due leads to the next: after as many
      MCUs as k intervals have, decoding goes on afresh in front of segment k. */
  lemma {:induction false} SegmentReached(data: seq<byte>, p: Perm, pos: nat, plan: ScanPlan, k: nat, start: nat,
      y: Perm, ms: seq<seq<Write>>)
    returns (q: Perm)
    requires AtStretch(p, pos, plan) && plan.restartInterval != 0
    requires StartOfSegment(data, pos, p.nextRst, k) == Some(start)
    requires Unbroken(data, p, FirstMcu(plan.restartInterval, k), plan) == Some((y, ms))
    ensures InFrontOf(data, y, q, start, plan) && q.nextRst == (p.nextRst + k) % 8
  {
    hide *;
    if k == 0 {
      FirstInFront(data, p, pos, plan);
      q := p;
    } else {
      var n, m := plan.restartInterval, FirstMcu(plan.restartInterval, k - 1);
      NextFirstMcu(n, k);
      NextNumber(p.nextRst, k);
      var before := SegmentBefore(data, pos, p.nextRst, k, start);
      UnbrokenAdd(data, p, m, n, plan);
      var (y1, ms1) := Unbroken(data, p, m, plan).value;
      var q1 := SegmentReached(data, p, pos, plan, k - 1, before, y1, ms1);
      var ms2 := Unbroken(data, y1, n, plan).value.1;
      q := AcrossSegment(data, y1, q1, before, plan, y, ms2, start);
    }
  }

  // ---------------------------------------------------------------- intact segments

  /** An intact segment: from start on come the codes of the n MCUs from number m on. */
  ghost predicate Intact(data: seq<byte>, start: nat, plan: ScanPlan, XS: Mcus, m: nat, n: nat) {
    Fits(plan, XS) && exists bits :: CodingOf(plan, XS)(m, n, bits) && bits <= Destuff(data, start).bits
  }

  lemma IntactBits(data: seq<byte>, start: nat, plan: ScanPlan, XS: Mcus, m: nat, n: nat) returns (bits: seq<bool>)
    requires Intact(data, start, plan, XS, m, n)
    ensures Fits(plan, XS) && m + n <= |XS| && CodingOf(plan, XS)(m, n, bits) && bits <= Destuff(data, start).bits
  {
    hide Destuff, AllCodable, AllBits, Fits;
    bits :| CodingOf(plan, XS)(m, n, bits) && bits <= Destuff(data, start).bits;
  }

  lemma AtStretchToGo(q: Perm, start: nat, plan: ScanPlan)
    requires AtStretch(q, start, plan) && plan.restartInterval != 0
    ensures q.toGo == plan.restartInterval
  {
  }

  /** From the front of an intact segment its MCUs are stored exactly. */
  lemma IntactStores(data: seq<byte>, q: Perm, start: nat, plan: ScanPlan, XS: Mcus, m: nat, n: nat, z: Perm,
      ms: seq<seq<Write>>)
    requires AtStretch(q, start, plan) && plan.restartInterval != 0 && n <= plan.restartInterval
    requires Intact(data, start, plan, XS, m, n) && Unbroken(data, q, n, plan) == Some((z, ms))
    ensures Stores(ms, plan, XS, m, n)
  {
    hide *;
    var bits := IntactBits(data, start, plan, XS, m, n);
    var zero := ZeroPredictors(plan.comps);
    AtStretchToGo(q, start, plan);
    StretchBegins(data, q, start, plan, XS, m, n, bits);
    StretchFurther(data, MarkerAfter(data, start), q, plan, XS, zero, m, m + n, Following(Destuff(data, start), bits),
        n, z, ms);
  }

  /** Wherever a restart has led to, an intact segment there is stored exactly. */
  lemma IntactFrom(data: seq<byte>, y: Perm, q: Perm, start: nat, plan: ScanPlan, XS: Mcus, m: nat, n: nat, z: Perm,
      ms: seq<seq<Write>>)
    requires InFrontOf(data, y, q, start, plan) && plan.restartInterval != 0 && 0 < n <= plan.restartInterval
    requires Intact(data, start, plan, XS, m, n) && Unbroken(data, y, n, plan) == Some((z, ms))
    ensures Stores(ms, plan, XS, m, n)
  {
    hide *;
    Front(data, y, q, start, plan);
    UnbrokenSame(data, y, q, n, plan);
    IntactStores(data, q, start, plan, XS, m, n, z, ms);
  }

  /** The same, as the run sees it that went through everything before. */
  lemma IntactInRun(data: seq<byte>, p: Perm, pos: nat, plan: ScanPlan, XS: Mcus, k: nat, start: nat, n: nat, z: Perm,
      ms: seq<seq<Write>>)
    requires AtStretch(p, pos, plan) && plan.restartInterval != 0 && 0 < n <= plan.restartInterval
    requires StartOfSegment(data, pos, p.nextRst, k) == Some(start)
    requires var m := FirstMcu(plan.restartInterval, k);
      Intact(data, start, plan, XS, m, n) && Unbroken(data, p, m + n, plan) == Some((z, ms))
    ensures var m := FirstMcu(plan.restartInterval, k); |ms| == m + n && Stores(ms[m..], plan, XS, m, n)
  {
    hide *;
    var m := FirstMcu(plan.restartInterval, k);
    UnbrokenAdd(data, p, m, n, plan);
    var (y, ms1) := Unbroken(data, p, m, plan).value;
    var (z1, ms2) := Unbroken(data, y, n, plan).value;
    var q := SegmentReached(data, p, pos, plan, k, start, y, ms1);
    IntactFrom(data, y, q, start, plan, XS, m, n, z, ms2);
    UnbrokenSize(data, p, m, plan);
    UnbrokenSize(data, y, n, plan);
    assert ms[m..] == ms2;
  }

  lemma Front(data: seq<byte>, y: Perm, q: Perm, start: nat, plan: ScanPlan)
    requires InFrontOf(data, y, q, start, plan)
    ensures AtStretch(q, start, plan) && DecodeMcu(data, y, plan) == DecodeMcu(data, q, plan)
  {
    hide DecodeMcu, AtStretch;
  }

  lemma {:induction false} UnbrokenSize(data: seq<byte>, p: Perm, n: nat, plan: ScanPlan)
    ensures var u := Unbroken(data, p, n, plan); u.Some? ==> |u.value.1| == n
  {
    hide DecodeMcu;
    if n > 0 { UnbrokenSize(data, p, n - 1, plan); }
  }

  /** Main result on damage.  Whatever the segments before it hold, as long as each is ended by the restart marker
      due, an intact segment is decoded to exactly its blocks, or the intact beginning of a segment to the blocks
      of those MCUs, however the data was cut into deliveries and calls suspended. */
  lemma DamageStaysInItsSegment(p: Perm, pos: nat, es: seq<Event>, plan: ScanPlan, XS: Mcus, k: nat, start: nat, n: nat,
      j: nat)
    requires AtStretch(p, pos, plan) && plan.restartInterval != 0 && j < n <= plan.restartInterval
    requires var s, m := Run(Session([], p, []), es, plan), FirstMcu(plan.restartInterval, k);
      && StartOfSegment(s.data, pos, p.nextRst, k) == Some(start) && Intact(s.data, start, plan, XS, m, n)
      && m + n <= |s.mcus|
    ensures var m := FirstMcu(plan.restartInterval, k);
      && m + n <= |XS| && |XS[m + j]| == |plan.blocks|
      && Holds(StoreRun(Cleared(|XS|, |plan.blocks|), p, es, plan)[m + j], plan.blocks, XS[m + j])
  {
    hide *;
    var s, m := Run(Session([], p, []), es, plan), FirstMcu(plan.restartInterval, k);
    var coefs := Cleared(|XS|, |plan.blocks|);
    SuspensionsLeaveNoTrace(p, es, coefs, plan);
    var total := |s.mcus|;
    UnbrokenAdd(s.data, p, m + n, total - (m + n), plan);
    var (z, ms) := Unbroken(s.data, p, m + n, plan).value;
    IntactInRun(s.data, p, pos, plan, XS, k, start, n, z, ms);
    var bits := IntactBits(s.data, start, plan, XS, m, n);
    StoresAt(ms[m..], plan, XS, m, n, j);
    McuHolds(plan.blocks, XS[m + j]);
  }

  /** And no call suspends once the markers that end the segments have arrived. */
  lemma {:induction false} DamagedScanFinishes(data: seq<byte>, p: Perm, pos: nat, plan: ScanPlan, k: nat, start: nat,
      n: nat)
    requires AtStretch(p, pos, plan) && plan.restartInterval != 0 && n <= plan.restartInterval && TablesOk(plan)
    requires StartOfSegment(data, pos, p.nextRst, k) == Some(start) && MarkerAfter(data, start).Some?
    ensures Unbroken(data, p, FirstMcu(plan.restartInterval, k) + n, plan).Some?
  {
    hide *;
    var m := FirstMcu(plan.restartInterval, k);
    if k == 0 {
      FirstInFront(data, p, pos, plan);
    } else {
      NextFirstMcu(plan.restartInterval, k);
      var before := SegmentBefore(data, pos, p.nextRst, k, start);
      DamagedScanFinishes(data, p, pos, plan, k - 1, before, plan.restartInterval);
    }
    var (y, ms) := Unbroken(data, p, m, plan).value;
    UnbrokenAdd(data, p, m, n, plan);
    if n > 0 {
      var q := SegmentReached(data, p, pos, plan, k, start, y, ms);
      Front(data, y, q, start, plan);
      AtStretchToGo(q, start, plan);
      MarkerInFront(data, q, start, plan);
      StretchCompletes(data, q, n, plan);
      UnbrokenSame(data, y, q, n, plan);
    }
  }

  lemma MarkerInFront(data: seq<byte>, q: Perm, start: nat, plan: ScanPlan)
    requires AtStretch(q, start, plan)
    ensures MarkerOf(data, RegisterOf(q)) == MarkerAfter(data, start)
  {
    hide MarkerOf, MarkerAfter;
    FreshRest(data, q, start);
  }

  // ---------------------------------------------------------------- lost restart markers

  lemma NoneLost(data: seq<byte>, p: Perm, plan: ScanPlan, z: Perm, ms: seq<seq<Write>>)
    requires Unbroken(data, p, FirstMcu(plan.restartInterval, 0), plan) == Some((z, ms))
    ensures z == p && ms == []
  {
  }

  lemma DueParts(p: Perm, plan: ScanPlan)
    requires RestartDue(p, plan)
    ensures plan.restartInterval != 0 && p.toGo == 0 && p.nextRst < 8
  {
  }

  lemma InFrontIs(data: seq<byte>, p: Perm, q: Perm, pos: nat, plan: ScanPlan)
    requires AtStretch(q, pos, plan) && DecodeMcu(data, p, plan) == DecodeMcu(data, q, plan)
    ensures InFrontOf(data, p, q, pos, plan)
  {
    hide DecodeMcu, AtStretch;
  }

  /** The restart due is not there: decoding goes on as it was, the marker met pending. */
  lemma GivesUp(data: seq<byte>, p: Perm, plan: ScanPlan, lost: nat, pos: nat) returns (q: Perm)
    requires RestartDue(p, plan) && 1 <= lost <= 2
    requires MarkerOf(data, RegisterOf(p)) == Some((M_RST0 + (p.nextRst + lost) % 8, pos))
    ensures DecodeMcu(data, p, plan) == DecodeMcu(data, q, plan) && q.short == p.short
    ensures MarkerOf(data, RegisterOf(q)) == MarkerOf(data, RegisterOf(p))
    ensures q.toGo == plan.restartInterval != 0 && q.nextRst == (p.nextRst + 1) % 8
  {
    IsLater(p.nextRst, lost);
    hide MarkerOf, DecodeBody, ProcessRestart, Later;
    RestartGivesUp(data, p, plan, M_RST0 + (p.nextRst + lost) % 8, pos);
    q := ProcessRestart(data, p, plan).0;
  }

  lemma NowDue(z: Perm, plan: ScanPlan)
    requires plan.restartInterval != 0 && z.toGo == 0
    ensures RestartDue(z, plan)
  {
  }

  lemma NoStoresBoth(a: seq<seq<Write>>, b: seq<seq<Write>>)
    requires a == NoStores(|a|) && b == NoStores(|b|)
    ensures a + b == NoStores(|a + b|)
  {
  }

  lemma ShortStaysShort(data: seq<byte>, p: Perm, n: nat, plan: ScanPlan, q: Perm, ms: seq<seq<Write>>)
    requires p.short && (plan.restartInterval == 0 || n <= p.toGo) && Unbroken(data, p, n, plan) == Some((q, ms))
    ensures q.short && ms == NoStores(|ms|)
  {
    ShortLeavesAlone(data, p, n, plan);
    hide Unbroken;
  }

  /** When one or two restarts are missing and the next is met instead, as many intervals are given up: the MCUs
      are counted, decoding goes on afresh behind the marker met once its turn has come, and if data had run
      out, nothing is stored in between. */
  lemma {:induction false} LostMarkers(data: seq<byte>, p: Perm, plan: ScanPlan, lost: nat, pos: nat, z: Perm,
      ms: seq<seq<Write>>)
    returns (q: Perm)
    requires RestartDue(p, plan) && lost <= 2
    requires MarkerOf(data, RegisterOf(p)) == Some((M_RST0 + (p.nextRst + lost) % 8, pos))
    requires Unbroken(data, p, FirstMcu(plan.restartInterval, lost), plan) == Some((z, ms))
    ensures InFrontOf(data, z, q, pos, plan) && q.nextRst == (p.nextRst + lost + 1) % 8
    ensures p.short ==> ms == NoStores(|ms|)
    decreases lost
  {
    hide *;
    DueParts(p, plan);
    if lost == 0 {
      NoneLost(data, p, plan, z, ms);
      q := AcrossRestart(data, p, pos, plan);
      InFrontIs(data, p, q, pos, plan);
      NoStoresBoth([], []);
    } else {
      var n, m := plan.restartInterval, FirstMcu(plan.restartInterval, lost - 1);
      NextFirstMcu(n, lost);
      NextLost(p.nextRst, lost);
      var q0 := GivesUp(data, p, plan, lost, pos);
      UnbrokenAdd(data, p, n, m, plan);
      var (z1, ms1) := Unbroken(data, p, n, plan).value;
      UnbrokenSame(data, p, q0, n, plan);
      StretchKeepsMarker(data, q0, n, plan, z1, ms1);
      NowDue(z1, plan);
      var ms2 := Unbroken(data, z1, m, plan).value.1;
      q := LostMarkers(data, z1, plan, lost - 1, pos, z, ms2);
      if p.short {
        ShortStaysShort(data, q0, n, plan, z1, ms1);
        NoStoresBoth(ms1, ms2);
      }
    }
  }
}
