/** Damage in a progressive scan stays where it is, in all four kinds of scan: a restart makes up for everything
    that went wrong before it. */
module ProgressiveRecovery {
  import opened Wrappers
  import opened Bits
  import opened BitStream
  import opened HuffDecode
  import opened BitSources
  import InsufficientData
  import opened Refine
  import opened ProgressiveMcu
  import opened ProgressiveSession
  import opened SegmentEnds
  import opened RestartIntervals
  import opened Markers
  import Scans = RestartedScans
  import Dc = DcProgression
  import Seq = SequentialMcu

  // ---------------------------------------------------------------- without data

  /** Once data has run out every MCU up to the next restart is left alone, and counted, except in DC refinements,
      which read zeros. */
  lemma ShortLeavesAlone(data: seq<byte>, x: State, n: nat, plan: Plan)
    requires Fits(x, plan) && x.m + n <= |plan.mcus| && NoRestart(x, n, plan)
    requires x.perm.short && !plan.kind.DcRefineScan?
    ensures var u := Unbroken(data, x, n, plan); u.Some? && u.value.img == x.img && WorkOf(u.value) == WorkOf(x)
  {
    SegmentIsScan(data, x, n, plan);
    hide Mcus, Concrete, Unbroken, PlanOk;
    OverLeavesAlone(plan.kind, Concrete(data), InsufficientData.IsShort, WorkOf(x), plan.mcus, x.m, n, x.img);
  }

  // ---------------------------------------------------------------- whatever the data

  /** Up to the next restart no MCU passes the marker ahead, whatever it read. */
  lemma StretchKeepsMarker(data: seq<byte>, x: State, n: nat, plan: Plan, y: State)
    requires Fits(x, plan) && x.m + n <= |plan.mcus| && plan.restartInterval != 0 && n <= x.perm.toGo
    requires Unbroken(data, x, n, plan) == Some(y)
    ensures MarkerOf(data, Seq.RegisterOf(y.perm)) == MarkerOf(data, Seq.RegisterOf(x.perm))
    ensures y.perm.nextRst == x.perm.nextRst && y.perm.toGo == x.perm.toGo - n
  {
    var st, mk := Seq.RegisterOf(x.perm), MarkerOf(data, Seq.RegisterOf(x.perm));
    var rel := SameMarker(data, mk);
    assert Alike(WorkOf(x), WorkOf(x), rel) && Agree(InsufficientData.IsShort, InsufficientData.IsShort, rel);
    SegmentIsScan(data, x, n, plan);
    ConcreteKeepsMarker(data, mk);
    hide Mcus, Concrete, Simulates, MarkerOf, Unbroken, PlanOk, Agree;
    McusFollow(plan.kind, Concrete(data), Concrete(data), InsufficientData.IsShort, InsufficientData.IsShort, rel,
        WorkOf(x), WorkOf(x), plan.mcus, x.m, n, x.img);
  }

  /** The blocks of other MCUs are left as they are. */
  lemma {:induction false} OthersAreLeft(data: seq<byte>, x: State, n: nat, plan: Plan, y: State, i: nat)
    requires Fits(x, plan) && Unbroken(data, x, n, plan) == Some(y) && x.m + n <= |plan.mcus| && i < plan.blocks
    requires forall j :: x.m <= j < x.m + n ==> !In(plan.mcus[j], i)
    ensures y.img[i] == x.img[i]
  {
    hide DecodeMcu, In, PlanOk;
    if n > 0 {
      UnbrokenSnoc(data, x, n, plan);
      var z := Unbroken(data, x, n - 1, plan).value;
      OthersAreLeft(data, x, n - 1, plan, z, i);
      OnlyItsBlocks(data, z, plan, i);
    }
  }

  // ---------------------------------------------------------------- segment after segment

  /** The state from which the next call goes on in front of a segment. */
  ghost predicate InFrontOf(data: seq<byte>, y: State, q: State, start: nat, plan: Plan)
    requires Fits(y, plan)
  {
    && Scans.AtStretch(q, start, plan) && q.m == y.m && q.img == y.img
    && DecodeMcu(data, y, plan) == DecodeMcu(data, q, plan)
  }

  lemma InFrontParts(data: seq<byte>, y: State, q: State, start: nat, plan: Plan)
    requires Fits(y, plan) && InFrontOf(data, y, q, start, plan)
    ensures Scans.AtStretch(q, start, plan) && q.m == y.m && q.img == y.img && Fits(q, plan)
    ensures DecodeMcu(data, y, plan) == DecodeMcu(data, q, plan)
    ensures plan.restartInterval != 0 ==> q.perm.toGo == plan.restartInterval
    ensures MarkerOf(data, Seq.RegisterOf(q.perm)) == MarkerAfter(data, start)
  {
    hide DecodeMcu, PlanOk, MarkerOf, MarkerAfter;
    FreshRest(data, q.perm, start);
  }

  lemma InFrontIs(data: seq<byte>, y: State, q: State, start: nat, plan: Plan)
    requires Fits(y, plan) && Scans.AtStretch(q, start, plan) && q.m == y.m && q.img == y.img && Fits(q, plan)
    requires DecodeMcu(data, y, plan) == DecodeMcu(data, q, plan)
    ensures InFrontOf(data, y, q, start, plan)
  {
    hide DecodeMcu, PlanOk, Scans.AtStretch;
  }

  lemma FitsFrom(q: State, start: nat, plan: Plan)
    requires Scans.AtStretch(q, start, plan)
    ensures Fits(q, plan)
  {
    hide PlanOk;
  }

  /** From the beginning of one segment to that of the next, whatever it holds. */
  lemma AcrossSegment(data: seq<byte>, y: State, q: State, start: nat, plan: Plan, z: State, next: nat)
    returns (q1: State)
    requires Fits(y, plan) && plan.restartInterval != 0 && InFrontOf(data, y, q, start, plan)
    requires y.m + plan.restartInterval < |plan.mcus| && Unbroken(data, y, plan.restartInterval, plan) == Some(z)
    requires MarkerAfter(data, start) == Some((M_RST0 + q.perm.nextRst, next))
    ensures Fits(z, plan) && InFrontOf(data, z, q1, next, plan) && q1.perm.nextRst == (q.perm.nextRst + 1) % 8
  {
    hide *;
    InFrontParts(data, y, q, start, plan);
    UnbrokenSame(data, y, q, plan.restartInterval, plan);
    StretchKeepsMarker(data, q, plan.restartInterval, plan, z);
    q1 := Scans.AcrossRestart(data, z, next, plan);
    FitsFrom(q1, next, plan);
    InFrontIs(data, z, q1, next, plan);
  }

  lemma FirstInFront(data: seq<byte>, x0: State, pos: nat, plan: Plan)
    requires Scans.AtStretch(x0, pos, plan)
    ensures Fits(x0, plan) && InFrontOf(data, x0, x0, pos, plan)
    ensures StartOfSegment(data, pos, x0.perm.nextRst, 0) == Some(pos)
    ensures Unbroken(data, x0, FirstMcu(plan.restartInterval, 0), plan) == Some(x0)
    ensures (x0.perm.nextRst + 0) % 8 == x0.perm.nextRst
  {
    hide DecodeMcu, PlanOk;
  }

  /** However its MCUs came out, a segment that is ended by the restart due leads to the next. */
  lemma {:induction false} SegmentReached(data: seq<byte>, x0: State, pos: nat, plan: Plan, k: nat, start: nat,
      y: State)
    returns (q: State)
    requires Scans.AtStretch(x0, pos, plan) && plan.restartInterval != 0 && Fits(x0, plan)
    requires StartOfSegment(data, pos, x0.perm.nextRst, k) == Some(start)
    requires Unbroken(data, x0, FirstMcu(plan.restartInterval, k), plan) == Some(y) && y.m < |plan.mcus|
    ensures Fits(y, plan) && InFrontOf(data, y, q, start, plan) && q.perm.nextRst == (x0.perm.nextRst + k) % 8
  {
    hide *;
    if k == 0 {
      FirstInFront(data, x0, pos, plan);
      q := x0;
    } else {
      var n, m := plan.restartInterval, FirstMcu(plan.restartInterval, k - 1);
      NextFirstMcu(n, k);
      NextNumber(x0.perm.nextRst, k);
      var before := SegmentBefore(data, pos, x0.perm.nextRst, k, start);
      UnbrokenAdd(data, x0, m, n, plan);
      var y1 := Unbroken(data, x0, m, plan).value;
      var q1 := SegmentReached(data, x0, pos, plan, k - 1, before, y1);
      q := AcrossSegment(data, y1, q1, before, plan, y, start);
    }
  }

  // ---------------------------------------------------------------- intact segments

  /** An intact segment: from start on come the codes of the n MCUs from number m on, taken from Xs. */
  ghost predicate Intact(data: seq<byte>, start: nat, plan: Plan, tb: Table, Xs: seq<Block>, m: nat, n: nat)
    requires m + n <= |plan.mcus|
  {
    exists bits ::
      Scans.Codes(plan.kind, Scans.Part(plan, m, n), plan.comps, tb, Xs, bits) && bits <= Destuff(data, start).bits
  }

  lemma IntactBits(data: seq<byte>, start: nat, plan: Plan, tb: Table, Xs: seq<Block>, m: nat, n: nat)
    returns (bits: seq<bool>)
    requires m + n <= |plan.mcus| && Intact(data, start, plan, tb, Xs, m, n)
    ensures Scans.Codes(plan.kind, Scans.Part(plan, m, n), plan.comps, tb, Xs, bits)
    ensures bits <= Destuff(data, start).bits
  {
    hide Scans.Codes, Destuff, Scans.Part;
    bits :| Scans.Codes(plan.kind, Scans.Part(plan, m, n), plan.comps, tb, Xs, bits)
        && bits <= Destuff(data, start).bits;
  }

  lemma FitsParts(x: State, plan: Plan)
    requires Fits(x, plan)
    ensures |x.img| == plan.blocks && x.m <= |plan.mcus|
  {
    hide PlanOk;
  }

  lemma WithinInterval(q: State, n: nat, plan: Plan)
    requires n <= q.perm.toGo
    ensures NoRestart(q, n, plan)
  {
  }

  /** Wherever a restart has led to, an intact segment there brings its blocks to their goals. */
  lemma IntactFrom(data: seq<byte>, y: State, q: State, start: nat, plan: Plan, tb: Table, Xs: seq<Block>, n: nat,
      z: State)
    requires Fits(y, plan) && InFrontOf(data, y, q, start, plan) && plan.restartInterval != 0
    requires 0 < n <= plan.restartInterval && y.m + n <= |plan.mcus| && |Xs| == |y.img| && Dc.Distinct(plan.mcus)
    requires Intact(data, start, plan, tb, Xs, y.m, n) && Unbroken(data, y, n, plan) == Some(z)
    requires Scans.AllReady(plan.kind, Scans.Part(plan, y.m, n), y.img, Xs)
    ensures Scans.Done(plan.kind, Scans.Part(plan, y.m, n), n, z.img, y.img, Xs)
  {
    hide *;
    InFrontParts(data, y, q, start, plan);
    UnbrokenSame(data, y, q, n, plan);
    var bits := IntactBits(data, start, plan, tb, Xs, y.m, n);
    Scans.PartDistinct(plan.mcus, y.m, Scans.Part(plan, y.m, n));
    WithinInterval(q, n, plan);
    Scans.StretchFromRegister(data, q, start, plan, tb, Xs, n, bits, z);
  }

  /** Blocks of these MCUs are in no other. */
  lemma OnlyThere(plan: Plan, m: nat, n: nat, i: nat, j: nat)
    requires m + n <= |plan.mcus| && Dc.Distinct(plan.mcus) && Dc.Covered(Scans.Part(plan, m, n), n, i)
    requires j < |plan.mcus| && (j < m || m + n <= j)
    ensures !In(plan.mcus[j], i)
  {
    hide In, Dc.Distinct;
    var part := Scans.Part(plan, m, n);
    var b :| 0 <= b < n && In(part[b], i);
    if In(plan.mcus[j], i) { Scans.InOnce(plan.mcus, j, m + b, i); }
  }

  /** The blocks of a segment are still as they were when its turn comes, so they are still ready. */
  lemma ReadyThen(data: seq<byte>, x0: State, plan: Plan, Xs: seq<Block>, m: nat, n: nat, y: State)
    requires Fits(x0, plan) && x0.m == 0 && m + n <= |plan.mcus| && Dc.Distinct(plan.mcus)
    requires Unbroken(data, x0, m, plan) == Some(y)
    requires Scans.AllReady(plan.kind, Scans.Part(plan, m, n), x0.img, Xs)
    ensures |y.img| == |x0.img| && Scans.AllReady(plan.kind, Scans.Part(plan, m, n), y.img, Xs)
    ensures forall i :: 0 <= i < |x0.img| && Dc.Covered(Scans.Part(plan, m, n), n, i) ==> y.img[i] == x0.img[i]
  {
    hide Unbroken, PlanOk, Scans.Ready, Dc.Distinct, Dc.Covered, In, Scans.Part;
    forall i | 0 <= i < |x0.img| && Dc.Covered(Scans.Part(plan, m, n), n, i) ensures y.img[i] == x0.img[i] {
      forall j | 0 <= j < m ensures !In(plan.mcus[j], i) { OnlyThere(plan, m, n, i, j); }
      OthersAreLeft(data, x0, m, plan, y, i);
    }
  }

  lemma DoneAt(kind: Kind, part: seq<seq<Cover>>, out: seq<Block>, img: seq<Block>, Xs: seq<Block>, i: nat)
    requires Scans.Done(kind, part, |part|, out, img, Xs) && i < |img| && Dc.Covered(part, |part|, i)
    ensures |out| == |img| == |Xs| && out[i] == Scans.Goal(kind, img[i], Xs[i])
  {
    hide Dc.Covered, Scans.Goal;
  }

  /** The blocks of an intact segment as the run leaves them that went through everything before. */
  lemma IntactInRun(data: seq<byte>, x0: State, pos: nat, plan: Plan, tb: Table, Xs: seq<Block>, k: nat, start: nat,
      n: nat, z: State, i: nat)
    requires Scans.AtStretch(x0, pos, plan) && Fits(x0, plan) && x0.m == 0 && plan.restartInterval != 0
    requires Dc.Distinct(plan.mcus) && |Xs| == |x0.img| && i < |x0.img| && 0 < n <= plan.restartInterval
    requires StartOfSegment(data, pos, x0.perm.nextRst, k) == Some(start)
    requires var m := FirstMcu(plan.restartInterval, k);
      && m + n <= |plan.mcus| && Intact(data, start, plan, tb, Xs, m, n) && Unbroken(data, x0, m + n, plan) == Some(z)
      && Scans.AllReady(plan.kind, Scans.Part(plan, m, n), x0.img, Xs)
      && Dc.Covered(Scans.Part(plan, m, n), n, i)
    ensures |z.img| == |x0.img| && z.img[i] == Scans.Goal(plan.kind, x0.img[i], Xs[i])
  {
    hide *;
    var m := FirstMcu(plan.restartInterval, k);
    UnbrokenAdd(data, x0, m, n, plan);
    var y := Unbroken(data, x0, m, plan).value;
    var q := SegmentReached(data, x0, pos, plan, k, start, y);
    ReadyThen(data, x0, plan, Xs, m, n, y);
    IntactFrom(data, y, q, start, plan, tb, Xs, n, z);
    DoneAt(plan.kind, Scans.Part(plan, m, n), z.img, y.img, Xs, i);
  }

  /** Main result on damage.  Whatever the segments before it hold, as long as each is ended by the restart marker
      due, an intact segment brings its blocks to exactly their goals, or its intact beginning the blocks of those
      MCUs, in scans of all kinds, however the data was cut into deliveries and calls suspended. */
  lemma DamageStaysInItsSegment(x0: State, pos: nat, es: seq<Seq.Event>, plan: Plan, tb: Table, Xs: seq<Block>, k: nat,
      start: nat, n: nat, i: nat)
    requires Scans.AtStretch(x0, pos, plan) && Fits(x0, plan) && x0.m == 0 && plan.restartInterval != 0
    requires Dc.Distinct(plan.mcus) && |Xs| == |x0.img| && i < |x0.img| && 0 < n <= plan.restartInterval
    requires var s, m := After(Session([], x0), es, plan), FirstMcu(plan.restartInterval, k);
      && StartOfSegment(s.data, pos, x0.perm.nextRst, k) == Some(start) && m + n <= s.x.m <= |plan.mcus|
      && Intact(s.data, start, plan, tb, Xs, m, n)
      && Scans.AllReady(plan.kind, Scans.Part(plan, m, n), x0.img, Xs)
      && Dc.Covered(Scans.Part(plan, m, n), n, i)
    ensures var s := After(Session([], x0), es, plan);
      |s.x.img| == |x0.img| && s.x.img[i] == Scans.Goal(plan.kind, x0.img[i], Xs[i])
  {
    hide *;
    var s, m := After(Session([], x0), es, plan), FirstMcu(plan.restartInterval, k);
    ChunksDoNotMatter(x0, es, plan);
    var total, y := TrackTo(x0, s, plan);
    UnbrokenAdd(s.data, x0, m + n, total - (m + n), plan);
    var z := Unbroken(s.data, x0, m + n, plan).value;
    IntactInRun(s.data, x0, pos, plan, tb, Xs, k, start, n, z, i);
    forall j | m + n <= j < |plan.mcus| ensures !In(plan.mcus[j], i) { OnlyThere(plan, m, n, i, j); }
    FitsParts(x0, plan);
    FitsParts(y, plan);
    OthersAreLeft(s.data, z, total - (m + n), plan, y, i);
    SeenThere(s.data, s.x, y, plan, i);
  }

  lemma SeenThere(data: seq<byte>, x: State, y: State, plan: Plan, i: nat)
    requires Fits(x, plan) && Fits(y, plan) && InStep(data, x, y, plan) && i < plan.blocks
    requires x.m < |plan.mcus| ==> !In(plan.mcus[x.m], i)
    ensures |x.img| == plan.blocks && x.img[i] == y.img[i]
  {
    hide PlanOk, DecodeMcu, In;
  }

  /** And no call suspends once the markers that end the segments have arrived. */
  lemma {:induction false} DamagedScanFinishes(data: seq<byte>, x0: State, pos: nat, plan: Plan, k: nat, start: nat,
      n: nat)
    requires Scans.AtStretch(x0, pos, plan) && Fits(x0, plan) && x0.m == 0 && plan.restartInterval != 0
    requires n <= plan.restartInterval && FirstMcu(plan.restartInterval, k) + n <= |plan.mcus| && TablesOk(plan)
    requires StartOfSegment(data, pos, x0.perm.nextRst, k) == Some(start) && MarkerAfter(data, start).Some?
    ensures Unbroken(data, x0, FirstMcu(plan.restartInterval, k) + n, plan).Some?
  {
    hide *;
    var m := FirstMcu(plan.restartInterval, k);
    if k == 0 {
      FirstInFront(data, x0, pos, plan);
    } else {
      NextFirstMcu(plan.restartInterval, k);
      var before := SegmentBefore(data, pos, x0.perm.nextRst, k, start);
      DamagedScanFinishes(data, x0, pos, plan, k - 1, before, plan.restartInterval);
    }
    var y := Unbroken(data, x0, m, plan).value;
    UnbrokenAdd(data, x0, m, n, plan);
    if n > 0 {
      var q := SegmentReached(data, x0, pos, plan, k, start, y);
      InFrontParts(data, y, q, start, plan);
      WithinInterval(q, n, plan);
      Scans.StretchFinishes(data, q, start, plan, n);
      UnbrokenSame(data, y, q, n, plan);
    }
  }

  // ---------------------------------------------------------------- lost restart markers

  lemma NoneLost(data: seq<byte>, x: State, plan: Plan, z: State)
    requires Fits(x, plan) && Unbroken(data, x, FirstMcu(plan.restartInterval, 0), plan) == Some(z)
    ensures z == x
  {
  }

  /** The restart due is not there: decoding goes on as it was, the marker met pending. */
  lemma GivesUp(data: seq<byte>, x: State, plan: Plan, lost: nat, pos: nat) returns (q: State)
    requires Fits(x, plan) && x.m < |plan.mcus| && plan.restartInterval != 0 && x.perm.toGo == 0 && 1 <= lost <= 2
    requires MarkerOf(data, Seq.RegisterOf(x.perm)) == Some((M_RST0 + (x.perm.nextRst + lost) % 8, pos))
    ensures Fits(q, plan) && q.m == x.m && q.img == x.img && DecodeMcu(data, x, plan) == DecodeMcu(data, q, plan)
    ensures MarkerOf(data, Seq.RegisterOf(q.perm)) == MarkerOf(data, Seq.RegisterOf(x.perm))
    ensures q.perm.toGo == plan.restartInterval && q.perm.nextRst == (x.perm.nextRst + 1) % 8
    ensures q.perm.short == x.perm.short
  {
    IsLater(x.perm.nextRst, lost);
    hide MarkerOf, DecodeBody, Seq.ProcessRestart, Later, PlanOk;
    RestartGivesUp(data, x.perm, Restarts(plan), M_RST0 + (x.perm.nextRst + lost) % 8, pos);
    q := ProcessRestart(data, x, plan).0;
  }

  /** When one or two restarts are missing and the next is met instead, as many intervals are given up: decoding
      goes on afresh behind the marker met once its turn has come, and if data had run out, no block is touched in
      between, except in DC refinements. */
  lemma {:induction false} LostMarkers(data: seq<byte>, x: State, plan: Plan, lost: nat, pos: nat, z: State)
    returns (q: State)
    requires Fits(x, plan) && plan.restartInterval != 0 && x.perm.toGo == 0 && lost <= 2
    requires x.m + FirstMcu(plan.restartInterval, lost) < |plan.mcus|
    requires MarkerOf(data, Seq.RegisterOf(x.perm)) == Some((M_RST0 + (x.perm.nextRst + lost) % 8, pos))
    requires Unbroken(data, x, FirstMcu(plan.restartInterval, lost), plan) == Some(z)
    ensures Fits(z, plan) && InFrontOf(data, z, q, pos, plan) && q.perm.nextRst == (x.perm.nextRst + lost + 1) % 8
    ensures x.perm.short && !plan.kind.DcRefineScan? ==> z.img == x.img
    decreases lost
  {
    hide *;
    if lost == 0 {
      NoneLost(data, x, plan, z);
      q := Scans.AcrossRestart(data, x, pos, plan);
      FitsFrom(q, pos, plan);
      InFrontIs(data, x, q, pos, plan);
    } else {
      var n, m := plan.restartInterval, FirstMcu(plan.restartInterval, lost - 1);
      NextFirstMcu(n, lost);
      NextLost(x.perm.nextRst, lost);
      var q0 := GivesUp(data, x, plan, lost, pos);
      UnbrokenAdd(data, x, n, m, plan);
      var z1 := Unbroken(data, x, n, plan).value;
      UnbrokenSame(data, x, q0, n, plan);
      StretchKeepsMarker(data, q0, n, plan, z1);
      q := LostMarkers(data, z1, plan, lost - 1, pos, z);
      if x.perm.short && !plan.kind.DcRefineScan? {
        WithinInterval(q0, n, plan);
        ShortLeavesAlone(data, q0, n, plan);
        ShortWork(q0, z1);
      }
    }
  }

  lemma ShortWork(x: State, y: State)
    requires WorkOf(x) == WorkOf(y)
    ensures x.perm.short == y.perm.short
  {
  }
}
