/** A whole progressive image: any legal sequence of scans, DC and AC, first scans and refinements, with or
    without restarts, rebuilds the coefficients that were coded. */
module ProgressiveImage {
  import opened Wrappers
  import opened Bits
  import opened HuffDecode
  import opened Zigzag
  import opened Refine
  import opened Progressive
  import opened SuccessiveApproximation
  import opened FirstScans
  import opened ProgressiveMcu
  import opened RestartIntervals
  import opened RestartedScans
  import Dc = DcProgression
  import Session = ProgressiveSession
  import Seq = SequentialMcu

  // ---------------------------------------------------------------- what has been reached

  /** The bit position that each coefficient of each block, by zigzag index, has reached; None before its
      first scan. */
  type Levels = seq<seq<Option<nat>>>

  predicate Sound(lv: Levels, blocks: nat) {
    |lv| == blocks && forall i :: 0 <= i < blocks ==> |lv[i]| == DCTSIZE2
  }

  /** x as far as it is known with the bits below al still to come; DC shifts round down, AC towards zero. */
  function Known(k: nat, x: Coefficient, l: Option<nat>): int {
    match l
    case None => 0
    case Some(al) => if k == 0 then DcLevel(x, al) else Level(x, al)
  }

  ghost predicate BlockArrived(b: Block, X: Block, l: seq<Option<nat>>) {
    |l| == DCTSIZE2 && forall k :: 0 <= k < DCTSIZE2 ==> b[TheOrder()[k]] == Known(k, X[TheOrder()[k]], l[k])
  }

  ghost predicate Arrived(img: seq<Block>, Xs: seq<Block>, lv: Levels) {
    |img| == |Xs| == |lv| && forall i :: 0 <= i < |img| ==> BlockArrived(img[i], Xs[i], lv[i])
  }

  // ---------------------------------------------------------------- a scan

  function PositionOf(kind: Kind): nat {
    match kind
    case DcFirstScan(al) => al
    case DcRefineScan(al) => al
    case AcFirstScan(_, d) => d.al
    case AcRefineScan(_, d) => d.al
  }

  predicate IsFirst(kind: Kind) {
    kind.DcFirstScan? || kind.AcFirstScan?
  }

  /** The zigzag indexes a scan is about. */
  predicate InBand(kind: Kind, k: nat) {
    match kind
    case DcFirstScan(_) => k == 0
    case DcRefineScan(_) => k == 0
    case AcFirstScan(_, d) => d.ss <= k <= d.se
    case AcRefineScan(_, d) => d.ss <= k <= d.se
  }

  predicate StandardOrder(kind: Kind) {
    (kind.AcFirstScan? || kind.AcRefineScan?) ==> kind.o == TheOrder()
  }

  /** The scan comes at the right time for a block: before anything of its band has come in a first scan, one
      position after the last in a refinement. */
  predicate Timely(kind: Kind, l: seq<Option<nat>>)
    requires |l| == DCTSIZE2
  {
    forall k :: 0 <= k < DCTSIZE2 && InBand(kind, k) ==>
      l[k] == if IsFirst(kind) then None else Some(PositionOf(kind) + 1)
  }

  function BlockReached(kind: Kind, l: seq<Option<nat>>): (r: seq<Option<nat>>)
    requires |l| == DCTSIZE2
    ensures |r| == DCTSIZE2
  {
    seq(DCTSIZE2, k requires 0 <= k < DCTSIZE2 => if InBand(kind, k) then Some(PositionOf(kind)) else l[k])
  }

  /** No coefficient is too large for a category code. */
  predicate Codable(kind: Kind, X: Block) {
    kind.AcFirstScan? ==> CodableBand(X, kind.o, kind.d)
  }

  lemma BlockReady(kind: Kind, b: Block, X: Block, l: seq<Option<nat>>)
    requires BlockArrived(b, X, l) && Timely(kind, l) && StandardOrder(kind) && Codable(kind, X)
    ensures Ready(kind, b, X)
  {
    hide TheOrder, DcLevel, Level, CodableBand;
    FirstPlace();
    match kind
    case DcFirstScan(_) =>
    case DcRefineScan(al) =>
      assert l[0] == Some(al + 1) && b[TheOrder()[0]] == Known(0, X[TheOrder()[0]], l[0]);
    case AcFirstScan(o, d) =>
      forall k | d.ss <= k <= d.se ensures b[o[k]] == 0 { assert l[k] == None; }
    case AcRefineScan(o, d) =>
      forall k | d.ss <= k <= d.se ensures b[o[k]] == Level(X[o[k]], d.al + 1) { assert l[k] == Some(d.al + 1); }
  }

  lemma FirstPlace()
    ensures TheOrder()[0] == 0
  {
    assert NaturalOrder(0) == 0;
  }

  lemma PlacesApart(k: nat)
    requires 0 < k < DCTSIZE2
    ensures TheOrder()[k] != 0
  {
    FirstPlace();
    assert TheOrder()[0] != TheOrder()[k];
  }

  lemma DcGoalAt(kind: Kind, b: Block, X: Block, al: nat, k: nat)
    requires k < DCTSIZE2 && al <= 13 && (kind == DcFirstScan(al) || kind == DcRefineScan(al))
    ensures var p := TheOrder()[k];
      Goal(kind, b, X)[p] == if k == 0 then Known(0, X[p], Some(al)) else b[p]
  {
    hide TheOrder, DcLevel, Goal;
    FirstPlace();
    if k > 0 { PlacesApart(k); }
    DcGoalIs(kind, b, X, al);
  }

  lemma AcGoalAt(kind: Kind, b: Block, X: Block, d: Scan, k: nat)
    requires k < DCTSIZE2 && d.ss >= 1 && (kind == AcFirstScan(TheOrder(), d) || kind == AcRefineScan(TheOrder(), d))
    ensures var p := TheOrder()[k];
      Goal(kind, b, X)[p] == if d.ss <= k <= d.se then Known(k, X[p], Some(d.al)) else b[p]
  {
    hide TheOrder, Level, Goal, SetLevels;
    AcGoalIs(kind, b, X, TheOrder(), d);
    SetLevelsAt(b, X, TheOrder(), d.ss, d.se + 1, d.al, k);
  }

  /** What a scan does to one coefficient. */
  lemma GoalAt(kind: Kind, b: Block, X: Block, k: nat)
    requires k < DCTSIZE2 && StandardOrder(kind)
    ensures var p := TheOrder()[k];
      Goal(kind, b, X)[p] == if InBand(kind, k) then Known(k, X[p], Some(PositionOf(kind))) else b[p]
  {
    hide TheOrder, Known, Goal;
    match kind
    case DcFirstScan(al) => DcGoalAt(kind, b, X, al, k);
    case DcRefineScan(al) => DcGoalAt(kind, b, X, al, k);
    case AcFirstScan(_, d) => AcGoalAt(kind, b, X, d, k);
    case AcRefineScan(_, d) => AcGoalAt(kind, b, X, d, k);
  }

  /** A block that reached its goal is one scan further. */
  lemma BlockFurther(kind: Kind, b: Block, X: Block, l: seq<Option<nat>>)
    requires BlockArrived(b, X, l) && StandardOrder(kind)
    ensures BlockArrived(Goal(kind, b, X), X, BlockReached(kind, l))
  {
    hide TheOrder, Known, Goal, InBand, PositionOf, StandardOrder;
    forall k | 0 <= k < DCTSIZE2
      ensures Goal(kind, b, X)[TheOrder()[k]] == Known(k, X[TheOrder()[k]], BlockReached(kind, l)[k])
    {
      GoalAt(kind, b, X, k);
    }
  }

  // ---------------------------------------------------------------- a pass over the data of one scan

  /** One scan as it happened: the state start_pass left, where its data begins, and the deliveries and calls. */
  datatype Pass = Pass(plan: Session.Plan, tb: Table, start: Session.State, pos: nat, es: seq<Seq.Event>)

  predicate PassOk(p: Pass, blocks: nat) {
    Session.PlanOk(p.plan) && p.plan.blocks == blocks && |p.start.perm.last| == p.plan.comps && p.start.m == 0
    && Dc.Distinct(p.plan.mcus) && StandardOrder(p.plan.kind)
  }

  function Entry(p: Pass, img: seq<Block>): Session.State {
    p.start.(img := img)
  }

  function Outcome(p: Pass, img: seq<Block>): (s: Session.Session)
    requires PassOk(p, |img|)
    ensures |s.x.img| == |img|
  {
    Session.After(Session.Session([], Entry(p, img)), p.es, p.plan)
  }

  /** The scan was run to its end, and its data carries the codes of Xs. */
  ghost predicate Complete(p: Pass, img: seq<Block>, Xs: seq<Block>)
    requires PassOk(p, |img|)
  {
    var s := Outcome(p, img);
    && AtStretch(Entry(p, img), p.pos, p.plan) && s.x.m == |p.plan.mcus|
    && Laid(s.data, p.pos, p.start.perm.nextRst, p.plan.restartInterval, |p.plan.mcus|, 0, CodingOf(p.plan, p.tb, Xs))
  }

  function Covers(p: Pass, i: nat): bool {
    Dc.Covered(p.plan.mcus, |p.plan.mcus|, i)
  }

  /** It comes at the right time for all its blocks. */
  ghost predicate InTurn(p: Pass, Xs: seq<Block>, lv: Levels)
    requires Sound(lv, |Xs|)
  {
    forall i :: 0 <= i < |Xs| && Covers(p, i) ==> Timely(p.plan.kind, lv[i]) && Codable(p.plan.kind, Xs[i])
  }

  function Reached(p: Pass, lv: Levels): (r: Levels)
    requires Sound(lv, |lv|)
    ensures Sound(r, |lv|)
  {
    seq(|lv|, i requires 0 <= i < |lv| => if Covers(p, i) then BlockReached(p.plan.kind, lv[i]) else lv[i])
  }

  /** One scan takes every coefficient it is about to its bit position. */
  lemma PassArrives(p: Pass, img: seq<Block>, Xs: seq<Block>, lv: Levels)
    requires Sound(lv, |Xs|) && Arrived(img, Xs, lv) && PassOk(p, |img|) && InTurn(p, Xs, lv) && Complete(p, img, Xs)
    ensures Arrived(Outcome(p, img).x.img, Xs, Reached(p, lv))
  {
    var kind, out := p.plan.kind, Outcome(p, img).x.img;
    forall i | 0 <= i < |img| && Dc.Covered(p.plan.mcus, |p.plan.mcus|, i) ensures Ready(kind, img[i], Xs[i]) {
      assert Covers(p, i);
      hide Dc.Covered, Timely, BlockArrived, Ready, Complete, Codable, StandardOrder;
      BlockReady(kind, img[i], Xs[i], lv[i]);
    }
    hide Dc.Covered, Timely, BlockArrived, Ready, Goal, AtStretch, Laid, CodingOf, Session.After, Dc.Distinct, InTurn;
    assert AllReady(kind, p.plan.mcus, img, Xs);
    ScanExact(Entry(p, img), p.pos, p.es, p.plan, p.tb, Xs);
    forall i | 0 <= i < |img| ensures BlockArrived(out[i], Xs[i], Reached(p, lv)[i]) {
      if Covers(p, i) { BlockFurther(kind, img[i], Xs[i], lv[i]); }
    }
  }

  // ---------------------------------------------------------------- the image

  function RunAll(ps: seq<Pass>, img: seq<Block>): (r: seq<Block>)
    requires forall k :: 0 <= k < |ps| ==> PassOk(ps[k], |img|)
    ensures |r| == |img|
    decreases |ps|
  {
    if ps == [] then img else RunAll(ps[1..], Outcome(ps[0], img).x.img)
  }

  /** Every scan comes in turn, carries the codes of Xs, and is run to its end. */
  ghost predicate Legal(ps: seq<Pass>, img: seq<Block>, Xs: seq<Block>, lv: Levels)
    requires Sound(lv, |Xs|) && |img| == |Xs| && forall k :: 0 <= k < |ps| ==> PassOk(ps[k], |img|)
    decreases |ps|
  {
    ps == [] ||
    (InTurn(ps[0], Xs, lv) && Complete(ps[0], img, Xs)
        && Legal(ps[1..], Outcome(ps[0], img).x.img, Xs, Reached(ps[0], lv)))
  }

  function Final(ps: seq<Pass>, lv: Levels): (r: Levels)
    requires Sound(lv, |lv|)
    ensures Sound(r, |lv|)
    decreases |ps|
  {
    if ps == [] then lv else Final(ps[1..], Reached(ps[0], lv))
  }

  lemma {:induction false} AllArrive(ps: seq<Pass>, img: seq<Block>, Xs: seq<Block>, lv: Levels)
    requires Sound(lv, |Xs|) && Arrived(img, Xs, lv) && forall k :: 0 <= k < |ps| ==> PassOk(ps[k], |img|)
    requires Legal(ps, img, Xs, lv)
    ensures Arrived(RunAll(ps, img), Xs, Final(ps, lv))
    decreases |ps|
  {
    hide Arrived, PassOk, InTurn, Complete, Reached, Outcome;
    if ps != [] {
      assert |img| == |Xs| by { ArrivedSize(img, Xs, lv); }
      PassArrives(ps[0], img, Xs, lv);
      AllArrive(ps[1..], Outcome(ps[0], img).x.img, Xs, Reached(ps[0], lv));
    }
  }

  lemma ArrivedSize(img: seq<Block>, Xs: seq<Block>, lv: Levels)
    requires Arrived(img, Xs, lv)
    ensures |img| == |Xs| == |lv|
  {
  }

  function Unscanned(n: nat): (lv: Levels)
    ensures Sound(lv, n) && |lv| == n && forall i, k :: 0 <= i < n && 0 <= k < DCTSIZE2 ==> lv[i][k] == None
  {
    seq(n, _ => seq(DCTSIZE2, _ => None))
  }

  function Blank(n: nat): (img: seq<Block>)
    ensures |img| == n && forall i, p :: 0 <= i < n && 0 <= p < DCTSIZE2 ==> img[i][p] == 0
  {
    seq(n, _ => seq(DCTSIZE2, _ => 0))
  }

  lemma NothingArrived(Xs: seq<Block>)
    ensures Arrived(Blank(|Xs|), Xs, Unscanned(|Xs|))
  {
    hide TheOrder;
    forall i | 0 <= i < |Xs| ensures BlockArrived(Blank(|Xs|)[i], Xs[i], Unscanned(|Xs|)[i]) {
    }
  }

  /** Every coefficient has reached position 0. */
  predicate Full(lv: Levels) {
    forall i, k :: 0 <= i < |lv| && 0 <= k < |lv[i]| ==> lv[i][k] == Some(0)
  }

  lemma FullyKnown(out: seq<Block>, Xs: seq<Block>, lv: Levels)
    requires Sound(lv, |Xs|) && Arrived(out, Xs, lv) && Full(lv)
    ensures out == Xs
  {
    hide TheOrder, DcLevel, Level;
    forall i, p: Place | 0 <= i < |Xs| && p < DCTSIZE2 ensures out[i][p] == Xs[i][p] {
      var k := PlaceIndex(p);
      assert BlockArrived(out[i], Xs[i], lv[i]);
      assert out[i][TheOrder()[k]] == Known(k, Xs[i][TheOrder()[k]], Some(0));
      DcLevelZero(Xs[i][p]);
      LevelZero(Xs[i][p]);
    }
    forall i | 0 <= i < |Xs| ensures out[i] == Xs[i] {
      assert forall p: Place :: p < DCTSIZE2 ==> out[i][p] == Xs[i][p];
    }
  }

  lemma PlaceIndex(p: Place) returns (k: nat)
    ensures k < DCTSIZE2 && TheOrder()[k] == p
  {
    k := WalkIndex(p);
    WalkedTo(p);
  }

  /** Main result for progressive images.  From blank blocks, after any legal sequence of complete scans, every
      coefficient is known to the bit position it has reached; once that is 0 for all, the image is exactly
      the one that was coded. */
  lemma ImageIsExact(ps: seq<Pass>, Xs: seq<Block>)
    requires forall k :: 0 <= k < |ps| ==> PassOk(ps[k], |Xs|)
    requires Legal(ps, Blank(|Xs|), Xs, Unscanned(|Xs|))
    ensures var out, lv := RunAll(ps, Blank(|Xs|)), Final(ps, Unscanned(|Xs|));
      Arrived(out, Xs, lv) && (Full(lv) ==> out == Xs)
  {
    hide *;
    NothingArrived(Xs);
    AllArrive(ps, Blank(|Xs|), Xs, Unscanned(|Xs|));
    var out, lv := RunAll(ps, Blank(|Xs|)), Final(ps, Unscanned(|Xs|));
    if Full(lv) { FullyKnown(out, Xs, lv); }
  }
}
