/** The main controller when the upsampler needs context rows: a state machine that hands out every
    row group once, in order, with its true neighbours above and below. */
module ContextRows {
  import opened Bits
  import opened Rounding
  import opened FunnyPointers

  datatype State = Prepare | Processing | Postponed

  /** First image row of iMCU row n. */
  function Start(g: Geom, n: int): int {
    n * g.IMcuRows()
  }

  /** The component has M row groups in an iMCU row, its height ends in iMCU row N, and it has T
      row groups in all. */
  ghost predicate Fits(g: Geom, M: nat, N: nat, T: nat) {
    && M >= 2 && N >= 1
    && g.body == g.rgroup * (M - 2) && g.IMcuRows() == g.rgroup * M
    && Start(g, N - 1) < g.height <= Start(g, N)
    && (T - 1) * g.rgroup < g.height <= T * g.rgroup
  }

  /** Geometry of a component with sampling factor v in an image of the given height. */
  function GeometryOf(height: nat, v: nat, maxV: nat, M: nat): (g: Geometry)
    requires 1 <= v <= maxV && M >= 2
  {
    Geometry(v, v * (M - 2), DivRoundUp(height * v, maxV))
  }

  /** iMCU rows of an image. */
  function IMcuCount(height: nat, maxV: nat, M: nat): nat
    requires maxV >= 1 && M >= 1
  {
    MultipleGrows(maxV, M);
    DivRoundUp(height, maxV * M)
  }

  /** All components of an image fit with the same numbers of iMCU rows and of row groups. */
  lemma SameForAll(height: nat, v: nat, maxV: nat, M: nat)
    requires height >= 1 && 1 <= v <= maxV && M >= 2
    ensures var g := GeometryOf(height, v, maxV, M);
      g.rgroup >= 1 && g.body >= 0 && g.height >= 1 && maxV * M > 0
      && Fits(g, M, DivRoundUp(height, maxV * M), DivRoundUp(height, maxV))
  {
    MultipleGrows(v, M - 1);
    MultipleGrows(maxV, M);
    assert v * (M - 2) == v * (M - 1) - v;
    assert v * M == v * (M - 2) + 2 * v;
    var g := GeometryOf(height, v, maxV, M);
    MultipleGrows(v, height);
    assert g.height >= 1;
    GroupsAgree(height, v, maxV);
    var T, N := DivRoundUp(height, maxV), DivRoundUp(height, maxV * M);
    UpNested(height, maxV, M);
    assert (N - 1) * M < T <= N * M;
    RowsOfGroups(T, N, M, v, g.height);
  }

  /** Sample rows against iMCU rows, given row groups. */
  lemma RowsOfGroups(T: nat, N: nat, M: nat, v: nat, h: nat)
    requires v >= 1 && M >= 2 && (N - 1) * M < T <= N * M && (T - 1) * v < h <= T * v
    ensures (N - 1) * (v * M) < h <= N * (v * M)
  {
    ProductMono((N - 1) * M, T - 1, v);
    ProductMono(T, N * M, v);
    assert (N - 1) * M * v == (N - 1) * (v * M) by { ProductAssoc(N - 1, M, v); }
    assert N * M * v == N * (v * M) by { ProductAssoc(N, M, v); }
  }

  /** Real rows of the last iMCU row. */
  lemma LastRows(g: Geom, M: nat, N: nat, T: nat)
    requires Fits(g, M, N, T)
    ensures Start(g, N - 1) + RowsLeft(g) == g.height
    ensures (RowsLeft(g) - 1) / g.rgroup + 1 == T - (N - 1) * M >= 1
  {
    var h := g.IMcuRows();
    Remainder(g.height, h, N);
    ProductAssoc(N - 1, M, g.rgroup);
    assert M * g.rgroup == g.rgroup * M;
    LastGroups(g.height - (N - 1) * M * g.rgroup, g.rgroup, T - (N - 1) * M, T, (N - 1) * M, g.height);
  }

  lemma Remainder(height: int, h: int, N: nat)
    requires h >= 1 && N >= 1 && (N - 1) * h < height <= N * h
    ensures height == (N - 1) * h + (if height % h == 0 then h else height % h)
  {
    var rows := height - (N - 1) * h;
    assert N * h == (N - 1) * h + h;
    if rows == h {
      QuotientIs(height, h, N, 0);
    } else {
      QuotientIs(height, h, N - 1, rows);
    }
  }

  lemma LastGroups(rows: int, r: int, t: int, T: nat, before: nat, height: int)
    requires r >= 1 && rows >= 1 && t == T - before && rows == height - before * r
    requires (T - 1) * r < height <= T * r
    ensures t >= 1 && (rows - 1) / r + 1 == t
  {
    assert t * r == T * r - before * r;
    assert (t - 1) * r == t * r - r && (T - 1) * r == T * r - r;
    QuotientIs(rows - 1, r, t - 1, rows - 1 - (t - 1) * r);
    if t < 1 { ProductMono(t, 0, r); }
  }

  // ---------------------------------------------------------------- what the postprocessor sees

  /** Row group i is the last of an iMCU row that is not the last: it waits until the next iMCU row is in. */
  ghost predicate Late(M: nat, N: nat, i: int)
    requires M >= 1
  {
    (i + 1) % M == 0 && i + 1 <= (N - 1) * M
  }

  /** True context of row group i: the rows of row groups i - 1, i and i + 1, repeated at the image edges. */
  ghost function Truth(g: Geom, i: int): (rows: seq<int>)
    ensures |rows| == 3 * g.rgroup
  {
    seq(3 * g.rgroup, j requires 0 <= j < 3 * g.rgroup => Edge(g, (i - 1) * g.rgroup + j))
  }

  /** What the postprocessor sees: the truth, except that below a late row group there are the rows just
      read, padding included. */
  ghost function SeenRow(g: Geom, M: nat, N: nat, i: int, j: int): int
    requires M >= 1
  {
    var p := (i - 1) * g.rgroup + j;
    if Late(M, N, i) && j >= 2 * g.rgroup then p else Edge(g, p)
  }

  ghost function Seen(g: Geom, M: nat, N: nat, i: int): (rows: seq<int>)
    requires M >= 1
    ensures |rows| == 3 * g.rgroup
  {
    seq(3 * g.rgroup, j requires 0 <= j < 3 * g.rgroup => SeenRow(g, M, N, i, j))
  }

  /** Exactly when a row group has its true context; its own rows and the rows next to it are always right. */
  lemma FullContext(g: Geom, M: nat, N: nat, T: nat, i: nat)
    requires Fits(g, M, N, T) && i < T
    ensures Seen(g, M, N, i) == Truth(g, i) <==> (Late(M, N, i) ==> (i + 2) * g.rgroup <= g.height)
    ensures forall j :: 0 <= j <= 2 * g.rgroup && j < 3 * g.rgroup ==> Seen(g, M, N, i)[j] == Truth(g, i)[j]
  {
    var r := g.rgroup;
    Neighbours(i, r);
    if Late(M, N, i) { LateStart(g, M, N, i); }
    hide Late, Fits, Start;
    var seen, truth := Seen(g, M, N, i), Truth(g, i);
    forall j | 0 <= j < 3 * r && (j <= 2 * r || !Late(M, N, i) || (i + 2) * r <= g.height) ensures seen[j] == truth[j] {
      assert seen[j] == SeenRow(g, M, N, i, j) && truth[j] == Edge(g, (i - 1) * r + j);
    }
    if Late(M, N, i) && (i + 2) * r > g.height {
      var j := 3 * r - 1;
      assert seen[j] == (i - 1) * r + j && truth[j] == g.height - 1;
    } else {
      assert seen == truth;
    }
  }

  lemma Neighbours(i: int, r: int)
    ensures (i + 2) * r == (i - 1) * r + 3 * r && (i + 1) * r == (i - 1) * r + 2 * r
  {
  }

  lemma LateStart(g: Geom, M: nat, N: nat, i: nat)
    requires M >= 2 && g.IMcuRows() == g.rgroup * M && Start(g, N - 1) < g.height && Late(M, N, i)
    ensures (i + 1) * g.rgroup < g.height
  {
    ProductMono(i + 1, (N - 1) * M, g.rgroup);
    ProductAssoc(N - 1, M, g.rgroup);
    assert M * g.rgroup == g.rgroup * M;
  }

  lemma IsLate(M: nat, N: nat, n: int, i: int)
    requires M >= 2 && 0 <= n <= N - 1 && i == n * M - 1
    ensures Late(M, N, i)
  {
    QuotientIs(i + 1, M, n, 0);
    ProductMono(n, N - 1, M);
  }

  lemma NotLate(M: nat, N: nat, n: int, c: nat, i: int)
    requires M >= 2 && 1 <= n <= N && i == (n - 1) * M + c && (n < N ==> c < M - 1)
    ensures !Late(M, N, i)
  {
    if n < N { QuotientIs(i + 1, M, n - 1, c + 1); }
  }

  /** A 33-row image with two-row groups in one component, of 17 rows: its row group 7 sees a row of padding. */
  lemma ShortLastRow()
    ensures var g := GeometryOf(33, 2, 4, 8);
      g == Geometry(2, 12, 17) && IMcuCount(33, 4, 8) == 2 && DivRoundUp(33, 4) == 9
      && Seen(g, 8, 2, 7)[5] == 17 && Truth(g, 7)[5] == 16
  {
    UpUnique(66, 4, 17);
    UpUnique(33, 32, 2);
    UpUnique(33, 4, 9);
  }

  /** Buffers for all components of an image, and a controller ready to run. */
  method NewController(height: nat, vs: seq<nat>, maxV: nat, M: nat) returns (c: MainController)
    requires height >= 1 && M >= 2 && |vs| >= 1 && maxV >= 1 && forall k :: 0 <= k < |vs| ==> 1 <= vs[k] <= maxV
    ensures fresh(c) && c.Valid() && c.Logged() && c.handed == 0 && c.M == M && |c.comps| == |vs|
    ensures c.T == DivRoundUp(height, maxV) && c.N == IMcuCount(height, maxV, M)
    ensures forall k :: 0 <= k < |vs| ==> c.comps[k].g == GeometryOf(height, vs[k], maxV, M)
  {
    SameForAll(height, vs[0], maxV, M);
    hide Fits;
    var comps: seq<RowBuffer> := [];
    for k := 0 to |vs|
      invariant |comps| == k && forall l :: 0 <= l < k ==> fresh(comps[l]) && comps[l].Sized()
      invariant forall l :: 0 <= l < k ==> comps[l].g == GeometryOf(height, vs[l], maxV, M)
      invariant forall l, m :: 0 <= l < m < k ==> comps[l] != comps[m]
    {
      SameForAll(height, vs[k], maxV, M);
      var b := new RowBuffer(GeometryOf(height, vs[k], maxV, M));
      comps := comps + [b];
    }
    var N, T := DivRoundUp(height, maxV * M), DivRoundUp(height, maxV);
    forall k | 0 <= k < |vs| ensures Fits(comps[k].g, M, N, T) { SameForAll(height, vs[k], maxV, M); }
    GroupsOfRows(height, maxV, M);
    c := new MainController(comps, M, N, T);
    c.StartPass();
  }

  lemma GroupsOfRows(height: nat, maxV: nat, M: nat)
    requires height >= 1 && maxV >= 1 && M >= 2
    ensures maxV * M > 0
    ensures var N, T := DivRoundUp(height, maxV * M), DivRoundUp(height, maxV); N >= 1 && (N - 1) * M < T <= N * M
  {
    UpNested(height, maxV, M);
    var N := DivRoundUp(height, maxV * M);
  }

  class MainController {
    const M: nat
    const N: nat
    const T: nat
    const comps: seq<RowBuffer>
    var bufferFull: bool
    var rowgroupCtr: nat
    var which: nat
    var state: State
    var rowgroupsAvail: nat
    var iMcuRowCtr: nat
    /** What the postprocessor has been shown of each row group so far: for every component the rows
        above, in and below it. */
    var log: seq<seq<seq<int>>>
    /** How many row groups of the image that is. */
    ghost var handed: nat

    constructor (comps: seq<RowBuffer>, M: nat, N: nat, T: nat)
      requires |comps| >= 1 && M >= 2 && N >= 1 && (N - 1) * M < T <= N * M
      requires forall k :: 0 <= k < |comps| ==> comps[k].Sized() && Fits(comps[k].g, M, N, T)
      requires forall k, l :: 0 <= k < l < |comps| ==> comps[k] != comps[l]
      ensures Shape() && this.comps == comps && this.M == M && this.N == N && this.T == T
    {
      this.comps, this.M, this.N, this.T := comps, M, N, T;
      which, state, rowgroupCtr, rowgroupsAvail, iMcuRowCtr, bufferFull, handed := 0, Prepare, 0, 0, 0, false, 0;
      log := [];
    }

    ghost predicate Shape()
      reads this, comps
    {
      && (forall k :: 0 <= k < |comps| ==> comps[k].Sized() && Fits(comps[k].g, M, N, T))
      && (forall k, l :: 0 <= k < l < |comps| ==> comps[k] != comps[l])
      && M >= 2 && N >= 1 && |comps| >= 1 && (N - 1) * M < T <= N * M
    }

    /** The counters, state by state. */
    ghost predicate Counters()
      reads this
    {
      var n := iMcuRowCtr;
      && n <= N && which == (if bufferFull then (n + 1) % 2 else n % 2) && handed <= T && (bufferFull ==> n >= 1)
      && match state
         case Prepare => if bufferFull then handed == (n - 1) * M else n == 0 && handed == 0
         case Processing => bufferFull && rowgroupCtr <= rowgroupsAvail && handed == (n - 1) * M + rowgroupCtr
           && rowgroupsAvail == (if n == N then T - (N - 1) * M else M - 1)
         case Postponed =>
           && rowgroupsAvail == M + 2
           && if bufferFull then n >= 2 && M + 1 <= rowgroupCtr <= M + 2
               && handed == (n - 1) * M - 1 + (rowgroupCtr - (M + 1))
              else n >= 1 && rowgroupCtr == M + 1 && handed == (if n < N then n * M - 1 else T)
    }

    /** What one component's buffer holds once n iMCU rows have been read: full says that the last of
        them is in use through list w, bottom that this list has been tweaked for the bottom. */
    ghost predicate Holding(b: RowBuffer, n: int, full: bool, w: nat, bottom: bool)
      requires b.Sized()
      reads b
    {
      var g := b.g;
      if n == 0 then TopList(g, b.list0) && IsBase(g, b.list1, 1, 0, g.Workspace())
      else if full then
        && Current(g, b.content, w, Start(g, n - 1))
        && (n >= 2 ==> Previous(g, b.content, w, Start(g, n - 1)))
        && (if bottom then exists before :: Untouched(g, before, w, n) && BottomOf(g, b.List(w), before, RowsLeft(g))
            else ListsOk(b, n))
      else n < N ==> ListsOk(b, n + 1) && Current(g, b.content, if w == 0 then 1 else 0, Start(g, n - 1))
    }

    ghost predicate BufferOk(b: RowBuffer)
      requires b in comps && b.Sized()
      reads this, b
    {
      Holding(b, iMcuRowCtr, bufferFull, which, state.Processing? && iMcuRowCtr == N)
    }

    /** List w before the bottom of the image: top state for the first iMCU row only. */
    ghost predicate Untouched(g: Geom, list: seq<int>, w: nat, n: int) {
      if n == 1 then w == 0 && TopList(g, list) else Wrapped(g, list, w)
    }

    ghost predicate ListsOk(b: RowBuffer, n: int)
      reads b
    {
      if n == 1 then TopList(b.g, b.list0) && IsBase(b.g, b.list1, 1, 0, b.g.Workspace())
      else Wrapped(b.g, b.list0, 0) && Wrapped(b.g, b.list1, 1)
    }

    ghost predicate Valid()
      reads this, comps
    {
      Shape() && Counters() && forall k :: 0 <= k < |comps| ==> BufferOk(comps[k])
    }

    /** Row group c of the list is, with its surroundings, row group c + shift of the image. */
    ghost predicate GroupOk(b: RowBuffer, w: nat, c: int, shift: int)
      requires M >= 2
      reads b
    {
      Around(b.g, b.List(w), b.content, c) == Seen(b.g, M, N, c + shift)
    }

    ghost predicate GroupsOk(b: RowBuffer, w: nat, from: int, to: int, shift: int)
      requires M >= 2
      reads b
    {
      forall c :: from <= c < to ==> GroupOk(b, w, c, shift)
    }

    /** The row groups from rowgroupCtr to rowgroupsAvail - 1 of the list are those of the image from
        handed on. */
    ghost predicate ContextOk(b: RowBuffer)
      requires M >= 2
      reads this, b
    {
      GroupsOk(b, which, rowgroupCtr, rowgroupsAvail, handed - rowgroupCtr)
    }

    /** What was handed out is the image: row group i came in place i, with the context due to it. */
    ghost predicate Logged()
      requires M >= 2
      reads this`handed, this`log
    {
      && |log| == handed
      && forall i :: 0 <= i < handed ==>
           |log[i]| == |comps| && forall k :: 0 <= k < |comps| ==> log[i][k] == Seen(comps[k].g, M, N, i)
    }

    /** What list w shows of row group c of every component. */
    function Shown(w: nat, c: int): (v: seq<seq<int>>)
      reads comps
      ensures |v| == |comps| && forall k :: 0 <= k < |comps| ==>
          v[k] == Around(comps[k].g, comps[k].List(w), comps[k].content, c)
    {
      seq(|comps|, k requires 0 <= k < |comps| reads comps => Around(comps[k].g, comps[k].List(w), comps[k].content, c))
    }

    /** The last n row groups shown are those of the list from c on. */
    ghost predicate Showed(before: seq<seq<seq<int>>>, c: int, n: nat)
      reads this`log, this`which, comps
    {
      |log| == |before| + n && before <= log && forall i :: |before| <= i < |log| ==>
          log[i] == Shown(which, c + (i - |before|))
    }

    /** One row group goes to the postprocessor. */
    method HandOut()
      requires M >= 2 && Logged() && rowgroupCtr < rowgroupsAvail
      requires forall k :: 0 <= k < |comps| ==> ContextOk(comps[k])
      modifies this`rowgroupCtr, this`handed, this`log
      ensures Logged() && log == old(log) + [old(Shown(which, rowgroupCtr))]
      ensures rowgroupCtr == old(rowgroupCtr) + 1 && handed == old(handed) + 1
      ensures forall k :: 0 <= k < |comps| ==> ContextOk(comps[k])
    {
      hide Seen, Around;
      var v := Shown(which, rowgroupCtr);
      forall k | 0 <= k < |comps| ensures v[k] == Seen(comps[k].g, M, N, handed) {
        assert ContextOk(comps[k]) && GroupOk(comps[k], which, rowgroupCtr, handed - rowgroupCtr);
      }
      hide GroupOk, Shown;
      forall k | 0 <= k < |comps| ensures GroupsOk(comps[k], which, rowgroupCtr + 1, rowgroupsAvail,
          handed - rowgroupCtr) {
        assert ContextOk(comps[k]);
      }
      hide GroupsOk;
      log := log + [v];
      rowgroupCtr := rowgroupCtr + 1;
      handed := handed + 1;
    }

    /** The postprocessor takes as many of the available row groups as it can. */
    method PostProcess(wanted: nat) returns (n: nat)
      requires M >= 2 && Logged() && rowgroupCtr <= rowgroupsAvail
      requires forall k :: 0 <= k < |comps| ==> ContextOk(comps[k])
      modifies this`rowgroupCtr, this`handed, this`log
      ensures old(rowgroupCtr) <= rowgroupCtr <= rowgroupsAvail
          && handed - old(handed) == rowgroupCtr - old(rowgroupCtr) == n
      ensures wanted > 0 && old(rowgroupCtr) < rowgroupsAvail ==> rowgroupCtr > old(rowgroupCtr)
      ensures Logged() && Showed(old(log), old(rowgroupCtr), n)
    {
      hide ContextOk, Logged, Shown;
      n := 0;
      while n < wanted && rowgroupCtr < rowgroupsAvail
        invariant 0 <= n && handed - old(handed) == rowgroupCtr - old(rowgroupCtr) == n && rowgroupCtr <= rowgroupsAvail
        invariant wanted > 0 && old(rowgroupCtr) < rowgroupsAvail ==> n > 0 || rowgroupCtr < rowgroupsAvail
        invariant Logged() && Showed(old(log), old(rowgroupCtr), n)
        invariant forall k :: 0 <= k < |comps| ==> ContextOk(comps[k])
        decreases rowgroupsAvail - rowgroupCtr
      {
        HandOut();
        n := n + 1;
      }
    }

    /** start_pass_main. */
    method StartPass()
      requires Shape()
      modifies this, comps
      ensures Valid() && handed == 0 && Logged() && Settled()
    {
      hide Fits, Holding;
      for k := 0 to |comps|
        invariant Shape() && forall l :: 0 <= l < k ==> Holding(comps[l], 0, false, 0, false)
      {
        TopOne(comps[k]);
      }
      Reset();
    }

    method Reset()
      requires Shape() && forall l :: 0 <= l < |comps| ==> Holding(comps[l], 0, false, 0, false)
      modifies this
      ensures Valid() && handed == 0 && Logged() && Settled()
    {
      hide Fits, Holding;
      which, state, iMcuRowCtr, bufferFull, rowgroupCtr := 0, Prepare, 0, false, 0;
      handed, log := 0, [];
    }

    method TopOne(b: RowBuffer)
      requires b.Sized()
      modifies b`list0, b`list1
      ensures b.Sized() && Holding(b, 0, false, 0, false)
    {
      hide TopList, IsBase;
      b.MakeFunnyPointers();
    }

    /** One component's share of an iMCU row. */
    method DeliverTo(b: RowBuffer)
      requires b in comps && b.Sized() && BufferOk(b) && !bufferFull && iMcuRowCtr < N && which == iMcuRowCtr % 2
      modifies b
      ensures b.Sized() && Delivered(b, which, iMcuRowCtr)
    {
      ListsAllow(b, iMcuRowCtr);
      assert Start(b.g, iMcuRowCtr - 1) == Start(b.g, iMcuRowCtr) - b.g.IMcuRows();
      hide Current, Previous, Wrapped, TopList, IsBase, Start;
      b.Deliver(which, Start(b.g, iMcuRowCtr));
    }

    /** Reads an iMCU row into every component's buffer through the current list. */
    method ReadIMcuRow()
      requires Valid() && !bufferFull && iMcuRowCtr < N
      modifies this`bufferFull, this`iMcuRowCtr, comps
      ensures Valid() && bufferFull && handed == old(handed) && state == old(state)
    {
      hide Fits, Current, Previous, Wrapped, TopList, IsBase, Start, BufferOk, Delivered;
      ghost var n := iMcuRowCtr;
      for k := 0 to |comps|
        invariant Shape() && !bufferFull && iMcuRowCtr == n
        invariant forall l :: 0 <= l < k ==> Delivered(comps[l], which, n)
        invariant forall l :: k <= l < |comps| ==> BufferOk(comps[l])
      {
        DeliverTo(comps[k]);
      }
      FinishRead();
    }

    ghost predicate Delivered(b: RowBuffer, w: nat, n: int)
      reads b
    {
      && b.Sized() && ListsOk(b, n + 1) && Current(b.g, b.content, w, Start(b.g, n))
      && (n >= 1 ==> Previous(b.g, b.content, w, Start(b.g, n)))
    }

    lemma DeliveredHolds(b: RowBuffer, w: nat, n: nat)
      requires Delivered(b, w, n)
      ensures Holding(b, n + 1, true, w, false)
    {
      hide Current, Previous, ListsOk, Start;
    }

    method FinishRead()
      requires Shape() && Counters() && !bufferFull && iMcuRowCtr < N
      requires forall l :: 0 <= l < |comps| ==> Delivered(comps[l], which, iMcuRowCtr)
      modifies this`bufferFull, this`iMcuRowCtr
      ensures Valid() && bufferFull && iMcuRowCtr == old(iMcuRowCtr) + 1
    {
      hide Fits, Holding, Delivered;
      forall k | 0 <= k < |comps| ensures comps[k].Sized() && Holding(comps[k], iMcuRowCtr + 1, true, which, false) {
        DeliveredHolds(comps[k], which, iMcuRowCtr);
      }
      bufferFull := true;
      iMcuRowCtr := iMcuRowCtr + 1;
    }

    /** Before a read the current list is in its permanent state where the decoder writes. */
    lemma ListsAllow(b: RowBuffer, n: int)
      requires b in comps && b.Sized() && BufferOk(b) && !bufferFull && n == iMcuRowCtr < N && n >= 0 && which == n % 2
      ensures ListsOk(b, n + 1) && IsBase(b.g, b.List(which), which, 0, b.g.IMcuRows())
    {
    }

    // ------------------------------------------------------------ the postprocessor sees the truth

    /** A row group inside what a list shows. */
    lemma ShowsGroup(b: RowBuffer, from: int, to: int, s: int, c: int, shift: int)
      requires M >= 2 && Shows(b.g, b.List(which), b.content, from, to, s)
      requires from <= (c - 1) * b.g.rgroup && (c + 2) * b.g.rgroup <= to && s == shift * b.g.rgroup
      requires !Late(M, N, c + shift)
      ensures GroupOk(b, which, c, shift)
    {
      var g, r := b.g, b.g.rgroup;
      assert (c + 2) * r == (c - 1) * r + 3 * r && (c + shift - 1) * r == (c - 1) * r + shift * r;
      hide Entry, Edge, Late;
      var rows := Around(g, b.List(which), b.content, c);
      forall j | 0 <= j < 3 * r ensures rows[j] == SeenRow(g, M, N, c + shift, j) {
        assert rows[j] == ShownAt(g, b.List(which), b.content, (c - 1) * r + j);
      }
    }

    /** A postponed row group. */
    lemma PostponedOk(b: RowBuffer)
      requires Shape() && Counters() && b in comps && BufferOk(b) && state.Postponed? && bufferFull
      ensures ContextOk(b)
    {
      if rowgroupCtr < rowgroupsAvail {
        PostponedGroup(b, iMcuRowCtr);
        IsLate(M, N, iMcuRowCtr - 1, handed);
        hide GroupOk;
      }
    }

    lemma PostponedGroup(b: RowBuffer, n: int)
      requires Shape() && b in comps && b.Sized() && Holding(b, n, true, which, false) && 2 <= n <= N
      ensures GroupOk(b, which, M + 1, (n - 1) * M - 1 - (M + 1))
    {
      var g, i := b.g, (n - 1) * M - 1;
      var rows := Around(g, b.List(which), b.content, M + 1);
      forall j | 0 <= j < 3 * g.rgroup ensures rows[j] == SeenRow(g, M, N, i, j) {
        assert rows[j] == ShownAt(g, b.List(which), b.content, (M + 1 - 1) * g.rgroup + j);
        hide *;
        PostponedPlace(b, n, j);
      }
      assert rows == Seen(g, M, N, i);
    }

    lemma PostponedPlace(b: RowBuffer, n: int, j: nat)
      requires Shape() && b in comps && b.Sized() && Holding(b, n, true, which, false) && 2 <= n <= N
          && j < 3 * b.g.rgroup
      ensures ShownAt(b.g, b.List(which), b.content, (M + 1 - 1) * b.g.rgroup + j)
          == SeenRow(b.g, M, N, (n - 1) * M - 1, j)
    {
      var g, s := b.g, Start(b.g, n - 1);
      PostponedStart(g, n);
      IsLate(M, N, n - 1, (n - 1) * M - 1);
      assert Wrapped(g, b.List(which), which) && Current(g, b.content, which, s) && Previous(g, b.content, which, s);
      hide Start, Late, Wrapped, Current, Previous, ShownAt, Holding, Fits;
      PostponedRow(g, b.List(which), b.content, which, s, g.rgroup * M + j);
    }

    /** Where the rows around the postponed row group lie in the image. */
    lemma PostponedStart(g: Geom, n: int)
      requires Fits(g, M, N, T) && 2 <= n <= N
      ensures (M + 1 - 1) * g.rgroup == g.rgroup * M == g.IMcuRows() == g.Workspace() - 2 * g.rgroup
      ensures ((n - 1) * M - 1 - 1) * g.rgroup == Start(g, n - 1) - 2 * g.rgroup
      ensures g.IMcuRows() <= Start(g, n - 1) < g.height
    {
      StartIs(g, n - 1, M);
      StartIs(g, 1, M);
      StartGrows(g, n - 1, N - 1);
      StartGrows(g, 1, n - 1);
      PostponedTerms(g.rgroup, M, n);
    }

    lemma StartGrows(g: Geom, m: int, n: int)
      requires m <= n
      ensures Start(g, m) <= Start(g, n)
    {
      ProductMono(m, n, g.IMcuRows());
    }

    lemma PostponedTerms(r: int, M: nat, n: int)
      ensures (M + 1 - 1) * r == r * M && (M + 2) * r == r * M + 2 * r
      ensures ((n - 1) * M - 2) * r == (n - 1) * (r * M) - 2 * r
    {
      ProductAssoc(n - 1, M, r);
      assert M * r == r * M;
      assert ((n - 1) * M - 2) * r == (n - 1) * M * r - 2 * r;
    }

    /** The row group that waited for the next iMCU row has its whole context exactly when the real rows of
        that iMCU row are at least a row group. */
    lemma PostponedExactly(b: RowBuffer)
      requires Valid() && b in comps && state.Postponed? && bufferFull
      ensures var g, s := b.g, Start(b.g, iMcuRowCtr - 1);
        s + g.rgroup <= g.height <==>
        Shows(g, b.List(which), b.content, g.IMcuRows(), g.Workspace() + g.rgroup, s - g.Workspace())
    {
      hide *;
      PostponedBuffer(b);
      PostponedStart(b.g, iMcuRowCtr);
      PostponedContext(b.g, b.List(which), b.content, which, Start(b.g, iMcuRowCtr - 1));
    }

    lemma PostponedBuffer(b: RowBuffer)
      requires Valid() && b in comps && state.Postponed? && bufferFull
      ensures var g, n := b.g, iMcuRowCtr;
        && Fits(g, M, N, T) && 2 <= n <= N && Wrapped(g, b.List(which), which)
        && Current(g, b.content, which, Start(g, n - 1)) && Previous(g, b.content, which, Start(g, n - 1))
    {
      assert BufferOk(b);
      hide Fits, Start, Current, Previous, Wrapped;
    }

    /** The row groups of an iMCU row, with its bottom taken care of if it is the last. */
    lemma ProcessingOk(b: RowBuffer)
      requires Shape() && Counters() && b in comps && BufferOk(b) && state.Processing?
      ensures ContextOk(b)
    {
      hide BufferOk, Shows, RowsLeft, Start, GroupOk;
      var n := iMcuRowCtr;
      var shift := (n - 1) * M;
      ShowsIMcu(b);
      var to := if n == N then RowsLeft(b.g) + 2 * b.g.rgroup else b.g.IMcuRows();
      forall c | rowgroupCtr <= c < rowgroupsAvail ensures GroupOk(b, which, c, shift) {
        NotLate(M, N, n, c, c + shift);
        ProcessingTerms(b.g.rgroup, M, n, c);
        StartIs(b.g, n - 1, M);
        LastOffered(b, c);
        ShowsGroup(b, -b.g.rgroup, to, Start(b.g, n - 1), c, shift);
      }
    }

    /** What the list shows of the iMCU row. */
    lemma ShowsIMcu(b: RowBuffer)
      requires Shape() && Counters() && b in comps && BufferOk(b) && state.Processing?
      ensures var to := if iMcuRowCtr == N then RowsLeft(b.g) + 2 * b.g.rgroup else b.g.IMcuRows();
        Shows(b.g, b.List(which), b.content, -b.g.rgroup, to, Start(b.g, iMcuRowCtr - 1))
    {
      hide BufferOk, Shows, RowsLeft, Start;
      if iMcuRowCtr == N {
        LastRows(b.g, M, N, T);
        LastShows(b);
      } else {
        StartGrows(b.g, iMcuRowCtr, N - 1);
        InnerShows(b);
      }
    }

    /** No row group is offered whose context is not shown. */
    lemma LastOffered(b: RowBuffer, c: int)
      requires Shape() && Counters() && b in comps && state.Processing? && c < rowgroupsAvail
      ensures (c + 2) * b.g.rgroup <= if iMcuRowCtr == N then RowsLeft(b.g) + 2 * b.g.rgroup else b.g.IMcuRows()
    {
      var g, r := b.g, b.g.rgroup;
      hide RowsLeft, Start;
      ProductMono(c + 2, rowgroupsAvail + 1, r);
      if iMcuRowCtr == N {
        LastRows(g, M, N, T);
        LastTerms(RowsLeft(g), r, rowgroupsAvail);
      } else {
        AllButOne(M, r);
        assert (M - 1 + 1) * r == (M - 1) * r + r;
      }
    }

    lemma StartIs(g: Geom, n: int, M: nat)
      requires g.IMcuRows() == g.rgroup * M
      ensures Start(g, n) == n * (g.rgroup * M)
    {
    }

    lemma AllButOne(M: nat, r: int)
      ensures (M - 1) * r + r == r * M
    {
    }

    lemma ProcessingTerms(r: int, M: nat, n: int, c: nat)
      requires r >= 1
      ensures (c - 1) * r >= -r && (n - 1) * M * r == (n - 1) * (r * M)
    {
      ProductAssoc(n - 1, M, r);
      assert M * r == r * M;
      assert (c - 1) * r == c * r - r;
      assert c * r >= 0;
    }

    lemma LastTerms(left: nat, r: int, avail: nat)
      requires left >= 1 && r >= 1 && avail == (left - 1) / r + 1
      ensures (avail + 1) * r <= left + 2 * r
    {
      assert (left - 1) == r * ((left - 1) / r) + (left - 1) % r;
      assert (avail + 1) * r == r * ((left - 1) / r) + 2 * r;
    }

    lemma LastShows(b: RowBuffer)
      requires Shape() && Counters() && b in comps && BufferOk(b) && state.Processing? && iMcuRowCtr == N
      requires Start(b.g, N - 1) + RowsLeft(b.g) == b.g.height
      ensures Shows(b.g, b.List(which), b.content, -b.g.rgroup, RowsLeft(b.g) + 2 * b.g.rgroup, Start(b.g, N - 1))
    {
      var g := b.g;
      var before :| Untouched(g, before, which, N) && BottomOf(g, b.List(which), before, RowsLeft(g));
      if N == 1 {
        OnlyShows(g, b.List(which), before, b.content, RowsLeft(g));
      } else {
        StartGrows(g, 1, N - 1);
        BottomShows(g, b.List(which), before, b.content, which, Start(g, N - 1), RowsLeft(g));
      }
    }

    lemma InnerBounds(g: Geom, n: int)
      requires n >= 1 && Start(g, n) <= g.height
      ensures Start(g, n - 1) + g.IMcuRows() <= g.height && Start(g, 0) == 0
      ensures n >= 2 ==> g.IMcuRows() <= Start(g, n - 1)
    {
      assert Start(g, n) == Start(g, n - 1) + g.IMcuRows();
      if n >= 2 { StartGrows(g, 1, n - 1); }
    }

    lemma InnerShows(b: RowBuffer)
      requires Shape() && Counters() && b in comps && BufferOk(b) && state.Processing? && iMcuRowCtr < N
      requires Start(b.g, iMcuRowCtr) <= b.g.height
      ensures Shows(b.g, b.List(which), b.content, -b.g.rgroup, b.g.IMcuRows(), Start(b.g, iMcuRowCtr - 1))
    {
      hide Current, Previous, Wrapped, TopList, IsBase, Start, Shows, Fits;
      var g, n := b.g, iMcuRowCtr;
      InnerBounds(g, n);
      if n == 1 {
        TopShows(g, b.list0, b.content);
      } else {
        MiddleShows(g, b.List(which), b.content, which, Start(g, n - 1));
      }
    }

    // ------------------------------------------------------------ process_data_context_main

    /** Between calls, row groups offered to the postprocessor have not all been taken. */
    ghost predicate Settled()
      reads this
    {
      !state.Prepare? ==> rowgroupCtr < rowgroupsAvail
    }

    /** In either state in which the postprocessor is called, what it is given is right. */
    method CallPostprocessor(wanted: nat) returns (n: nat)
      requires Valid() && Logged() && bufferFull && !state.Prepare?
      modifies this`rowgroupCtr, this`handed, this`log
      ensures Logged() && Showed(old(log), old(rowgroupCtr), n)
      ensures Valid() && old(rowgroupCtr) <= rowgroupCtr <= rowgroupsAvail
      ensures handed - old(handed) == rowgroupCtr - old(rowgroupCtr) == n
      ensures wanted > 0 && old(rowgroupCtr) < rowgroupsAvail ==> rowgroupCtr > old(rowgroupCtr)
    {
      hide Fits, Holding, ContextOk, Logged;
      forall k | 0 <= k < |comps| ensures ContextOk(comps[k]) {
        if state.Processing? { ProcessingOk(comps[k]); } else { PostponedOk(comps[k]); }
      }
      n := PostProcess(wanted);
      HandedBound(iMcuRowCtr, N, M);
    }

    lemma HandedBound(n: int, N: nat, M: nat)
      requires n <= N
      ensures n < N ==> n * M <= (N - 1) * M
      ensures (n - 1) * M == n * M - M && (n - 1) * M <= (N - 1) * M
    {
      if n < N { ProductMono(n, N - 1, M); }
      ProductMono(n - 1, N - 1, M);
    }

    /** The bottom tweak of one component. */
    method BottomOne(b: RowBuffer)
      requires which == (N + 1) % 2 && b in comps && b.Sized() && BufferOk(b) && bufferFull && !state.Processing?
          && iMcuRowCtr == N >= 1
      modifies b
      ensures b.Sized() && Holding(b, N, true, which, true)
    {
      hide Current, Previous, BottomOf;
      assert Untouched(b.g, b.List(which), which, N);
      hide Wrapped, TopList, IsBase;
      b.SetBottomPointers(which);
    }

    /** set_bottom_pointers for all components; the row groups are counted for the first one. */
    method SetBottomPointers()
      requires Valid() && bufferFull && state.Prepare? && iMcuRowCtr == N
      modifies this`rowgroupsAvail, comps
      ensures Shape() && forall k :: 0 <= k < |comps| ==> Holding(comps[k], N, true, which, true)
      ensures rowgroupsAvail == T - (N - 1) * M
    {
      hide Fits, Holding;
      for k := 0 to |comps|
        invariant Shape() && bufferFull && iMcuRowCtr == N && state.Prepare? && which == old(which)
        invariant which == (N + 1) % 2 && (k > 0 ==> rowgroupsAvail == T - (N - 1) * M)
        invariant forall l :: 0 <= l < k ==> Holding(comps[l], N, true, which, true)
        invariant forall l :: k <= l < |comps| ==> BufferOk(comps[l])
      {
        if k == 0 {
          var g := comps[0].g;
          rowgroupsAvail := (RowsLeft(g) - 1) / g.rgroup + 1;
          LastRows(g, M, N, T);
        }
        BottomOne(comps[k]);
      }
    }

    /** The counters once an iMCU row is prepared, the last one or another. */
    method PrepareLast()
      requires Valid() && bufferFull && state.Prepare? && iMcuRowCtr == N && rowgroupCtr == 0
      modifies this`rowgroupsAvail, this`state, comps
      ensures Valid() && bufferFull && state.Processing? && Settled()
    {
      hide Fits, Holding;
      SetBottomPointers();
      state := Processing;
    }

    method PrepareInner()
      requires Valid() && bufferFull && state.Prepare? && iMcuRowCtr < N && rowgroupCtr == 0
      modifies this`rowgroupsAvail, this`state
      ensures Valid() && bufferFull && state.Processing? && Settled()
    {
      hide Fits, Holding;
      rowgroupsAvail := M - 1;
      state := Processing;
    }

    /** CTX_PREPARE_FOR_IMCU. */
    method PrepareForIMcu()
      requires Valid() && bufferFull && state.Prepare?
      modifies this`rowgroupCtr, this`rowgroupsAvail, this`state, comps
      ensures Valid() && bufferFull && state.Processing? && handed == old(handed) && Settled()
    {
      hide Fits, Holding;
      rowgroupCtr := 0;
      if iMcuRowCtr == N {
        rowgroupsAvail := M - 1;
        PrepareLast();
      } else {
        PrepareInner();
      }
    }

    function Other(w: nat): nat {
      if w == 0 then 1 else 0
    }

    /** From the second iMCU row on the lists are wrapped already. */
    lemma AlreadyWrapped(b: RowBuffer)
      requires b in comps && b.Sized() && BufferOk(b) && Counters() && bufferFull && iMcuRowCtr >= 2
      ensures Holding(b, iMcuRowCtr, false, Other(which), false)
    {
      hide Current, Previous, BottomOf, TopList, IsBase, Wrapped, Start;
    }

    method WrapOne(b: RowBuffer)
      requires b in comps && b.Sized() && BufferOk(b) && Counters() && bufferFull && iMcuRowCtr == 1
      modifies b`list0, b`list1
      ensures b.Sized() && Holding(b, 1, false, Other(which), false)
    {
      assert 1 < N ==>
          TopList(b.g, b.list0) && IsBase(b.g, b.list0, 0, 0, b.g.Workspace())
          && IsBase(b.g, b.list1, 1, 0, b.g.Workspace());
      hide Current, Previous, BottomOf, TopList, IsBase, Wrapped;
      b.SetWraparoundPointers();
    }

    /** set_wraparound_pointers for all components. */
    method SetWraparoundPointers()
      requires Valid() && bufferFull && iMcuRowCtr == 1
      modifies comps
      ensures Shape() && forall k :: 0 <= k < |comps| ==> Holding(comps[k], 1, false, Other(which), false)
    {
      hide Fits, Holding, Other;
      for k := 0 to |comps|
        invariant Shape() && Counters() && bufferFull && iMcuRowCtr == 1
        invariant forall l :: 0 <= l < k ==> Holding(comps[l], 1, false, Other(which), false)
        invariant forall l :: k <= l < |comps| ==> BufferOk(comps[l])
      {
        WrapOne(comps[k]);
      }
    }

    /** The end of an iMCU row: wrap the lists after the first one, and turn to the other list, where
        the last row group is waiting at index M + 1. */
    method FinishIMcu()
      requires Valid() && state.Processing? && rowgroupCtr == rowgroupsAvail
      modifies this`rowgroupCtr, this`rowgroupsAvail, this`state, this`which, this`bufferFull, comps
      ensures Valid() && !bufferFull && state.Postponed? && handed == old(handed) && Settled()
    {
      hide Fits, Holding, Other;
      if iMcuRowCtr == 1 {
        SetWraparoundPointers();
      } else {
        forall k | 0 <= k < |comps| ensures Holding(comps[k], iMcuRowCtr, false, Other(which),
            false) { AlreadyWrapped(comps[k]); }
      }
      TurnOver();
    }

    method TurnOver()
      requires Shape() && Counters() && state.Processing? && rowgroupCtr == rowgroupsAvail
      requires forall k :: 0 <= k < |comps| ==> Holding(comps[k], iMcuRowCtr, false, Other(which), false)
      modifies this`rowgroupCtr, this`rowgroupsAvail, this`state, this`which, this`bufferFull
      ensures Valid() && !bufferFull && state.Postponed? && handed == old(handed) && Settled()
    {
      hide Fits, Holding;
      HandedBound(iMcuRowCtr, N, M);
      which := Other(which);
      bufferFull := false;
      rowgroupCtr := M + 1;
      rowgroupsAvail := M + 2;
      state := Postponed;
    }

    /** process_data_context_main.  ready says whether the decoder can deliver now, the wanted numbers
        how much the postprocessor takes at each call, and full whether the postponed row group
        exactly filled the output buffer; taken counts the row groups handed out.  Whatever they are, every
        row group of the image is handed out once and in order, with the context due to it (Logged); and a
        call that is neither starved nor refused hands out at least one. */
    method ProcessData(ready: bool, wanted0: nat, wanted1: nat, full: bool) returns (taken: nat)
      requires Valid() && Logged() && handed < T
      modifies this, comps
      ensures Valid() && handed == old(handed) + taken <= T
      ensures Logged() && old(log) <= log
      ensures !ready && !old(bufferFull) ==> handed == old(handed)
      ensures old(Settled()) ==> Settled()
      ensures old(Settled()) && (ready || old(bufferFull)) && wanted0 > 0 && wanted1 > 0 ==> handed > old(handed)
    {
      hide Fits, BufferOk, Logged;
      taken := 0;
      if !bufferFull {
        if !ready { return; }
        ReadIMcuRow();
      }
      if state.Postponed? {
        taken := CallPostprocessor(wanted0);
        if rowgroupCtr < rowgroupsAvail { return; }
        LeavePostponed();
        if full { return; }
      }
      if state.Prepare? {
        PrepareForIMcu();
      }
      var n := CallPostprocessor(wanted1);
      taken := taken + n;
      if rowgroupCtr < rowgroupsAvail { return; }
      FinishIMcu();
    }

    method LeavePostponed()
      requires Valid() && bufferFull && state.Postponed? && rowgroupCtr == rowgroupsAvail
      modifies this`state
      ensures Valid() && bufferFull && state.Prepare?
    {
      hide Fits, Holding;
      state := Prepare;
    }

    /** A pass, call after call: once as many calls as there are row groups were neither starved nor
        refused, the whole image has been handed out. */
    method Run(calls: seq<Call>) returns (taken: nat)
      requires Shape()
      modifies this, comps
      ensures Valid() && taken == handed <= T
      ensures Logged()
      ensures Productive(calls) >= T ==> taken == T
    {
      hide Fits, BufferOk, Counters, Logged;
      StartPass();
      taken := 0;
      var i := 0;
      while i < |calls| && taken < T
        invariant 0 <= i <= |calls| && Valid() && Logged() && Settled() && taken == handed <= T
        invariant taken == T || taken >= Productive(calls[..i])
      {
        assert calls[..i + 1][..i] == calls[..i];
        var n := ProcessData(calls[i].ready, calls[i].wanted0, calls[i].wanted1, calls[i].full);
        taken := taken + n;
        i := i + 1;
      }
      assert calls[..|calls|] == calls;
    }
  }

  /** What the surroundings do at one call. */
  datatype Call = Call(ready: bool, wanted0: nat, wanted1: nat, full: bool)

  /** Calls at which the decoder can deliver and the postprocessor has room. */
  function Productive(calls: seq<Call>): nat {
    if calls == [] then 0
    else
      var c := calls[|calls| - 1];
      Productive(calls[..|calls| - 1]) + (if c.ready && c.wanted0 > 0 && c.wanted1 > 0 then 1 else 0)
  }
}
