/** One component's row buffer in the main controller: a workspace of M + 2 row groups seen through
    two pointer lists.  Positions in a list are counted in sample rows from the master pointer, so
    the context above starts at -rgroup.  A row's content is the number of the image row it holds. */
module FunnyPointers {

  /** rgroup: rows of a row group.  body == rgroup * (M - 2), so an iMCU row has body + 2 * rgroup
      rows and the workspace body + 4 * rgroup.  height: real sample rows. */
  datatype Geometry = Geometry(rgroup: int, body: int, height: int) {
    function IMcuRows(): int { body + 2 * rgroup }
    function Workspace(): int { body + 4 * rgroup }
    function ListLength(): int { body + 6 * rgroup }
  }

  type Geom = g: Geometry | g.rgroup >= 1 && g.body >= 0 && g.height >= 1 witness Geometry(1, 0, 1)

  /** The permanent part of list w: list 1 has the last four row groups in swapped order. */
  function Base(g: Geom, w: nat, j: int): int {
    if w == 0 || j < g.body then j else if j < g.body + 2 * g.rgroup then j + 2 * g.rgroup else j - 2 * g.rgroup
  }

  /** Entry of a list at position j. */
  function Entry(g: Geom, list: seq<int>, j: int): int
    requires |list| == g.ListLength() && -g.rgroup <= j < g.body + 5 * g.rgroup
  {
    list[g.rgroup + j]
  }

  /** Positions from..to-1 of the list agree with its permanent part. */
  ghost predicate IsBase(g: Geom, list: seq<int>, w: nat, from: int, to: int) {
    && |list| == g.ListLength() && 0 <= from && to <= g.Workspace()
    && forall j :: from <= j < to ==> Entry(g, list, j) == Base(g, w, j)
  }

  /** At the top of the image the rows above are the first row. */
  ghost predicate TopList(g: Geom, list: seq<int>) {
    IsBase(g, list, 0, 0, g.Workspace()) && forall j :: -g.rgroup <= j < 0 ==> Entry(g, list, j) == 0
  }

  /** In the normal state the list wraps around at both ends. */
  ghost predicate Wrapped(g: Geom, list: seq<int>, w: nat) {
    && IsBase(g, list, w, 0, g.Workspace())
    && (forall j :: -g.rgroup <= j < 0 ==> Entry(g, list, j) == Base(g, w, g.Workspace() + j))
    && (forall j :: g.Workspace() <= j < g.Workspace() + g.rgroup ==>
        Entry(g, list, j) == Base(g, w, j - g.Workspace()))
  }

  /** The workspace as list w sees it: the current iMCU row, starting at image row s, and behind it
      the last two row groups of the one before. */
  ghost predicate Current(g: Geom, content: seq<int>, w: nat, s: int) {
    && |content| == g.Workspace()
    && forall j :: 0 <= j < g.IMcuRows() ==> content[Base(g, w, j)] == s + j
  }

  ghost predicate Previous(g: Geom, content: seq<int>, w: nat, s: int) {
    && |content| == g.Workspace()
    && forall j :: g.IMcuRows() <= j < g.Workspace() ==> content[Base(g, w, j)] == s + j - g.Workspace()
  }

  lemma BaseInside(g: Geom, w: nat, j: int)
    requires 0 <= j < g.Workspace()
    ensures 0 <= Base(g, w, j) < g.Workspace()
  {
  }

  /** The image row wanted at image position r: the first or last real row beyond the edges. */
  function Edge(g: Geom, r: int): int {
    if r < 0 then 0 else if r >= g.height then g.height - 1 else r
  }

  /** List positions from..to-1 show image positions from + shift on. */
  ghost predicate Shows(g: Geom, list: seq<int>, content: seq<int>, from: int, to: int, shift: int) {
    && |list| == g.ListLength() && -g.rgroup <= from && to <= g.body + 5 * g.rgroup
    && forall j :: from <= j < to ==>
        0 <= Entry(g, list, j) < |content| && content[Entry(g, list, j)] == Edge(g, j + shift)
  }

  // ---------------------------------------------------------------- what the lists show

  /** Top of the image. */
  lemma TopShows(g: Geom, list: seq<int>, content: seq<int>)
    requires TopList(g, list) && Current(g, content, 0, 0) && g.IMcuRows() <= g.height
    ensures Shows(g, list, content, -g.rgroup, g.IMcuRows(), 0)
  {
    assert content[Base(g, 0, 0)] == 0;
    forall j | -g.rgroup <= j < g.IMcuRows() ensures 0 <= Entry(g, list, j) < |content|
        && content[Entry(g, list, j)] == Edge(g, j) {
      if j >= 0 { BaseInside(g, 0, j); }
    }
  }

  /** Inside the image: the rows above come from the other list's iMCU row. */
  lemma MiddleShows(g: Geom, list: seq<int>, content: seq<int>, w: nat, s: int)
    requires Wrapped(g, list, w) && Current(g, content, w, s) && Previous(g, content, w, s)
    requires g.IMcuRows() <= s && s + g.IMcuRows() <= g.height
    ensures Shows(g, list, content, -g.rgroup, g.IMcuRows(), s)
  {
    forall j | -g.rgroup <= j < g.IMcuRows() ensures 0 <= Entry(g, list, j) < |content|
        && content[Entry(g, list, j)] == Edge(g, j + s) {
      AboveOrHere(g, list, content, w, s, j);
    }
  }

  lemma AboveOrHere(g: Geom, list: seq<int>, content: seq<int>, w: nat, s: int, j: int)
    requires Wrapped(g, list, w) && Current(g, content, w, s) && Previous(g, content, w, s)
        && -g.rgroup <= j < g.IMcuRows()
    ensures 0 <= Entry(g, list, j) < |content| && content[Entry(g, list, j)] == s + j
  {
    var i := if j >= 0 then j else g.Workspace() + j;
    BaseInside(g, w, i);
    assert content[Base(g, w, i)] == s + j;
  }

  /** The image row shown at position j of a list. */
  function ShownAt(g: Geom, list: seq<int>, content: seq<int>, j: int): int {
    if |list| == g.ListLength() && -g.rgroup <= j < g.body + 5 * g.rgroup && 0 <= Entry(g, list, j) < |content|
    then content[Entry(g, list, j)] else -1
  }

  /** What a list shows of row group c and of the row groups above and below it. */
  function Around(g: Geom, list: seq<int>, content: seq<int>, c: int): (rows: seq<int>)
    ensures |rows| == 3 * g.rgroup
  {
    seq(3 * g.rgroup, j requires 0 <= j < 3 * g.rgroup => ShownAt(g, list, content, (c - 1) * g.rgroup + j))
  }

  /** The postponed row group: the last of one iMCU row, with the next iMCU row already read into
      list w.  The rows around it follow each other in the workspace. */
  lemma PostponedRow(g: Geom, list: seq<int>, content: seq<int>, w: nat, s: int, j: int)
    requires Wrapped(g, list, w) && Current(g, content, w, s) && Previous(g, content, w, s)
    requires g.IMcuRows() <= j < g.Workspace() + g.rgroup
    ensures ShownAt(g, list, content, j) == s + j - g.Workspace()
    ensures 0 <= Entry(g, list, j) < |content|
  {
    var i := if j < g.Workspace() then j else j - g.Workspace();
    BaseInside(g, w, i);
    assert content[Base(g, w, i)] == s + j - g.Workspace();
  }

  /** Beyond the real rows of the new iMCU row the postponed row group sees padding instead of the
      repeated last row: full context is there exactly when the new iMCU row has a whole row group. */
  lemma PostponedContext(g: Geom, list: seq<int>, content: seq<int>, w: nat, s: int)
    requires Wrapped(g, list, w) && Current(g, content, w, s) && Previous(g, content, w, s)
    requires g.IMcuRows() <= s < g.height
    ensures Shows(g, list, content, g.IMcuRows(), g.Workspace() + g.rgroup, s - g.Workspace())
        <==> s + g.rgroup <= g.height
  {
    forall j | g.IMcuRows() <= j < g.Workspace() + g.rgroup
      ensures 0 <= Entry(g, list, j) < |content| && content[Entry(g, list, j)] == s + j - g.Workspace()
    {
      PostponedRow(g, list, content, w, s, j);
    }
    hide Wrapped, Current, Previous;
    if s + g.rgroup > g.height {
      var j := g.Workspace() + (g.height - s);
      assert content[Entry(g, list, j)] == g.height;
      assert Edge(g, j + (s - g.Workspace())) == g.height - 1;
    }
  }

  /** Real rows of the last iMCU row, which starts at image row s. */
  function RowsLeft(g: Geom): (n: nat)
    ensures 1 <= n <= g.IMcuRows()
  {
    if g.height % g.IMcuRows() == 0 then g.IMcuRows() else g.height % g.IMcuRows()
  }

  /** set_bottom_pointers: behind the last real row, that row two row groups over. */
  ghost predicate BottomOf(g: Geom, list: seq<int>, before: seq<int>, left: nat) {
    && |list| == |before| == g.ListLength() && 1 <= left <= g.IMcuRows()
    && (forall j :: -g.rgroup <= j < left ==> Entry(g, list, j) == Entry(g, before, j))
    && (forall j :: left <= j < left + 2 * g.rgroup ==> Entry(g, list, j) == Entry(g, before, left - 1))
  }

  /** Bottom of the image, in an image of more than one iMCU row. */
  lemma BottomShows(g: Geom, list: seq<int>, before: seq<int>, content: seq<int>, w: nat, s: int, left: nat)
    requires Wrapped(g, before, w) && Current(g, content, w, s) && Previous(g, content, w, s)
    requires BottomOf(g, list, before, left) && s + left == g.height && g.IMcuRows() <= s
    ensures Shows(g, list, content, -g.rgroup, left + 2 * g.rgroup, s)
  {
    forall j | -g.rgroup <= j < left + 2 * g.rgroup
      ensures 0 <= Entry(g, list, j) < |content| && content[Entry(g, list, j)] == Edge(g, j + s)
    {
      AboveOrHere(g, before, content, w, s, if j < left then j else left - 1);
    }
  }

  /** Bottom of an image that is a single iMCU row. */
  lemma OnlyShows(g: Geom, list: seq<int>, before: seq<int>, content: seq<int>, left: nat)
    requires TopList(g, before) && Current(g, content, 0, 0) && BottomOf(g, list, before, left) && left == g.height
    ensures Shows(g, list, content, -g.rgroup, left + 2 * g.rgroup, 0)
  {
    assert content[Base(g, 0, 0)] == 0;
    forall j | -g.rgroup <= j < left + 2 * g.rgroup
      ensures 0 <= Entry(g, list, j) < |content| && content[Entry(g, list, j)] == Edge(g, j)
    {
      var i := if j < left then j else left - 1;
      if i >= 0 { BaseInside(g, 0, i); assert content[Base(g, 0, i)] == i; }
    }
  }

  // ---------------------------------------------------------------- the buffer object

  class RowBuffer {
    const g: Geom
    /** xbuffer[0] and xbuffer[1]. */
    var list0: seq<int>
    var list1: seq<int>
    /** Image row held by each workspace row. */
    var content: seq<int>

    ghost predicate Sized()
      reads this
    {
      |list0| == |list1| == g.ListLength() && |content| == g.Workspace()
    }

    function List(w: nat): seq<int>
      reads this
    {
      if w == 0 then list0 else list1
    }

    constructor (g: Geom)
      ensures Sized() && this.g == g
    {
      this.g := g;
      list0, list1 := seq(g.ListLength(), _ => 0), seq(g.ListLength(), _ => 0);
      content := seq(g.Workspace(), _ => 0);
    }

    /** make_funny_pointers. */
    method MakeFunnyPointers()
      requires Sized()
      modifies this`list0, this`list1
      ensures Sized() && TopList(g, list0) && IsBase(g, list1, 1, 0, g.Workspace())
    {
      var r := g.rgroup;
      var i := 0;
      while i < g.Workspace()
        invariant 0 <= i <= g.Workspace() && Sized()
        invariant forall p :: r <= p < r + i ==> list0[p] == list1[p] == p - r
      {
        list0 := list0[r + i := i];
        list1 := list1[r + i := i];
        i := i + 1;
      }
      SwapTail();
      i := 0;
      while i < r
        invariant 0 <= i <= r && Sized()
        invariant forall p :: r <= p < r + g.Workspace() ==> list0[p] == p - r && list1[p] == Base(g, 1, p - r)
        invariant forall p :: 0 <= p < i ==> list0[p] == 0
      {
        list0 := list0[i := list0[r]];
        i := i + 1;
      }
    }

    /** In the second list, the last four row groups are put in swapped order. */
    method SwapTail()
      requires Sized() && forall p :: g.rgroup <= p < g.rgroup + g.Workspace() ==> list1[p] == p - g.rgroup
      modifies this`list1
      ensures Sized() && forall p :: g.rgroup <= p < g.rgroup + g.Workspace() ==> list1[p] == Base(g, 1, p - g.rgroup)
    {
      var r := g.rgroup;
      var i := 0;
      while i < 2 * r
        invariant 0 <= i <= 2 * r && Sized()
        invariant forall p :: r <= p < r + g.body ==> list1[p] == p - r
        invariant forall p :: r + g.body <= p < r + g.body + i ==> list1[p] == p - r + 2 * r
        invariant forall p :: r + g.body + 2 * r <= p < r + g.body + 2 * r + i ==> list1[p] == p - r - 2 * r
      {
        list1 := list1[r + g.body + i := g.body + 2 * r + i];
        list1 := list1[r + g.body + 2 * r + i := g.body + i];
        i := i + 1;
      }
    }

    /** set_wraparound_pointers. */
    method SetWraparoundPointers()
      requires Sized()
      modifies this`list0, this`list1
      ensures Sized()
      ensures old(IsBase(g, list0, 0, 0, g.Workspace())) ==> Wrapped(g, list0, 0)
      ensures old(IsBase(g, list1, 1, 0, g.Workspace())) ==> Wrapped(g, list1, 1)
    {
      var new0 := WrapAround(list0, 0);
      var new1 := WrapAround(list1, 1);
      list0, list1 := new0, new1;
    }

    method WrapAround(list: seq<int>, ghost w: nat) returns (l: seq<int>)
      requires |list| == g.ListLength()
      ensures |l| == |list| && (IsBase(g, list, w, 0, g.Workspace()) ==> Wrapped(g, l, w))
    {
      hide Base, IsBase, Wrapped;
      var r, high := g.rgroup, g.body + 5 * g.rgroup;
      l := list;
      var i := 0;
      while i < r
        invariant 0 <= i <= r && |l| == g.ListLength() == high + r
        invariant forall p {:trigger l[p]} :: i <= p < high ==> l[p] == list[p]
        invariant forall p {:trigger l[p]} :: 0 <= p < i ==> l[p] == list[p + g.Workspace()]
        invariant forall p {:trigger l[p]} :: high <= p < high + i ==> l[p] == list[p - g.Workspace()]
      {
        l := l[i := l[r + g.body + 3 * r + i]];
        l := l[high + i := l[r + i]];
        i := i + 1;
      }
      if IsBase(g, list, w, 0, g.Workspace()) { IsWrapped(list, l, w); }
    }

    lemma IsWrapped(list: seq<int>, l: seq<int>, w: nat)
      requires IsBase(g, list, w, 0, g.Workspace()) && |l| == |list|
      requires forall p :: 0 <= p < g.rgroup ==> l[p] == list[p + g.Workspace()]
      requires forall p :: g.rgroup <= p < g.body + 5 * g.rgroup ==> l[p] == list[p]
      requires forall p :: g.body + 5 * g.rgroup <= p < |l| ==> l[p] == list[p - g.Workspace()]
      ensures Wrapped(g, l, w)
    {
      hide Base;
      forall j | -g.rgroup <= j < 0 ensures Entry(g, l, j) == Base(g, w, g.Workspace() + j) {
        assert Entry(g, list, g.Workspace() + j) == Base(g, w, g.Workspace() + j);
      }
      forall j | g.Workspace() <= j < g.Workspace() + g.rgroup ensures Entry(g, l, j) == Base(g, w, j - g.Workspace()) {
        assert Entry(g, list, j - g.Workspace()) == Base(g, w, j - g.Workspace());
      }
      forall j | 0 <= j < g.Workspace() ensures Entry(g, l, j) == Base(g, w, j) {
        assert Entry(g, list, j) == Base(g, w, j);
      }
    }

    /** set_bottom_pointers for list w. */
    method SetBottomPointers(w: nat)
      requires Sized() && w < 2
      modifies this`list0, this`list1
      ensures Sized() && BottomOf(g, List(w), old(List(w)), RowsLeft(g)) && List(1 - w) == old(List(1 - w))
    {
      var left := RowsLeft(g);
      var r := g.rgroup;
      var list := List(w);
      ghost var before := list;
      var i := 0;
      while i < 2 * r
        invariant 0 <= i <= 2 * r && |list| == g.ListLength()
        invariant forall p :: 0 <= p < r + left ==> list[p] == before[p]
        invariant forall p :: r + left <= p < r + left + i ==> list[p] == before[r + left - 1]
      {
        list := list[r + left + i := list[r + left - 1]];
        i := i + 1;
      }
      if w == 0 { list0 := list; } else { list1 := list; }
    }

    /** The decoder delivers an iMCU row, starting at image row s, through list w. */
    method Deliver(w: nat, s: int)
      requires Sized() && w < 2 && IsBase(g, List(w), w, 0, g.IMcuRows())
      modifies this`content
      ensures Sized() && Current(g, content, w, s)
      ensures old(Current(g, content, 1 - w, s - g.IMcuRows())) ==> Previous(g, content, w, s)
    {
      ghost var before := content;
      var i := 0;
      while i < g.IMcuRows()
        invariant 0 <= i <= g.IMcuRows() && |content| == g.Workspace()
        invariant forall j :: 0 <= j < i ==> content[Base(g, w, j)] == s + j
        invariant forall j :: g.IMcuRows() <= j < g.Workspace() ==> content[Base(g, w, j)] == before[Base(g, w, j)]
      {
        content := content[Base(g, w, i) := s + i];
        i := i + 1;
      }
      if Current(g, before, 1 - w, s - g.IMcuRows()) {
        forall j | g.IMcuRows() <= j < g.Workspace() ensures content[Base(g, w, j)] == s + j - g.Workspace() {
          assert Base(g, w, j) == Base(g, 1 - w, j - 2 * g.rgroup);
        }
      }
    }
  }
}
