/** Finding markers, and resynchronising when a restart marker is not where it should be. */
module Markers {
  import opened Bits
  import opened BitStream
  import opened BitReader

  const M_SOF0: byte := 0xC0
  const M_RST0: byte := 0xD0
  const M_RST7: byte := 0xD7

  // ---------------------------------------------------------------- scanning for a marker

  /** Where a scan stands: a marker was found, or input ran out with pos and discarded saved
      for the next attempt. */
  datatype Scan = Found(code: byte, pos: nat) | Stuck(pos: nat, discarded: nat)

  /** next_marker from a synchronised position. */
  function NextMarker(data: seq<byte>, pos: nat, discarded: nat): (r: Scan)
    ensures r.Found? ==> r.code != 0 && pos < r.pos <= |data|
    ensures r.Stuck? ==> pos <= r.pos && (pos <= |data| ==> r.pos <= |data|)
    decreases |data| - pos
  {
    if pos >= |data| then Stuck(pos, discarded)
    else if data[pos] != 0xFF then NextMarker(data, pos + 1, discarded + 1)
    else
      match AfterFF(data, pos + 1)
      case Starved => Stuck(pos, discarded)
      case Datum(_, next) => NextMarker(data, next, discarded + 2)
      case Mark(c, next) => Found(c, next)
  }

  /** A scan that ran out of input resumes where it stopped and loses nothing, the count of
      discarded bytes included. */
  lemma {:induction false} NextMarkerResumes(data: seq<byte>, more: seq<byte>, pos: nat, discarded: nat)
    ensures match NextMarker(data, pos, discarded)
      case Found(_, _) => NextMarker(data + more, pos, discarded) == NextMarker(data, pos, discarded)
      case Stuck(p, d) => NextMarker(data + more, pos, discarded) == NextMarker(data + more, p, d)
    decreases |data| - pos
  {
    if pos < |data| {
      if data[pos] != 0xFF {
        NextMarkerResumes(data, more, pos + 1, discarded + 1);
      } else {
        AfterFFStable(data, more, pos + 1);
        if AfterFF(data, pos + 1).Datum? {
          NextMarkerResumes(data, more, AfterFF(data, pos + 1).next, discarded + 2);
        }
      }
    }
  }

  // ---------------------------------------------------------------- recovery

  /** What to do about marker when restart number desired was due:
      1 discard it, 2 scan on to the next marker, 3 leave it pending. */
  function Action(marker: byte, desired: nat): (a: nat)
    requires desired < 8
    ensures 1 <= a <= 3
  {
    if marker < M_SOF0 then 2
    else if marker < M_RST0 || marker > M_RST7 then 3
    else if marker == M_RST0 + (desired + 1) % 8 || marker == M_RST0 + (desired + 2) % 8 then 3
    else if marker == M_RST0 + (desired + 7) % 8 || marker == M_RST0 + (desired + 6) % 8 then 2
    else 1
  }

  /** Marker-reader state: position, discarded-byte count and pending marker (0 = none). */
  datatype Point = Point(pos: nat, discarded: nat, marker: byte)

  /** Resynchronisation either finishes or stops for lack of input at a point. */
  datatype Sync = Sync(at: Point, ok: bool)

  /** jpeg_resync_to_restart. */
  function Resync(data: seq<byte>, p: Point, desired: nat): (r: Sync)
    requires desired < 8 && p.marker != 0
    ensures p.pos <= r.at.pos && (p.pos <= |data| ==> r.at.pos <= |data|)
    ensures !r.ok ==> r.at.marker != 0 && Action(r.at.marker, desired) == 2
    decreases if p.pos <= |data| then |data| - p.pos else 0
  {
    match Action(p.marker, desired)
    case 1 => Sync(p.(marker := 0), true)
    case 3 => Sync(p, true)
    case _ =>
      match NextMarker(data, p.pos, p.discarded)
      case Stuck(pos, d) => Sync(Point(pos, d, p.marker), false)
      case Found(code, pos) => Resync(data, Point(pos, 0, code), desired)
  }

  lemma {:induction false} ResyncResumes(data: seq<byte>, more: seq<byte>, p: Point, desired: nat)
    requires desired < 8 && p.marker != 0
    ensures var r := Resync(data, p, desired);
      if r.ok then Resync(data + more, p, desired) == r
      else Resync(data + more, p, desired) == Resync(data + more, r.at, desired)
    decreases if p.pos <= |data| then |data| - p.pos else 0
  {
    if Action(p.marker, desired) == 2 {
      NextMarkerResumes(data, more, p.pos, p.discarded);
      var s := NextMarker(data, p.pos, p.discarded);
      if s.Found? {
        ResyncResumes(data, more, Point(s.pos, 0, s.code), desired);
      }
    }
  }

  /** read_restart_marker, up to the update of the expected number. */
  function ReadRestart(data: seq<byte>, p: Point, desired: nat): (r: Sync)
    requires desired < 8
    ensures p.pos <= r.at.pos && (p.pos <= |data| ==> r.at.pos <= |data|)
  {
    if p.marker == 0 then
      match NextMarker(data, p.pos, p.discarded)
      case Stuck(pos, d) => Sync(Point(pos, d, 0), false)
      case Found(code, pos) => Judge(data, Point(pos, 0, code), desired)
    else Judge(data, p, desired)
  }

  function Judge(data: seq<byte>, p: Point, desired: nat): (r: Sync)
    requires desired < 8 && p.marker != 0
    ensures p.pos <= r.at.pos && (p.pos <= |data| ==> r.at.pos <= |data|)
  {
    if p.marker == M_RST0 + desired then Sync(p.(marker := 0), true) else Resync(data, p, desired)
  }

  /** Suspending at any point of the search for a restart marker and trying again later gives
      what one uninterrupted search would have given. */
  lemma ReadRestartResumes(data: seq<byte>, more: seq<byte>, p: Point, desired: nat)
    requires desired < 8
    ensures var r := ReadRestart(data, p, desired);
      if r.ok then ReadRestart(data + more, p, desired) == r
      else ReadRestart(data + more, p, desired) == ReadRestart(data + more, r.at, desired)
  {
    if p.marker == 0 {
      NextMarkerResumes(data, more, p.pos, p.discarded);
      var s := NextMarker(data, p.pos, p.discarded);
      if s.Found? {
        JudgeResumes(data, more, Point(s.pos, 0, s.code), desired);
      }
    } else {
      JudgeResumes(data, more, p, desired);
    }
  }

  lemma JudgeResumes(data: seq<byte>, more: seq<byte>, p: Point, desired: nat)
    requires desired < 8 && p.marker != 0
    ensures var r := Judge(data, p, desired);
      if r.ok then Judge(data + more, p, desired) == r
      else r.at.marker != 0 && Judge(data + more, p, desired) == Judge(data + more, r.at, desired)
  {
    if p.marker != M_RST0 + desired {
      ResyncResumes(data, more, p, desired);
    }
  }

  // ---------------------------------------------------------------- what is found

  /** Byte k ends a marker: FF stands before it, and it is neither a stuffed zero nor another FF. */
  predicate EndsMarker(data: seq<byte>, k: nat) {
    0 < k < |data| && data[k - 1] == 0xFF && data[k] != 0 && data[k] != 0xFF
  }

  /** The scan finds the first marker that begins at or after its start, and stops right behind it; it runs out
      of input exactly when there is none. */
  lemma {:induction false} NextMarkerIsFirst(data: seq<byte>, pos: nat, discarded: nat)
    ensures match NextMarker(data, pos, discarded)
      case Found(code, next) =>
        && EndsMarker(data, next - 1) && pos < next - 1 && code == data[next - 1]
        && forall k :: pos < k < next - 1 ==> !EndsMarker(data, k)
      case Stuck(_, _) => forall k :: pos < k ==> !EndsMarker(data, k)
    decreases |data| - pos
  {
    if pos < |data| {
      if data[pos] != 0xFF {
        NextMarkerIsFirst(data, pos + 1, discarded + 1);
      } else {
        AfterRun(data, pos + 1);
        if AfterFF(data, pos + 1).Datum? {
          NextMarkerIsFirst(data, AfterFF(data, pos + 1).next, discarded + 2);
        }
      }
    }
  }

  /** Behind an FF, the bytes up to the one that decides are FFs. */
  lemma {:induction false} AfterRun(data: seq<byte>, pos: nat)
    requires 0 < pos <= |data| && data[pos - 1] == 0xFF
    ensures match AfterFF(data, pos)
      case Starved => forall k :: pos <= k ==> !EndsMarker(data, k)
      case Datum(_, next) =>
        pos < next <= |data| && data[next - 1] == 0 && forall k :: pos <= k < next ==> !EndsMarker(data, k)
      case Mark(c, next) =>
        && pos < next <= |data| && EndsMarker(data, next - 1) && c == data[next - 1]
        && forall k :: pos <= k < next - 1 ==> !EndsMarker(data, k)
    decreases |data| - pos
  {
    if pos < |data| && data[pos] == 0xFF { AfterRun(data, pos + 1); }
  }

  // ---------------------------------------------------------------- where recovery stops

  /** A marker code and the position behind it. */
  datatype Sighting = Sighting(code: byte, next: nat)

  /** The markers found one after the other from pos on. */
  function Sightings(data: seq<byte>, pos: nat): (s: seq<Sighting>)
    ensures forall i :: 0 <= i < |s| ==> pos < s[i].next && s[i].code != 0
    ensures forall i, j :: 0 <= i < j < |s| ==> s[i].next < s[j].next
    decreases |data| - pos
  {
    match NextMarker(data, pos, 0)
    case Stuck(_, _) => []
    case Found(code, next) => [Sighting(code, next)] + Sightings(data, next)
  }

  /** A restart, so many counts after the one due. */
  predicate RestartAhead(m: byte, desired: nat, gap: nat) {
    0xD0 <= m <= 0xD7 && (m - 0xD0 - desired) % 8 == gap
  }

  /** Taken to be out of order or noise: an earlier code, or the restart one or two before the one due. */
  predicate Stale(m: byte, desired: nat) {
    m < 0xC0 || RestartAhead(m, desired, 6) || RestartAhead(m, desired, 7)
  }

  /** Taken to belong to what follows the missing restart: a marker of another kind, or one of the next two
      restarts. */
  predicate Later(m: byte, desired: nat) {
    0xC0 <= m < 0xD0 || m > 0xD7 || RestartAhead(m, desired, 1) || RestartAhead(m, desired, 2)
  }

  /** Taken for the restart due: that one, or one too far from it to tell in which direction. */
  predicate TakenAsDue(m: byte, desired: nat) {
    RestartAhead(m, desired, 0) || RestartAhead(m, desired, 3) || RestartAhead(m, desired, 4)
        || RestartAhead(m, desired, 5)
  }

  lemma Sorted(m: byte, desired: nat)
    requires desired < 8
    ensures Stale(m, desired) <==> Action(m, desired) == 2
    ensures Later(m, desired) <==> Action(m, desired) == 3
    ensures TakenAsDue(m, desired) <==> Action(m, desired) == 1
  {
    if 0xD0 <= m <= 0xD7 {
      Modulo8(m - 0xD0, desired, 1);
      Modulo8(m - 0xD0, desired, 2);
      Modulo8(m - 0xD0, desired, 6);
      Modulo8(m - 0xD0, desired, 7);
    }
  }

  lemma Modulo8(n: nat, desired: nat, gap: nat)
    requires n < 8 && desired < 8 && gap < 8
    ensures (n - desired) % 8 == gap <==> n == (desired + gap) % 8
  {
  }

  ghost predicate AllStale(all: seq<Sighting>, desired: nat) {
    forall k :: 0 <= k < |all| ==> Stale(all[k].code, desired)
  }

  /** Sighting i is the first that is not stale. */
  ghost predicate StopsAt(all: seq<Sighting>, i: int, desired: nat) {
    0 <= i < |all| && !Stale(all[i].code, desired) && AllStale(all[..i], desired)
  }

  /** The search stopped behind this marker, which stays pending if it belongs to what follows. */
  ghost predicate StoppedBehind(r: Sync, x: Sighting, desired: nat) {
    r.ok && r.at.pos == x.next && r.at.marker == if Later(x.code, desired) then x.code else 0
  }

  /** The search passes the stale markers and stops behind the first that is not. Without one it waits for more
      input, the last marker seen pending. */
  ghost predicate SearchOutcome(r: Sync, all: seq<Sighting>, desired: nat) {
    if r.ok then exists i :: StopsAt(all, i, desired) && StoppedBehind(r, all[i], desired)
    else AllStale(all, desired) && r.at.marker == if all == [] then 0 else all[|all| - 1].code
  }

  lemma FirstIsFresh(r: Sync, x: Sighting, rest: seq<Sighting>, desired: nat)
    requires !Stale(x.code, desired) && StoppedBehind(r, x, desired)
    ensures SearchOutcome(r, [x] + rest, desired)
  {
    assert r.ok;
    hide Stale, StoppedBehind;
    var all := [x] + rest;
    assert StopsAt(all, 0, desired) && StoppedBehind(r, all[0], desired);
  }

  lemma StaleFirst(x: Sighting, rest: seq<Sighting>, desired: nat)
    requires Stale(x.code, desired) && AllStale(rest, desired)
    ensures AllStale([x] + rest, desired)
  {
  }

  lemma FirstIsStale(r: Sync, x: Sighting, rest: seq<Sighting>, desired: nat)
    requires SearchOutcome(r, rest, desired) && rest != [] && Stale(x.code, desired)
    ensures SearchOutcome(r, [x] + rest, desired)
  {
    hide Stale, AllStale, StoppedBehind;
    var all := [x] + rest;
    if r.ok {
      var i :| StopsAt(rest, i, desired) && StoppedBehind(r, rest[i], desired);
      StaleFirst(x, rest[..i], desired);
      assert all[..i + 1] == [x] + rest[..i] && all[i + 1] == rest[i];
      assert StopsAt(all, i + 1, desired);
    } else {
      StaleFirst(x, rest, desired);
    }
  }

  lemma DiscardsDoNotMatter(data: seq<byte>, pos: nat, d: nat, e: nat)
    ensures var (a, b) := (NextMarker(data, pos, d), NextMarker(data, pos, e));
      if a.Found? then a == b else b.Stuck?
  {
    NextMarkerIsFirst(data, pos, d);
    NextMarkerIsFirst(data, pos, e);
    hide EndsMarker;
  }

  /** The stopping place is unique, because the markers lie one behind the other. */
  lemma OutcomeAt(r: Sync, all: seq<Sighting>, desired: nat, i: nat)
    requires SearchOutcome(r, all, desired) && i < |all| && desired < 8
    requires forall i, j :: 0 <= i < j < |all| ==> all[i].next < all[j].next
    requires forall i :: 0 <= i < |all| ==> all[i].code != 0
    ensures r.ok && r.at.pos == all[i].next <==> StopsAt(all, i, desired)
    ensures StopsAt(all, i, desired) ==>
        && (r.at.marker == all[i].code <==> Later(all[i].code, desired))
        && (r.at.marker == 0 <==> TakenAsDue(all[i].code, desired))
    ensures !r.ok <==> AllStale(all, desired)
  {
    Sorted(all[i].code, desired);
    hide Stale, Later, TakenAsDue;
    if r.ok {
      var k :| StopsAt(all, k, desired) && StoppedBehind(r, all[k], desired);
      OneStop(all, i, k, desired);
    }
  }

  lemma OneStop(all: seq<Sighting>, i: int, k: int, desired: nat)
    requires StopsAt(all, k, desired)
    ensures StopsAt(all, i, desired) <==> i == k
    ensures !AllStale(all, desired)
  {
    hide Stale;
    if StopsAt(all, i, desired) && i != k {
      var (first, last) := if i < k then (i, k) else (k, i);
      StaleBefore(all, last, desired, first);
      assert false;
    }
  }

  lemma StaleBefore(all: seq<Sighting>, k: int, desired: nat, i: int)
    requires StopsAt(all, k, desired) && 0 <= i < k
    ensures Stale(all[i].code, desired)
  {
    hide Stale;
    assert all[..k][i] == all[i];
  }

  /** All that recovery gets to see: the pending marker, if there is one, and the markers behind it. */
  function Seen(data: seq<byte>, p: Point): seq<Sighting> {
    (if p.marker == 0 then [] else [Sighting(p.marker, p.pos)]) + Sightings(data, p.pos)
  }

  lemma {:induction false} ResyncOutcome(data: seq<byte>, p: Point, desired: nat)
    requires desired < 8 && p.marker != 0
    ensures SearchOutcome(Resync(data, p, desired), Seen(data, p), desired)
    decreases if p.pos <= |data| then |data| - p.pos else 0
  {
    var x, rest, r := Sighting(p.marker, p.pos), Sightings(data, p.pos), Resync(data, p, desired);
    Sorted(p.marker, desired);
    hide Stale, Later, TakenAsDue, SearchOutcome;
    if Stale(p.marker, desired) {
      DiscardsDoNotMatter(data, p.pos, p.discarded, 0);
      match NextMarker(data, p.pos, p.discarded)
      case Stuck(pos, d) =>
        OneStale(r, x, desired);
      case Found(code, pos) =>
        ResyncOutcome(data, Point(pos, 0, code), desired);
        FirstIsStale(r, x, rest, desired);
    } else {
      FirstIsFresh(r, x, rest, desired);
    }
  }

  lemma OneStale(r: Sync, x: Sighting, desired: nat)
    requires Stale(x.code, desired) && !r.ok && r.at.marker == x.code
    ensures SearchOutcome(r, [x], desired)
  {
    hide Stale;
  }

  lemma JudgeOutcome(data: seq<byte>, p: Point, desired: nat)
    requires desired < 8 && p.marker != 0
    ensures SearchOutcome(Judge(data, p, desired), Seen(data, p), desired)
  {
    ResyncOutcome(data, p, desired);
    hide SearchOutcome, Seen;
    if p.marker == M_RST0 + desired { Sorted(p.marker, desired); }
  }

  lemma ReadRestartOutcome(data: seq<byte>, p: Point, desired: nat)
    requires desired < 8
    ensures SearchOutcome(ReadRestart(data, p, desired), Seen(data, p), desired)
  {
    hide SearchOutcome, Judge;
    if p.marker != 0 {
      JudgeOutcome(data, p, desired);
    } else {
      DiscardsDoNotMatter(data, p.pos, p.discarded, 0);
      match NextMarker(data, p.pos, p.discarded)
      case Stuck(pos, d) =>
        NoneSeen(ReadRestart(data, p, desired), desired);
        assert Seen(data, p) == [];
      case Found(code, pos) =>
        JudgeOutcome(data, Point(pos, 0, code), desired);
        assert Seen(data, p) == Seen(data, Point(pos, 0, code));
    }
  }

  lemma NoneSeen(r: Sync, desired: nat)
    requires !r.ok && r.at.marker == 0
    ensures SearchOutcome(r, [], desired)
  {
  }

  /** Where the search for the restart due ends, said of the markers alone: right behind marker i exactly when
      all before it are earlier codes or restarts one or two behind and it is not. It is left pending exactly
      when it is no restart or one of the next two, and swallowed exactly when it is the restart due or one three
      to five away. The search goes on with the next delivery exactly when all are stale. */
  lemma RestartFound(data: seq<byte>, p: Point, desired: nat, i: nat)
    requires desired < 8 && i < |Seen(data, p)|
    ensures var r, all := ReadRestart(data, p, desired), Seen(data, p);
      && (r.ok && r.at.pos == all[i].next <==> StopsAt(all, i, desired))
      && (StopsAt(all, i, desired) ==>
            && (r.at.marker == all[i].code <==> Later(all[i].code, desired))
            && (r.at.marker == 0 <==> TakenAsDue(all[i].code, desired)))
      && (!r.ok <==> AllStale(all, desired))
  {
    ReadRestartOutcome(data, p, desired);
    OutcomeAt(ReadRestart(data, p, desired), Seen(data, p), desired, i);
  }

  // ---------------------------------------------------------------- the code

  function PointOf(c: Decompressor): Point
    reads c
  {
    Point(c.srcPos, c.discardedBytes, c.unreadMarker)
  }

  /** next_marker; false means suspension with the pending marker untouched. */
  method FindNextMarker(c: Decompressor) returns (ok: bool)
    modifies c`srcPos, c`discardedBytes, c`unreadMarker
    ensures match NextMarker(c.data, old(c.srcPos), old(c.discardedBytes))
      case Found(code, pos) => ok && PointOf(c) == Point(pos, 0, code)
      case Stuck(pos, d) => !ok && PointOf(c) == Point(pos, d, old(c.unreadMarker))
  {
    ghost var goal := NextMarker(c.data, c.srcPos, c.discardedBytes);
    while true
      invariant c.unreadMarker == old(c.unreadMarker)
      invariant NextMarker(c.data, c.srcPos, c.discardedBytes) == goal
      decreases |c.data| - c.srcPos
    {
      if c.srcPos >= |c.data| {
        return false;
      }
      if c.data[c.srcPos] != 0xFF {
        c.discardedBytes := c.discardedBytes + 1;
        c.srcPos := c.srcPos + 1;
      } else {
        var pos := c.srcPos + 1;
        var b: byte := 0xFF;
        while b == 0xFF
          invariant c.srcPos < pos
          invariant if b == 0xFF then AfterFF(c.data, pos) == AfterFF(c.data, c.srcPos + 1)
                    else AfterFF(c.data, c.srcPos + 1) == if b == 0 then Datum(0xFF, pos) else Mark(b, pos)
          decreases |c.data| - pos, if b == 0xFF then 1 else 0
        {
          if pos >= |c.data| {
            return false;
          }
          b := c.data[pos];
          pos := pos + 1;
        }
        if b != 0 {
          if c.discardedBytes != 0 {
            c.discardedBytes := 0;
          }
          c.unreadMarker := b;
          c.srcPos := pos;
          return true;
        }
        c.discardedBytes := c.discardedBytes + 2;
        c.srcPos := pos;
      }
    }
  }

  /** jpeg_resync_to_restart. */
  method ResyncToRestart(c: Decompressor, desired: nat) returns (ok: bool)
    requires desired < 8 && c.unreadMarker != 0
    modifies c`srcPos, c`discardedBytes, c`unreadMarker
    ensures Sync(PointOf(c), ok) == Resync(c.data, old(PointOf(c)), desired)
  {
    ghost var goal := Resync(c.data, PointOf(c), desired);
    while true
      invariant c.unreadMarker != 0 && Resync(c.data, PointOf(c), desired) == goal
      decreases |c.data| - c.srcPos
    {
      var action := Action(c.unreadMarker, desired);
      if action == 1 {
        c.unreadMarker := 0;
        return true;
      } else if action == 3 {
        return true;
      }
      ok := FindNextMarker(c);
      if !ok { return; }
    }
  }

  /** read_restart_marker. */
  method ReadRestartMarker(c: Decompressor) returns (ok: bool)
    requires c.nextRestartNum < 8
    modifies c`srcPos, c`discardedBytes, c`unreadMarker, c`nextRestartNum
    ensures Sync(PointOf(c), ok) == ReadRestart(c.data, old(PointOf(c)), old(c.nextRestartNum))
    ensures c.nextRestartNum == if ok then (old(c.nextRestartNum) + 1) % 8 else old(c.nextRestartNum)
  {
    if c.unreadMarker == 0 {
      ok := FindNextMarker(c);
      if !ok { return; }
    }
    if c.unreadMarker == M_RST0 + c.nextRestartNum {
      c.unreadMarker := 0;
    } else {
      ok := ResyncToRestart(c, c.nextRestartNum);
      if !ok { return; }
    }
    c.nextRestartNum := (c.nextRestartNum + 1) % 8;
    ok := true;
  }
}
