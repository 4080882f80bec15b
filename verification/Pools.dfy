/** The pool allocator: live objects never overlap, are aligned, and every byte obtained from the
    system is accounted for until it is given back. */
module Pools {
  import opened Wrappers

  const ALIGN := 8
  /** Size of a pool header: a pointer and two counts, rounded up to the alignment. */
  const HDR := 16
  const MAX_ALLOC_CHUNK := 1000000000
  const MIN_SLOP := 50
  const POOL_PERMANENT := 0
  const POOL_IMAGE := 1

  function FirstSlop(id: nat): nat { if id == POOL_PERMANENT then 1600 else 16000 }

  function ExtraSlop(id: nat): nat { if id == POOL_PERMANENT then 0 else 5000 }

  predicate Disjoint(a: int, alen: int, b: int, blen: int) {
    a + alen <= b || b + blen <= a
  }

  /** Aligned blocks that do not overlap. */
  ghost predicate Separate(held: map<nat, nat>) {
    && (forall a :: a in held ==> a % ALIGN == 0 && held[a] > 0)
    && (forall a, b :: a in held && b in held && a != b ==> Disjoint(a, held[a], b, held[b]))
  }

  /** The system's allocator, any at all: it may refuse, and otherwise returns an aligned block that
      overlaps none it has given out and not taken back. */
  class System {
    var held: map<nat, nat>

    ghost predicate Valid()
      reads this
    {
      Separate(held)
    }

    constructor ()
      ensures Valid() && held == map[]
    {
      held := map[];
    }

    /** jpeg_get_small. */
    method Get(size: nat) returns (a: Option<nat>)
      requires Valid() && size > 0
      modifies this
      ensures Valid()
      ensures a.None? ==> held == old(held)
      ensures a.Some? ==> a.value !in old(held) && held == old(held)[a.value := size]
      ensures a.Some? ==> forall b :: b in old(held) ==> Disjoint(a.value, size, b, old(held)[b])
    {
      if * {
        a := None;
      } else {
        ghost var t := Beyond(held);
        assert t % ALIGN == 0 && forall b :: b in held ==> Disjoint(t, size, b, held[b]);
        var p: nat :| p % ALIGN == 0 && forall b :: b in held ==> Disjoint(p, size, b, held[b]);
        assert p in held ==> !Disjoint(p, size, p, held[p]);
        a := Some(p);
        held := held[p := size];
      }
    }

    /** jpeg_free_small: only a block given out, with its exact size. */
    method Free(a: nat, size: nat)
      requires Valid() && a in held && held[a] == size
      modifies this
      ensures Valid() && held == old(held) - {a}
    {
      held := held - {a};
    }
  }

  /** An address beyond every block. */
  lemma {:induction false} Beyond(held: map<nat, nat>) returns (t: nat)
    ensures t % ALIGN == 0 && forall b :: b in held ==> b + held[b] <= t
    decreases |held|
  {
    if held == map[] {
      t := 0;
    } else {
      var b: nat :| b in held;
      var rest := held - {b};
      assert |rest.Keys| < |held.Keys| by { assert rest.Keys == held.Keys - {b}; }
      var u := Beyond(rest);
      t := u + (b + held[b]) * ALIGN;
      assert forall c :: c in held && c != b ==> c in rest && rest[c] == held[c];
    }
  }

  /** A pool header; kind says which of the four lists the pool is on. */
  datatype Header = Header(used: nat, left: nat, kind: nat)

  datatype Object = Object(start: nat, size: nat, pool: nat)

  function PoolSize(h: Header): nat {
    HDR + h.used + h.left
  }

  predicate AllIn(list: seq<nat>, headers: map<nat, Header>) {
    forall k :: 0 <= k < |list| ==> list[k] in headers
  }

  /** Bytes held by the pools of a list. */
  function Bytes(list: seq<nat>, headers: map<nat, Header>): nat
    requires AllIn(list, headers)
  {
    assert forall k :: 0 <= k < |list| - 1 ==> list[1..][k] == list[k + 1];
    if list == [] then 0 else PoolSize(headers[list[0]]) + Bytes(list[1..], headers)
  }

  lemma {:induction false} BytesSame(list: seq<nat>, h: map<nat, Header>, g: map<nat, Header>)
    requires AllIn(list, h) && AllIn(list, g)
    requires forall k :: 0 <= k < |list| ==> PoolSize(h[list[k]]) == PoolSize(g[list[k]])
    ensures Bytes(list, h) == Bytes(list, g)
  {
    if list != [] {
      assert forall k :: 0 <= k < |list| - 1 ==> list[1..][k] == list[k + 1];
      BytesSame(list[1..], h, g);
    }
  }

  lemma {:induction false} BytesAppend(list: seq<nat>, a: nat, h: map<nat, Header>)
    requires AllIn(list, h) && a in h
    ensures AllIn(list + [a], h) && Bytes(list + [a], h) == Bytes(list, h) + PoolSize(h[a])
  {
    if list == [] {
      assert list + [a] == [a] && [a][1..] == [];
    } else {
      assert (list + [a])[1..] == list[1..] + [a];
      BytesAppend(list[1..], a, h);
    }
  }

  /** The four lists: small permanent, small image, large permanent, large image. */
  type Lists = l: seq<seq<nat>> | |l| == 4 witness [[], [], [], []]

  ghost predicate NoRepeats(list: seq<nat>) {
    forall j, k :: 0 <= j < k < |list| ==> list[j] != list[k]
  }

  /** Lists and headers agree: each pool is on exactly the list of its kind, once. */
  ghost predicate Linked(lists: Lists, headers: map<nat, Header>) {
    && (forall a :: a in headers ==> headers[a].kind < 4 && a in lists[headers[a].kind])
    && (forall i, a :: 0 <= i < 4 && a in lists[i] ==> a in headers && headers[a].kind == i)
    && (forall i :: 0 <= i < 4 ==> NoRepeats(lists[i]))
  }

  ghost predicate AllListsIn(lists: Lists, headers: map<nat, Header>) {
    AllIn(lists[0], headers) && AllIn(lists[1], headers) && AllIn(lists[2], headers) && AllIn(lists[3], headers)
  }

  ghost function AllBytes(lists: Lists, headers: map<nat, Header>): nat
    requires AllListsIn(lists, headers)
  {
    Bytes(lists[0], headers) + Bytes(lists[1], headers) + Bytes(lists[2], headers) + Bytes(lists[3], headers)
  }

  /** The system's blocks are the manager's own and the pools, with their exact sizes. */
  ghost predicate Accounted(held: map<nat, nat>, manager: nat, managerSize: nat, headers: map<nat, Header>) {
    && manager in held && held[manager] == managerSize && manager !in headers
    && (forall a :: a in held && a != manager ==> a in headers)
    && (forall a :: a in headers ==> a in held && held[a] == PoolSize(headers[a]) && headers[a].used % ALIGN == 0)
  }

  /** A live object lies in the used part of its pool, aligned. */
  ghost predicate Placed(o: Object, headers: map<nat, Header>) {
    && o.pool in headers && o.start % ALIGN == 0
    && o.pool + HDR <= o.start && o.start + o.size <= o.pool + HDR + headers[o.pool].used
  }

  ghost predicate NoOverlap(objects: set<Object>) {
    forall o, p :: o in objects && p in objects && o != p ==> Disjoint(o.start, o.size, p.start, p.size)
  }

  /** The lifetime class of a pool: small and large lists of one lifetime are two apart. */
  function Lifetime(h: Header): nat {
    h.kind % 2
  }

  /** Objects come to the live ones with o: aligned, large enough, apart from every one of them and,
      unless no byte was asked for, not one of them. */
  ghost predicate Adds(before: set<Object>, after: set<Object>, o: Object, at: nat, size: nat) {
    && after == before + {o} && o.start == at && at % ALIGN == 0 && size <= o.size < size + ALIGN
    && (forall p :: p in before ==> Disjoint(o.start, o.size, p.start, p.size))
    && (size > 0 ==> o !in before)
  }

  /** Pools already there keep their lifetimes. */
  ghost predicate KeepsPools(before: map<nat, Header>, after: map<nat, Header>) {
    forall a :: a in before ==> a in after && after[a].kind == before[a].kind
  }

  /** The allocator's promise: an object was added, in a pool of list kind. */
  ghost predicate AddedTo(before: set<Object>, after: set<Object>, headers: map<nat, Header>, kind: int, at: nat,
      size: nat) {
    exists o :: Adds(before, after, o, at, size) && o.pool in headers && headers[o.pool].kind == kind
  }

  /** A pool of small objects has room for size bytes. */
  ghost predicate HasRoom(list: seq<nat>, headers: map<nat, Header>, size: nat) {
    exists a :: a in list && a in headers && headers[a].left >= size
  }

  function RoundUp(size: nat): (r: nat)
    ensures r >= size && r % ALIGN == 0 && r < size + ALIGN
  {
    if size % ALIGN > 0 then size + (ALIGN - size % ALIGN) else size
  }

  datatype Outcome = Allocated(at: nat) | OutOfMemory | BadPoolId

  class MemoryManager {
    const sys: System
    const manager: nat
    const managerSize: nat
    var lists: Lists
    var headers: map<nat, Header>
    var totalSpace: int
    ghost var objects: set<Object>

    ghost predicate Books()
      reads this, sys
    {
      && sys.Valid() && Accounted(sys.held, manager, managerSize, headers)
      && Linked(lists, headers) && AllListsIn(lists, headers)
      && totalSpace == managerSize + AllBytes(lists, headers)
    }

    ghost predicate Valid()
      reads this, sys
    {
      Books() && (forall o :: o in objects ==> Placed(o, headers)) && NoOverlap(objects)
    }

    /** jinit_memory_mgr, once it has obtained its control block. */
    constructor (sys: System, manager: nat, managerSize: nat)
      requires sys.Valid() && sys.held == map[manager := managerSize]
      ensures Valid() && objects == {} && totalSpace == managerSize && this.sys == sys
          && this.managerSize == managerSize
    {
      this.sys, this.manager, this.managerSize := sys, manager, managerSize;
      lists := [[], [], [], []];
      headers := map[];
      totalSpace := managerSize;
      objects := {};
    }

    /** Adds a new pool at the given end of list kind. */
    method AddPool(kind: nat, used: nat, left: nat, atEnd: bool) returns (a: Option<nat>)
      requires Valid() && kind < 4 && used % ALIGN == 0
      modifies this`lists, this`headers, this`totalSpace, sys
      ensures Valid()
      ensures a.None? ==> headers == old(headers) && lists == old(lists) && totalSpace == old(totalSpace)
      ensures a.Some? ==> a.value !in old(headers) && headers == old(headers)[a.value := Header(used, left, kind)]
      ensures a.Some? ==>
          totalSpace == old(totalSpace) + HDR + used + left && lists == Extended(old(lists), kind, a.value, atEnd)
    {
      hide Separate, Accounted, Linked, AllListsIn, AllBytes, Placed, NoOverlap, Extended;
      ghost var h := Header(used, left, kind);
      ghost var held := sys.held;
      a := sys.Get(HDR + used + left);
      if a.Some? {
        PoolAccounted(held, manager, managerSize, headers, objects, a.value, h);
        LinksAdded(lists, headers, a.value, h, atEnd);
        BytesAdded(lists, headers, a.value, h, atEnd);
        totalSpace := totalSpace + (HDR + used + left);
        headers := headers[a.value := Header(used, left, kind)];
        lists := Extended(lists, kind, a.value, atEnd);
      }
    }

    /** Takes size bytes from a pool that has them. */
    method Carve(a: nat, size: nat) returns (at: nat)
      requires Valid() && a in headers && headers[a].left >= size && size % ALIGN == 0
      modifies this`headers, this`objects
      ensures Valid() && at == a + HDR + old(headers[a].used)
      ensures headers == Taken(old(headers), a, size) && Adds(old(objects), objects, Object(at, size, a), at, size)
    {
      hide Separate, Accounted, Linked, AllListsIn, AllBytes, Placed, NoOverlap;
      ObjectAdded(sys.held, manager, managerSize, headers, objects, a, size);
      BytesTaken(lists, headers, a, size);
      LinksTaken(lists, headers, a, size);
      at := a + HDR + headers[a].used;
      headers := Taken(headers, a, size);
      objects := objects + {Object(at, size, a)};
    }

    /** Finds the first pool of a small list with enough space left. */
    method FindSpace(id: nat, size: nat) returns (a: Option<nat>)
      requires Valid() && id < 2
      ensures a.Some? ==> a.value in headers && headers[a.value].kind == id && headers[a.value].left >= size
      ensures a.None? ==> forall b :: b in lists[id] ==> headers[b].left < size
    {
      hide Separate, Accounted, AllListsIn, AllBytes, Placed, NoOverlap;
      assert forall k :: 0 <= k < |lists[id]| ==> lists[id][k] in lists[id];
      for k := 0 to |lists[id]|
        invariant forall j :: 0 <= j < k ==> headers[lists[id][j]].left < size
      {
        var h := lists[id][k];
        if headers[h].left >= size {
          return Some(h);
        }
      }
      a := None;
    }

    /** Tries to get a new pool, giving up slop by halves. */
    method NewSmallPool(id: nat, size: nat) returns (a: Option<nat>)
      requires Valid() && id < 2 && size <= MAX_ALLOC_CHUNK - HDR
      modifies this`lists, this`headers, this`totalSpace, sys
      ensures Valid()
      ensures a.None? ==> headers == old(headers) && lists == old(lists) && totalSpace == old(totalSpace)
      ensures a.Some? ==>
          a.value !in old(headers) && a.value in headers && headers == old(headers)[a.value := headers[a.value]]
      ensures a.Some? ==> lists == Extended(old(lists), id, a.value, true)
      ensures a.Some? ==>
          headers[a.value].used == 0 && headers[a.value].left >= size
          && totalSpace == old(totalSpace) + PoolSize(headers[a.value])
      ensures a.Some? ==> PoolSize(headers[a.value]) <= MAX_ALLOC_CHUNK && headers[a.value].kind == id
    {
      var minRequest := size + HDR;
      var slop := if lists[id] == [] then FirstSlop(id) else ExtraSlop(id);
      if slop > MAX_ALLOC_CHUNK - minRequest {
        slop := MAX_ALLOC_CHUNK - minRequest;
      }
      while true
        invariant 0 <= slop <= MAX_ALLOC_CHUNK - minRequest
        invariant Valid() && headers == old(headers) && lists == old(lists) && totalSpace == old(totalSpace)
        decreases slop
      {
        a := AddPool(id, 0, size + slop, true);
        if a.Some? { return; }
        slop := slop / 2;
        if slop < MIN_SLOP {
          return None;
        }
      }
    }

    /** alloc_small.  The object returned is new, aligned, as large as asked, of the lifetime asked for,
        and overlaps none of the live ones; a refusal leaves the books as they were.  Nothing is refused, and
        nothing asked of the system, while a pool of that lifetime has room. */
    method AllocSmall(id: int, sizeOfObject: nat) returns (r: Outcome)
      requires Valid()
      modifies this`lists, this`headers, this`totalSpace, this`objects, sys
      ensures Valid()
      ensures r.Allocated? ==>
          AddedTo(old(objects), objects, headers, id, r.at, sizeOfObject) && KeepsPools(old(headers), headers)
      ensures !r.Allocated? ==> objects == old(objects) && totalSpace == old(totalSpace) && headers == old(headers)
      ensures r.BadPoolId? <==> sizeOfObject <= MAX_ALLOC_CHUNK - HDR && (id < 0 || id > 1)
      ensures sizeOfObject <= MAX_ALLOC_CHUNK - HDR && 0 <= id <= 1 ==>
                HasRoom(old(lists[id]), old(headers), RoundUp(sizeOfObject)) ==>
                  r.Allocated? && lists == old(lists) && totalSpace == old(totalSpace)
    {
      hide Separate, Accounted, Linked, AllListsIn, AllBytes, Placed, NoOverlap, Extended, Adds;
      if sizeOfObject > MAX_ALLOC_CHUNK - HDR {
        return OutOfMemory;
      }
      var size := RoundUp(sizeOfObject);
      if id < 0 || id >= 2 {
        return BadPoolId;
      }
      var a := FindSpace(id, size);
      if a.None? {
        a := NewSmallPool(id, size);
        if a.None? {
          return OutOfMemory;
        }
      }
      var at := Carve(a.value, size);
      NewObject(old(objects), objects, Object(at, size, a.value), at, size, sizeOfObject);
      assert a.value in headers && headers[a.value].kind == id;
      r := Allocated(at);
    }

    /** alloc_large: the same, but every object gets a pool of its own, at the head of its list. */
    method AllocLarge(id: int, sizeOfObject: nat) returns (r: Outcome)
      requires Valid()
      modifies this`lists, this`headers, this`totalSpace, this`objects, sys
      ensures Valid()
      ensures r.Allocated? ==>
          AddedTo(old(objects), objects, headers, 2 + id, r.at, sizeOfObject) && KeepsPools(old(headers), headers)
      ensures !r.Allocated? ==> objects == old(objects) && totalSpace == old(totalSpace) && headers == old(headers)
      ensures r.BadPoolId? <==> sizeOfObject <= MAX_ALLOC_CHUNK - HDR && (id < 0 || id > 1)
    {
      hide Separate, Accounted, Linked, AllListsIn, AllBytes, Placed, NoOverlap, Extended, Adds;
      if sizeOfObject > MAX_ALLOC_CHUNK - HDR {
        return OutOfMemory;
      }
      var size := RoundUp(sizeOfObject);
      if id < 0 || id >= 2 {
        return BadPoolId;
      }
      var a := AddPool(2 + id, 0, size, false);
      if a.None? {
        return OutOfMemory;
      }
      var at := Carve(a.value, size);
      NewObject(old(objects), objects, Object(at, size, a.value), at, size, sizeOfObject);
      assert a.value in headers && headers[a.value].kind == 2 + id;
      r := Allocated(at);
    }

    /** Gives back the first pool of a list, with the objects in it. */
    method FreeHead(kind: nat)
      requires Valid() && kind < 4 && lists[kind] != []
      modifies this, sys
      ensures Valid() && lists == old(lists)[kind := old(lists)[kind][1..]]
      ensures objects == Outside(old(objects), old(lists)[kind][0])
      ensures totalSpace < old(totalSpace)
      ensures headers == old(headers) - {old(lists)[kind][0]}
    {
      hide Separate, AllListsIn, AllBytes, Placed, NoOverlap, Outside;
      var a := lists[kind][0];
      assert a in lists[kind];
      var freed := headers[a].used + headers[a].left + HDR;
      HeadFreed(lists, headers, kind);
      PoolUnaccounted(sys.held, manager, managerSize, headers, objects, a);
      hide Separate, Accounted, Linked, AllListsIn, AllBytes, Placed, NoOverlap;
      sys.Free(a, freed);
      totalSpace := totalSpace - freed;
      headers := headers - {a};
      lists := lists[kind := lists[kind][1..]];
      objects := Outside(objects, a);
    }

    method FreeList(kind: nat)
      requires Valid() && kind < 4
      modifies this, sys
      ensures Valid() && lists == old(lists)[kind := []] && objects == OutsideAll(old(objects), old(lists)[kind])
      ensures headers == Without(old(headers), old(lists)[kind])
    {
      hide Without, Separate, Accounted, Linked, AllListsIn, AllBytes, Placed, NoOverlap, Outside, OutsideAll;
      ghost var list := lists[kind];
      ghost var k := 0;
      NoneOutside(objects, list);
      assert headers == Without(headers, list[..0]) by { WithoutNone(headers, list); }
      while lists[kind] != []
        invariant Valid() && 0 <= k <= |list| && lists == old(lists)[kind := list[k..]]
        invariant objects == OutsideAll(old(objects), list[..k]) && headers == Without(old(headers), list[..k])
        decreases |lists[kind]|
      {
        OutsideNext(old(objects), list, k);
        WithoutNext(old(headers), list, k);
        FreeHead(kind);
        k := k + 1;
      }
      assert list[..k] == list;
    }

    /** free_pool: large objects, then small ones; exactly the pools and objects of that lifetime are
        gone. */
    method FreePool(id: int) returns (ok: bool)
      requires Valid()
      modifies this, sys
      ensures Valid() && (ok <==> 0 <= id < 2)
      ensures !ok ==>
          lists == old(lists) && objects == old(objects) && headers == old(headers) && totalSpace == old(totalSpace)
      ensures ok ==> lists == old(lists)[2 + id := []][id := []]
      ensures ok ==> Survive(old(headers), headers, old(objects), objects, id)
    {
      if id < 0 || id >= 2 {
        return false;
      }
      LifetimeLists(lists, headers, objects, id);
      hide Separate, Accounted, Linked, AllListsIn, AllBytes, Placed, NoOverlap, Outside, OutsideAll, Without, Survive;
      FreeList(2 + id);
      FreeList(id);
      ok := true;
    }

    /** self_destruct, up to the manager's own block: nothing is left, and the count is back at the
        manager's size. */
    method FreeAll()
      requires Valid()
      modifies this, sys
      ensures Valid() && totalSpace == managerSize && objects == {} && sys.held == map[manager := managerSize]
    {
      hide Separate, Accounted, Linked, AllListsIn, AllBytes, Placed, NoOverlap, Outside, OutsideAll;
      var ok := FreePool(POOL_IMAGE);
      ok := FreePool(POOL_PERMANENT);
      NothingLeft(lists, headers);
      NothingHeld(sys.held, manager, managerSize, headers, objects);
    }
  }

  /** The objects outside all pools of a list. */
  ghost function OutsideAll(objects: set<Object>, list: seq<nat>): set<Object> {
    set o | o in objects && o.pool !in list
  }

  /** The pools not on a list. */
  ghost function Without(headers: map<nat, Header>, list: seq<nat>): map<nat, Header> {
    map a | a in headers && a !in list :: headers[a]
  }

  lemma WithoutNone(headers: map<nat, Header>, list: seq<nat>)
    ensures headers == Without(headers, list[..0])
  {
  }

  lemma WithoutNext(headers: map<nat, Header>, list: seq<nat>, k: nat)
    requires k < |list|
    ensures Without(headers, list[..k]) - {list[k]} == Without(headers, list[..k + 1])
  {
    assert list[..k + 1] == list[..k] + [list[k]];
  }

  /** What is left after freeing lifetime id: the pools of the other one, as they were, and the objects
      in them. */
  ghost predicate Survive(before: map<nat, Header>, after: map<nat, Header>, was: set<Object>, now: set<Object>,
      id: int) {
    && (forall a :: a in after <==> a in before && Lifetime(before[a]) != id)
    && (forall a :: a in after ==> after[a] == before[a])
    && (forall o :: o in now <==> o in was && o.pool in before && Lifetime(before[o.pool]) != id)
  }

  /** The two lists of a lifetime hold exactly its pools. */
  lemma LifetimeLists(lists: Lists, headers: map<nat, Header>, objects: set<Object>, id: nat)
    requires Linked(lists, headers) && id < 2 && forall o :: o in objects ==> Placed(o, headers)
    ensures Survive(headers, Without(Without(headers, lists[2 + id]), lists[id]),
                    objects, OutsideAll(OutsideAll(objects, lists[2 + id]), lists[id]), id)
  {
    assert forall o :: o in objects ==> o.pool in headers;
    hide Linked, Placed;
    forall a | a in headers ensures a in lists[2 + id] || a in lists[id] <==> Lifetime(headers[a]) == id {
      OnItsLists(lists, headers, a, id);
    }
    hide Lifetime;
  }

  lemma OnItsLists(lists: Lists, headers: map<nat, Header>, a: nat, id: nat)
    requires Linked(lists, headers) && id < 2 && a in headers
    ensures a in lists[2 + id] || a in lists[id] <==> Lifetime(headers[a]) == id
  {
    assert a in lists[headers[a].kind];
  }

  lemma NoneOutside(objects: set<Object>, list: seq<nat>)
    ensures OutsideAll(objects, list[..0]) == objects
  {
  }

  lemma OutsideNext(objects: set<Object>, list: seq<nat>, k: nat)
    requires k < |list|
    ensures Outside(OutsideAll(objects, list[..k]), list[k]) == OutsideAll(objects, list[..k + 1])
  {
    assert list[..k + 1] == list[..k] + [list[k]];
  }

  lemma NothingHeld(held: map<nat, nat>, manager: nat, managerSize: nat, headers: map<nat, Header>,
      objects: set<Object>)
    requires Accounted(held, manager, managerSize, headers) && headers == map[] && forall o :: o in objects ==>
        Placed(o, headers)
    ensures held == map[manager := managerSize] && objects == {}
  {
    assert held.Keys == {manager};
  }

  function Outside(objects: set<Object>, a: nat): set<Object> {
    set o | o in objects && o.pool != a
  }

  lemma NothingLeft(lists: Lists, headers: map<nat, Header>)
    requires Linked(lists, headers) && lists[0] == [] && lists[1] == [] && lists[2] == [] && lists[3] == []
    ensures headers == map[] && AllListsIn(lists, headers) && AllBytes(lists, headers) == 0
  {
    assert forall a :: a in headers ==> a in lists[headers[a].kind];
  }

  lemma HeadFreed(lists: Lists, headers: map<nat, Header>, kind: nat)
    requires Linked(lists, headers) && kind < 4 && lists[kind] != []
    ensures var a := lists[kind][0]; var l: Lists := lists[kind := lists[kind][1..]]; var g := headers - {a};
      && a in headers && AllListsIn(lists, headers) && Linked(l, g) && AllListsIn(l, g)
      && AllBytes(l, g) == AllBytes(lists, headers) - PoolSize(headers[a])
  {
    var a := lists[kind][0];
    var l: Lists := lists[kind := lists[kind][1..]];
    var g := headers - {a};
    LinksFreed(lists, headers, kind);
    LinkedAllIn(lists, headers);
    LinkedAllIn(l, g);
    assert l[0] != lists[0] ==> kind == 0;
    BytesSame(l[0], headers, g);
    BytesSame(l[1], headers, g);
    BytesSame(l[2], headers, g);
    BytesSame(l[3], headers, g);
  }

  lemma LinksFreed(lists: Lists, headers: map<nat, Header>, kind: nat)
    requires Linked(lists, headers) && kind < 4 && lists[kind] != []
    ensures lists[kind][0] in headers && Linked(lists[kind := lists[kind][1..]], headers - {lists[kind][0]})
  {
    var a := lists[kind][0];
    var l: Lists := lists[kind := lists[kind][1..]];
    assert a in lists[kind];
    assert forall k :: 0 <= k < |lists[kind]| - 1 ==> l[kind][k] == lists[kind][k + 1];
    assert a !in l[kind];
    assert forall b :: b in l[kind] ==> b in lists[kind];
    forall b | b in lists[kind] && b != a ensures b in l[kind] {
      var k :| 0 <= k < |lists[kind]| && lists[kind][k] == b;
      assert l[kind][k - 1] == b;
    }
  }

  lemma PoolUnaccounted(held: map<nat, nat>, manager: nat, managerSize: nat, headers: map<nat, Header>,
      objects: set<Object>, a: nat)
    requires Accounted(held, manager, managerSize, headers) && a in headers
    requires (forall o :: o in objects ==> Placed(o, headers)) && NoOverlap(objects)
    ensures a in held && held[a] == PoolSize(headers[a]) && a != manager
    ensures Accounted(held - {a}, manager, managerSize, headers - {a})
    ensures (forall o :: o in Outside(objects, a) ==> Placed(o, headers - {a})) && NoOverlap(Outside(objects, a))
  {
  }

  lemma LinkedAllIn(lists: Lists, headers: map<nat, Header>)
    requires Linked(lists, headers)
    ensures AllListsIn(lists, headers)
  {
    assert forall i, k :: 0 <= i < 4 && 0 <= k < |lists[i]| ==> lists[i][k] in lists[i];
  }

  function Extended(lists: Lists, kind: nat, a: nat, atEnd: bool): Lists
    requires kind < 4
  {
    lists[kind := if atEnd then lists[kind] + [a] else [a] + lists[kind]]
  }

  lemma LinksAdded(lists: Lists, headers: map<nat, Header>, a: nat, h: Header, atEnd: bool)
    requires Linked(lists, headers) && a !in headers && h.kind < 4
    ensures Linked(Extended(lists, h.kind, a, atEnd), headers[a := h])
  {
    var l, g := Extended(lists, h.kind, a, atEnd), headers[a := h];
    forall i, b | 0 <= i < 4 ensures b in l[i] <==> b in lists[i] || (i == h.kind && b == a) {
      OnExtended(lists, h.kind, a, atEnd, i, b);
    }
    assert forall i :: 0 <= i < 4 ==> a !in lists[i];
    forall i | 0 <= i < 4 ensures NoRepeats(l[i]) {
      NoRepeatsAdded(lists[i], a);
    }
    hide Extended, NoRepeats;
  }

  lemma OnExtended(lists: Lists, kind: nat, a: nat, atEnd: bool, i: nat, b: nat)
    requires kind < 4 && i < 4
    ensures b in Extended(lists, kind, a, atEnd)[i] <==> b in lists[i] || (i == kind && b == a)
  {
  }

  lemma NoRepeatsAdded(list: seq<nat>, a: nat)
    requires NoRepeats(list) && a !in list
    ensures NoRepeats(list + [a]) && NoRepeats([a] + list)
  {
  }

  /** A new pool adds its own size. */
  lemma BytesAdded(lists: Lists, headers: map<nat, Header>, a: nat, h: Header, atEnd: bool)
    requires AllListsIn(lists, headers) && a !in headers && h.kind < 4
    ensures var l, g := Extended(lists, h.kind, a, atEnd), headers[a := h];
      AllListsIn(l, g) && AllBytes(l, g) == AllBytes(lists, headers) + PoolSize(h)
  {
    var g := headers[a := h];
    BytesSame(lists[0], headers, g);
    BytesSame(lists[1], headers, g);
    BytesSame(lists[2], headers, g);
    BytesSame(lists[3], headers, g);
    BytesAppend(lists[h.kind], a, g);
    BytesPrepend(lists[h.kind], a, g);
  }

  lemma BytesPrepend(list: seq<nat>, a: nat, h: map<nat, Header>)
    requires AllIn(list, h) && a in h
    ensures AllIn([a] + list, h) && Bytes([a] + list, h) == PoolSize(h[a]) + Bytes(list, h)
  {
    assert ([a] + list)[1..] == list;
  }

  function Taken(headers: map<nat, Header>, a: nat, size: nat): map<nat, Header>
    requires a in headers && headers[a].left >= size
  {
    headers[a := headers[a].(used := headers[a].used + size, left := headers[a].left - size)]
  }

  lemma BytesTaken(lists: Lists, headers: map<nat, Header>, a: nat, size: nat)
    requires AllListsIn(lists, headers) && a in headers && headers[a].left >= size
    ensures AllListsIn(lists, Taken(headers, a, size))
        && AllBytes(lists, Taken(headers, a, size)) == AllBytes(lists, headers)
  {
    var g := Taken(headers, a, size);
    BytesSame(lists[0], headers, g);
    BytesSame(lists[1], headers, g);
    BytesSame(lists[2], headers, g);
    BytesSame(lists[3], headers, g);
  }

  lemma LinksTaken(lists: Lists, headers: map<nat, Header>, a: nat, size: nat)
    requires Linked(lists, headers) && a in headers && headers[a].left >= size
    ensures Linked(lists, Taken(headers, a, size))
  {
  }

  lemma TakenAccounted(held: map<nat, nat>, manager: nat, managerSize: nat, headers: map<nat, Header>,
      objects: set<Object>, a: nat, size: nat)
    requires Accounted(held, manager, managerSize, headers) && (forall o :: o in objects ==> Placed(o, headers))
    requires a in headers && headers[a].left >= size && size % ALIGN == 0
    ensures Accounted(held, manager, managerSize, Taken(headers, a, size))
    ensures forall o :: o in objects ==> Placed(o, Taken(headers, a, size))
  {
  }

  /** A new object starts where the used part of its pool ended. */
  lemma ObjectAdded(held: map<nat, nat>, manager: nat, managerSize: nat, headers: map<nat, Header>,
      objects: set<Object>, a: nat, size: nat)
    requires Separate(held) && Accounted(held, manager, managerSize, headers)
    requires (forall o :: o in objects ==> Placed(o, headers)) && NoOverlap(objects)
    requires a in headers && headers[a].left >= size && size % ALIGN == 0
    ensures var g := Taken(headers, a, size); var o := Object(a + HDR + headers[a].used, size, a);
      && Accounted(held, manager, managerSize, g) && Adds(objects, objects + {o}, o, o.start, size)
      && (forall p :: p in objects + {o} ==> Placed(p, g)) && NoOverlap(objects + {o})
  {
    var o := Object(a + HDR + headers[a].used, size, a);
    hide *;
    TakenAccounted(held, manager, managerSize, headers, objects, a, size);
    NewPlaced(held, manager, managerSize, headers, a, size);
    forall p | p in objects ensures Disjoint(o.start, o.size, p.start, p.size) {
      Beside(held, manager, managerSize, headers, p, a, size);
    }
    OneMoreApart(objects, o);
    OneMoreAdded(objects, o);
  }

  lemma OneMoreAdded(objects: set<Object>, o: Object)
    requires o.start % ALIGN == 0 && forall p :: p in objects ==> Disjoint(o.start, o.size, p.start, p.size)
    ensures Adds(objects, objects + {o}, o, o.start, o.size)
  {
    if o in objects { assert Disjoint(o.start, o.size, o.start, o.size); }
  }

  /** Rounding the size up keeps the promise. */
  lemma NewObject(before: set<Object>, after: set<Object>, o: Object, at: nat, size: nat, asked: nat)
    requires Adds(before, after, o, at, size) && asked <= size < asked + ALIGN && o.size == size
    ensures Adds(before, after, o, at, asked)
  {
  }

  lemma NewPlaced(held: map<nat, nat>, manager: nat, managerSize: nat, headers: map<nat, Header>, a: nat, size: nat)
    requires Separate(held) && Accounted(held, manager, managerSize, headers)
    requires a in headers && headers[a].left >= size
    ensures Placed(Object(a + HDR + headers[a].used, size, a), Taken(headers, a, size))
  {
    assert a in held && a % ALIGN == 0 && headers[a].used % ALIGN == 0;
  }

  lemma OneMoreApart(objects: set<Object>, o: Object)
    requires NoOverlap(objects) && forall p :: p in objects ==> Disjoint(o.start, o.size, p.start, p.size)
    ensures NoOverlap(objects + {o})
  {
  }

  lemma Beside(held: map<nat, nat>, manager: nat, managerSize: nat, headers: map<nat, Header>, p: Object, a: nat,
      size: nat)
    requires Separate(held) && Accounted(held, manager, managerSize, headers) && Placed(p, headers)
    requires a in headers && headers[a].left >= size
    ensures Disjoint(a + HDR + headers[a].used, size, p.start, p.size)
  {
    if p.pool != a { assert Disjoint(p.pool, held[p.pool], a, held[a]); }
  }

  lemma PoolAccounted(held: map<nat, nat>, manager: nat, managerSize: nat, headers: map<nat, Header>,
      objects: set<Object>, a: nat, h: Header)
    requires Accounted(held, manager, managerSize, headers) && a !in held && h.used % ALIGN == 0
    requires forall o :: o in objects ==> Placed(o, headers)
    ensures a !in headers && Accounted(held[a := PoolSize(h)], manager, managerSize, headers[a := h])
    ensures forall o :: o in objects ==> Placed(o, headers[a := h])
  {
  }
}
