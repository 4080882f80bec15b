/** Virtual arrays: a window that moves over a backing store, seen by its clients as one array of
    full height.  Rows are opaque values; sample and block arrays differ only in their type. */
module VirtArray {

  function Min(a: int, b: int): int {
    if a < b then a else b
  }

  lemma SlicesEqual<T>(a: seq<T>, b: seq<T>, i: nat, j: nat, n: nat)
    requires i + n <= |a| && j + n <= |b| && forall k :: i <= k < i + n ==> a[k] == b[k - i + j]
    ensures a[i..i + n] == b[j..j + n]
  {
  }

  /** When an array counts as fitting in memory, and that a window holds one access. */
  lemma FitsOrNot(rows: nat, access: nat, heights: nat)
    requires access >= 1 && heights >= 1
    ensures (rows - 1) / access + 1 <= heights <==> rows <= heights * access
    ensures heights * access >= access
  {
    var q, r := (rows - 1) / access, (rows - 1) % access;
    assert rows - 1 == access * q + r;
    if q + 1 <= heights {
      Multiples(q + 1, heights, access);
    } else {
      Multiples(heights, q, access);
    }
    Multiples(1, heights, access);
  }

  lemma Multiples(a: int, b: int, n: nat)
    requires a <= b
    ensures a * n <= b * n
  {
  }

  class VirtualArray<T(0)> {
    const rowsInArray: nat
    const maxAccess: nat
    const rowsInMem: nat
    const rowsPerChunk: nat
    const preZero: bool
    const storeOpen: bool
    const zero: T
    /** mem_buffer and the backing store. */
    const mem: array<T>
    const store: array<T>
    var curStart: nat
    var firstUndef: nat
    var dirty: bool

    /** The plain array that clients see, and the rows last granted. */
    ghost var plain: seq<T>
    ghost var grantStart: nat
    ghost var grantEnd: nat
    ghost var grantWrite: bool

    /** What realizing the array establishes: the window holds any one access that stays inside the
        array, and it is the whole array unless there is a backing store. */
    ghost predicate Realized() {
      && Min(maxAccess, rowsInArray) <= rowsInMem && rowsPerChunk >= 1
      && mem.Length == rowsInMem && store.Length == rowsInArray && mem != store
      && (!storeOpen ==> rowsInMem == rowsInArray)
    }

    ghost predicate InWindow(r: int)
      reads this
    {
      curStart <= r < curStart + rowsInMem
    }

    /** The defined rows inside the window are right. */
    ghost predicate WindowOk()
      reads this, mem
    {
      |plain| == rowsInArray && mem.Length == rowsInMem &&
      forall k :: 0 <= k < rowsInMem && curStart + k < firstUndef && curStart + k < rowsInArray ==>
          mem[k] == plain[curStart + k]
    }

    /** The defined rows outside the window are in the store; with all set, those inside as well. */
    ghost predicate StoreOk(all: bool)
      reads this, store
    {
      |plain| == rowsInArray && store.Length == rowsInArray &&
      forall r :: 0 <= r < firstUndef && r < rowsInArray && (all || !InWindow(r)) ==> store[r] == plain[r]
    }

    /** Every defined row is in the window or, failing that, in the store; when the window is not
        dirty its rows are in the store as well. */
    ghost predicate Faithful(unsaved: bool)
      reads this, mem, store
    {
      WindowOk() && StoreOk(storeOpen && !unsaved)
    }

    ghost predicate Valid()
      reads this, mem, store
    {
      && Realized() && Faithful(dirty) && firstUndef <= rowsInArray
      && (!storeOpen ==> curStart == 0)
      && (preZero ==> forall r :: firstUndef <= r < rowsInArray ==> plain[r] == zero)
      && (grantWrite ==> dirty && curStart <= grantStart <= grantEnd <= curStart + rowsInMem && grantEnd <= firstUndef)
    }

    /** The array as realize_virt_arrays would leave it, given how many accesses may be buffered: in
        memory as a whole if it fits, behind a window otherwise; nothing defined, nothing dirty. */
    constructor (rowsInArray: nat, maxAccess: nat, maxMinheights: nat, rowsPerChunk: nat, preZero: bool, zero: T)
      requires maxAccess >= 1 && maxMinheights >= 1 && rowsPerChunk >= 1
      ensures Valid() && fresh(mem) && fresh(store) && firstUndef == 0 && plain == seq(rowsInArray, _ => zero)
      ensures this.rowsInArray == rowsInArray && this.maxAccess == maxAccess && this.preZero == preZero
          && this.zero == zero
      ensures storeOpen <==> rowsInArray > maxMinheights * maxAccess
    {
      this.rowsInArray, this.maxAccess, this.rowsPerChunk := rowsInArray, maxAccess, rowsPerChunk;
      this.preZero, this.zero := preZero, zero;
      FitsOrNot(rowsInArray, maxAccess, maxMinheights);
      var minheights := (rowsInArray - 1) / maxAccess + 1;
      var rowsInMem := if minheights <= maxMinheights then rowsInArray else maxMinheights * maxAccess;
      this.rowsInMem, storeOpen := rowsInMem, minheights > maxMinheights;
      mem := new T[rowsInMem];
      store := new T[rowsInArray];
      curStart, firstUndef, dirty := 0, 0, false;
      plain := seq(rowsInArray, _ => zero);
      grantStart, grantEnd, grantWrite := 0, 0, false;
    }

    /** The rows do_sarray_io and do_barray_io transfer: those defined and inside the window. */
    ghost function IoEnd(): int
      reads this
    {
      Min(curStart + rowsInMem, Min(firstUndef, rowsInArray))
    }

    /** One transfer between the buffer and the store. */
    method Transfer(writing: bool, at: nat, row: nat, rows: nat)
      requires Realized() && at + rows <= rowsInMem && row + rows <= rowsInArray
      modifies mem, store
      ensures forall k :: 0 <= k < rowsInMem ==>
          mem[k] == if !writing && at <= k < at + rows then old(store[row + (k - at)]) else old(mem[k])
      ensures forall r :: 0 <= r < rowsInArray ==>
          store[r] == if writing && row <= r < row + rows then old(mem[at + (r - row)]) else old(store[r])
    {
      var n := 0;
      while n < rows
        invariant 0 <= n <= rows
        invariant forall k :: 0 <= k < rowsInMem ==>
            mem[k] == if !writing && at <= k < at + n then old(store[row + (k - at)]) else old(mem[k])
        invariant forall r :: 0 <= r < rowsInArray ==>
            store[r] == if writing && row <= r < row + n then old(mem[at + (r - row)]) else old(store[r])
      {
        if writing { store[row + n] := mem[at + n]; } else { mem[at + n] := store[row + n]; }
        n := n + 1;
      }
    }

    /** do_sarray_io, do_barray_io: chunk by chunk, no more than is defined and fits the file. */
    method DoIo(writing: bool)
      requires Realized() && firstUndef <= rowsInArray
      modifies mem, store
      ensures forall r :: 0 <= r < rowsInArray ==>
                store[r] == if writing && curStart <= r < IoEnd() then old(mem[r - curStart]) else old(store[r])
      ensures forall k :: 0 <= k < rowsInMem ==>
                mem[k] == if !writing && curStart + k < IoEnd() then old(store[curStart + k]) else old(mem[k])
    {
      var fileOffset := curStart;
      var i := 0;
      while i < rowsInMem
        invariant 0 <= i && fileOffset >= curStart
        invariant if curStart + i < IoEnd() then fileOffset == curStart + i else fileOffset >= IoEnd() || i == 0
        invariant forall r :: 0 <= r < rowsInArray ==>
                    store[r] == if writing && curStart <= r < IoEnd()
                        && r < curStart + i then old(mem[r - curStart]) else old(store[r])
        invariant forall k :: 0 <= k < rowsInMem ==>
                    mem[k] == if !writing && curStart + k < IoEnd()
                        && k < i then old(store[curStart + k]) else old(mem[k])
      {
        var rows := Min(rowsPerChunk, rowsInMem - i);
        var thisRow := curStart + i;
        rows := Min(rows, firstUndef - thisRow);
        rows := Min(rows, rowsInArray - thisRow);
        if rows <= 0 { break; }
        Transfer(writing, i, fileOffset, rows);
        fileOffset := fileOffset + rows;
        i := i + rowsPerChunk;
      }
    }

    /** Saves the window if it is dirty. */
    method Flush()
      requires Valid() && storeOpen && !grantWrite
      modifies this`dirty, mem, store
      ensures Valid() && !dirty
    {
      if dirty {
        DoIo(true);
        forall r | 0 <= r < firstUndef ensures store[r] == plain[r] {
          if InWindow(r) {
            assert old(mem[r - curStart]) == plain[curStart + (r - curStart)];
          }
        }
        dirty := false;
      }
    }

    /** Loads the window at its new place. */
    method Load(newStart: nat)
      requires Valid() && storeOpen && !grantWrite && !dirty
      modifies this`curStart, mem, store
      ensures Valid() && curStart == newStart
    {
      curStart := newStart;
      DoIo(false);
    }

    /** Moves the window so that it covers start..end, saving and loading what is defined. */
    method MoveWindow(start: nat, end: nat)
      requires Valid() && !grantWrite && start <= end <= rowsInArray && end - start <= maxAccess
      requires start < curStart || end > curStart + rowsInMem
      modifies this`curStart, this`dirty, mem, store
      ensures Valid() && storeOpen && curStart <= start && end <= curStart + rowsInMem
    {
      Flush();
      var newStart;
      if start > curStart {
        newStart := start;
      } else {
        newStart := if end < rowsInMem then 0 else end - rowsInMem;
      }
      Load(newStart);
    }

    /** Whether an access is accepted; every refusal is an error exit. */
    predicate Accepts(start: nat, num: nat, writable: bool)
      reads this
    {
      var end := start + num;
      && end <= rowsInArray && num <= maxAccess
      && (firstUndef < end ==> if writable then start <= firstUndef else preZero)
    }

    /** An earlier grant ends with the next access. */
    ghost method Revoke()
      requires Valid()
      modifies this`grantWrite
      ensures Valid() && !grantWrite
    {
      grantWrite := false;
    }

    /** access_virt_sarray, access_virt_barray: on success the rows of the plain array lie in the
        buffer from offset on.  A writer may extend the defined part; rows it adds are zero in
        pre-zero mode and otherwise whatever the buffer held. */
    method Access(start: nat, num: nat, writable: bool) returns (ok: bool, offset: nat)
      requires Valid()
      modifies this, mem, store
      ensures Valid() && ok == old(Accepts(start, num, writable))
      ensures !ok ==> plain == old(plain) && firstUndef == old(firstUndef)
      ensures ok ==> offset + num <= rowsInMem && mem[offset..offset + num] == plain[start..start + num]
      ensures ok ==> firstUndef == if writable && old(firstUndef) < start + num then start + num else old(firstUndef)
      ensures ok && (preZero || !writable) ==> plain == old(plain)
      ensures ok ==> forall r :: 0 <= r < rowsInArray && !(old(firstUndef) <= r < start + num) ==>
          plain[r] == old(plain[r])
      ensures grantWrite == (ok && writable) && (ok ==> grantStart == start && grantEnd == start + num)
    {
      hide WindowOk, StoreOk;
      Revoke();
      offset := 0;
      var end := start + num;
      if end > rowsInArray || num > maxAccess {
        return false, 0;
      }
      if start < curStart || end > curStart + rowsInMem {
        MoveWindow(start, end);
      }
      if firstUndef < end {
        if firstUndef < start {
          if writable {
            return false, 0;
          }
        }
        if !preZero && !writable {
          return false, 0;
        }
      }
      Prepare(start, end, writable);
      ok, offset := true, start - curStart;
      SlicesEqual(mem[..], plain, offset, start, num);
    }

    /** Defines and grants the accessed rows, which are inside the window. */
    method Prepare(start: nat, end: nat, writable: bool)
      requires Valid() && !grantWrite && curStart <= start <= end <= curStart + rowsInMem && end <= rowsInArray
      requires firstUndef < end ==> if writable then start <= firstUndef else preZero
      modifies this`firstUndef, this`plain, this`dirty, this`grantStart, this`grantEnd, this`grantWrite, mem
      ensures Valid() && grantStart == start && grantEnd == end && grantWrite == writable
      ensures firstUndef == if writable && old(firstUndef) < end then end else old(firstUndef)
      ensures preZero || !writable ==> plain == old(plain)
      ensures forall r :: 0 <= r < rowsInArray && !(old(firstUndef) <= r < end) ==> plain[r] == old(plain[r])
      ensures |plain| == rowsInArray && forall k :: start - curStart <= k < end - curStart ==>
          mem[k] == plain[curStart + k]
    {
      if firstUndef < end {
        Define(start, end, writable);
      }
      assert forall k :: start - curStart <= k < end - curStart ==> mem[k] == plain[curStart + k];
      Grant(start, end, writable);
    }

    /** Flags the buffer dirty if the client will write in it. */
    method Grant(start: nat, end: nat, writable: bool)
      requires Realized() && Faithful(dirty || writable) && firstUndef <= rowsInArray && (!storeOpen ==> curStart == 0)
      requires preZero ==> forall r :: firstUndef <= r < rowsInArray ==> plain[r] == zero
      requires !grantWrite && curStart <= start <= end <= curStart + rowsInMem && end <= rowsInArray
          && (writable ==> end <= firstUndef)
      requires forall k :: start - curStart <= k < end - curStart ==> mem[k] == plain[curStart + k]
      modifies this`dirty, this`grantStart, this`grantEnd, this`grantWrite
      ensures Valid() && grantStart == start && grantEnd == end && grantWrite == writable
    {
      if writable {
        dirty := true;
      }
      grantStart, grantEnd, grantWrite := start, end, writable;
    }

    /** Makes the accessed rows defined, or, for a reader ahead of the writer, at least zero. */
    method Define(start: nat, end: nat, writable: bool)
      requires Valid() && !grantWrite && curStart <= start <= end <= curStart + rowsInMem && end <= rowsInArray
      requires firstUndef < end && (if writable then start <= firstUndef else preZero)
      modifies this`firstUndef, this`plain, mem
      ensures Faithful(dirty || writable) && firstUndef <= rowsInArray
      ensures firstUndef == if writable then end else old(firstUndef)
      ensures preZero ==> plain == old(plain)
      ensures forall r :: 0 <= r < rowsInArray && !(old(firstUndef) <= r < end) ==> plain[r] == old(plain[r])
      ensures forall k :: start - curStart <= k < end - curStart ==> mem[k] == plain[curStart + k]
    {
      var undefRow: int := if firstUndef < start then start else firstUndef;
      if preZero {
        ZeroRows(undefRow - curStart, end - curStart);
      }
      if writable {
        WriterExtends(end);
      }
    }

    /** A writer's access makes the rows up to end part of the plain array, as they are. */
    method WriterExtends(end: nat)
      requires Realized() && Faithful(dirty) && curStart <= firstUndef < end <= rowsInArray
          && end <= curStart + rowsInMem
      modifies this`firstUndef, this`plain
      ensures Faithful(true) && firstUndef == end
      ensures forall r :: 0 <= r < rowsInArray ==>
                plain[r] == if old(firstUndef) <= r < end then mem[r - curStart] else old(plain[r])
    {
      plain := plain[..firstUndef] + mem[firstUndef - curStart..end - curStart] + plain[end..];
      firstUndef := end;
    }

    method ZeroRows(from: nat, to: nat)
      requires Realized() && from <= to <= rowsInMem
      modifies mem
      ensures forall k :: 0 <= k < rowsInMem ==> mem[k] == if from <= k < to then zero else old(mem[k])
    {
      var k := from;
      while k < to
        invariant from <= k <= to
        invariant forall j :: 0 <= j < rowsInMem ==> mem[j] == if from <= j < k then zero else old(mem[j])
      {
        mem[k] := zero;
        k := k + 1;
      }
    }

    /** The client stores into a row it was granted for writing. */
    method WriteRow(row: nat, value: T)
      requires Valid() && grantWrite && grantStart <= row < grantEnd
      modifies this`plain, mem
      ensures Valid() && plain == old(plain)[row := value]
      ensures grantWrite == old(grantWrite)
    {
      mem[row - curStart] := value;
      plain := plain[row := value];
    }
  }

  // ---------------------------------------------------------------- whole runs

  /** One row stored, counted from the start of the access. */
  datatype Edit<T> = Edit(at: nat, value: T)

  /** What a client does with an access: look at the rows, or look at them and store into some. */
  datatype Op<T> = Look(start: nat, num: nat) | Update(start: nat, num: nat, edits: seq<Edit<T>>)

  /** Stores stay inside the rows granted. */
  predicate WellFormed<T>(op: Op<T>) {
    op.Update? ==> forall i :: 0 <= i < |op.edits| ==> op.edits[i].at < op.num
  }

  type Client<T> = ops: seq<Op<T>> | forall i :: 0 <= i < |ops| ==> WellFormed(ops[i])

  /** Within bounds, not too many rows; no writer skips undefined rows, and no reader looks at them
      unless they are zeros. */
  predicate Acceptable<T>(op: Op<T>, height: nat, maxAccess: nat, preZero: bool, firstUndef: nat) {
    && op.start + op.num <= height && op.num <= maxAccess
    && (firstUndef < op.start + op.num ==> if op.Update? then op.start <= firstUndef else preZero)
  }

  function UndefAfter<T>(op: Op<T>, firstUndef: nat): nat {
    if op.Update? && firstUndef < op.start + op.num then op.start + op.num else firstUndef
  }

  predicate AllAcceptable<T>(ops: Client<T>, height: nat, maxAccess: nat, preZero: bool, firstUndef: nat) {
    ops == [] ||
    (Acceptable(ops[0], height, maxAccess, preZero, firstUndef)
     && AllAcceptable(ops[1..], height, maxAccess, preZero, UndefAfter(ops[0], firstUndef)))
  }

  function Edited<T>(a: seq<T>, start: nat, edits: seq<Edit<T>>): (r: seq<T>)
    requires forall i :: 0 <= i < |edits| ==> start + edits[i].at < |a|
    ensures |r| == |a|
    decreases |edits|
  {
    if edits == [] then a else Edited(a[start + edits[0].at := edits[0].value], start, edits[1..])
  }

  /** The plain array after one operation. */
  function PlainStep<T>(a: seq<T>, op: Op<T>): (r: seq<T>)
    requires WellFormed(op) && op.start + op.num <= |a|
    ensures |r| == |a|
  {
    if op.Look? then a else Edited(a, op.start, op.edits)
  }

  /** What a plain array of full height shows, access after access. */
  function PlainRun<T>(a: seq<T>, ops: Client<T>): seq<seq<T>>
    requires forall i :: 0 <= i < |ops| ==> ops[i].start + ops[i].num <= |a|
    decreases |ops|
  {
    if ops == [] then []
    else [a[ops[0].start..ops[0].start + ops[0].num]] + PlainRun(PlainStep(a, ops[0]), ops[1..])
  }

  /** The two arrays agree on rows lo..hi. */
  ghost predicate Agree<T>(a: seq<T>, b: seq<T>, lo: nat, hi: nat) {
    |a| == |b| && forall r :: lo <= r < hi && r < |a| ==> a[r] == b[r]
  }

  lemma {:induction false} EditedAgree<T>(a: seq<T>, b: seq<T>, start: nat, edits: seq<Edit<T>>, hi: nat)
    requires Agree(a, b, 0, hi) && hi <= |a| && forall i :: 0 <= i < |edits| ==> start + edits[i].at < hi
    ensures Agree(Edited(a, start, edits), Edited(b, start, edits), 0, hi)
    ensures Agree(Edited(a, start, edits), a, hi, |a|)
    decreases |edits|
  {
    if edits != [] {
      var e := edits[0];
      EditedAgree(a[start + e.at := e.value], b[start + e.at := e.value], start, edits[1..], hi);
    }
  }

  /** One operation through the window.  seen is what the access showed; given is the plain array at
      that moment, which differs from the one before only in rows that the access defined. */
  method Perform<T(0)>(v: VirtualArray<T>, op: Op<T>) returns (ok: bool, seen: seq<T>, ghost given: seq<T>)
    requires v.Valid() && WellFormed(op)
    modifies v, v.mem, v.store
    ensures v.Valid() && ok == Acceptable(op, v.rowsInArray, v.maxAccess, v.preZero, old(v.firstUndef))
    ensures ok ==> v.firstUndef == UndefAfter(op, old(v.firstUndef))
    ensures ok ==>
        |given| == v.rowsInArray && seen == given[op.start..op.start + op.num] && v.plain == PlainStep(given, op)
    ensures ok ==> forall r :: 0 <= r < v.rowsInArray && !(old(v.firstUndef) <= r < v.firstUndef) ==>
        given[r] == old(v.plain)[r]
    ensures ok && v.preZero ==> given == old(v.plain)
  {
    var offset;
    ok, offset := v.Access(op.start, op.num, op.Update?);
    given, seen := v.plain, [];
    if ok {
      seen := v.mem[offset..offset + op.num];
      if op.Update? { StoreAll(v, op.start, op.edits); }
    }
  }

  method StoreAll<T(0)>(v: VirtualArray<T>, start: nat, edits: seq<Edit<T>>)
    requires v.Valid() && v.grantWrite && v.grantStart == start
    requires forall i :: 0 <= i < |edits| ==> start + edits[i].at < v.grantEnd <= v.rowsInArray
    modifies v`plain, v.mem
    ensures v.Valid() && |old(v.plain)| == v.rowsInArray && v.plain == Edited(old(v.plain), start, edits)
  {
    var i := 0;
    ghost var goal := Edited(v.plain, start, edits);
    while i < |edits|
      invariant 0 <= i <= |edits| && v.Valid() && v.grantWrite && |v.plain| == v.rowsInArray
      invariant goal == Edited(v.plain, start, edits[i..])
    {
      v.WriteRow(start + edits[i].at, edits[i].value);
      assert edits[i..][1..] == edits[i + 1..];
      i := i + 1;
    }
  }

  /** An initial array fit to explain a run from here: what is defined is as it is, and in a pre-zeroed
      array so is the rest. */
  ghost predicate Explains<T>(init: seq<T>, plain: seq<T>, preZero: bool, firstUndef: nat) {
    if preZero then init == plain else Agree(init, plain, 0, firstUndef)
  }

  /** Main result: a run of accesses is accepted exactly when the bookkeeping of a plain array allows
      it, and then every access shows exactly what one plain array of full height shows, whose rows
      are zero at first if the array is pre-zeroed and arbitrary, but fixed, where nothing has been
      written yet if it is not. */
  method Replay<T(0)>(v: VirtualArray<T>, ops: Client<T>) returns (ok: bool, seen: seq<seq<T>>, ghost init: seq<T>)
    requires v.Valid()
    modifies v, v.mem, v.store
    ensures v.Valid()
    ensures ok == AllAcceptable(ops, v.rowsInArray, v.maxAccess, v.preZero, old(v.firstUndef))
    ensures ok ==> |init| == v.rowsInArray && Explains(init, old(v.plain), v.preZero, old(v.firstUndef))
    ensures ok ==> forall i :: 0 <= i < |ops| ==> ops[i].start + ops[i].num <= |init|
    ensures ok ==> seen == PlainRun(init, ops)
    decreases |ops|
  {
    seen, init := [], v.plain;
    if ops == [] {
      return true, seen, init;
    }
    ghost var f := v.firstUndef;
    var op := ops[0];
    var first;
    ghost var given;
    ok, first, given := Perform(v, op);
    if ok {
      ghost var g := v.firstUndef;
      var rest;
      ghost var later;
      ok, rest, later := Replay(v, ops[1..]);
      seen := [first] + rest;
      if ok {
        init := Earlier(given, later, v.preZero, op, g);
        assert forall i :: 0 < i < |ops| ==> ops[i] == ops[1..][i - 1];
      }
    }
  }

  /** The array that explains a run from before op, given the one that explains it from after. */
  lemma Earlier<T>(given: seq<T>, later: seq<T>, preZero: bool, op: Op<T>, g: nat) returns (init: seq<T>)
    requires WellFormed(op) && op.start + op.num <= |given| && g <= |given| && (op.Update? ==> op.start + op.num <= g)
    requires |later| == |given| && Explains(later, PlainStep(given, op), preZero, g)
    requires !preZero && op.Look? ==> op.start + op.num <= g
    ensures |init| == |given| && PlainStep(init, op) == later && Explains(init, given, preZero, g)
    ensures init[op.start..op.start + op.num] == given[op.start..op.start + op.num]
  {
    if preZero {
      init := given;
    } else {
      init := given[..g] + later[g..];
      if op.Update? {
        EditedAgree(given, init, op.start, op.edits, g);
        EditedAgree(init, given, op.start, op.edits, g);
      }
      assert PlainStep(init, op) == later;
    }
  }
}
