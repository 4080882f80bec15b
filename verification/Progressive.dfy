/** The first scans of a progressive image and the DC refinement (sections G.1.2.1 and G.1.2.2
    of ITU-T T.81), over any bit source. */
module Progressive {
  import opened Wrappers
  import opened Bits
  import opened HuffDecode
  import opened BitSources
  import opened Coefficients
  import opened Zigzag
  import opened Refine

  /** DC, first scan: the predictor moves by the difference; the coefficient is scaled up. */
  function DcFirst<S>(src: BitSource<S>, s: S, tb: Table, last: int, al: nat): Option<(Coefficient, int, S)> {
    match DecodeDiff(src, s, tb)
    case None => None
    case Some((diff, s1)) => Some((Wrap16((diff + last) * Pow2(al)), diff + last, s1))
  }

  /** Setting bit al with a bitwise or. */
  function SetBit(c: Coefficient, al: nat): Coefficient {
    if HasBit(c, al) then c else Wrap16(c + Pow2(al))
  }

  /** DC refinement: one raw bit. */
  function DcRefine<S>(src: BitSource<S>, s: S, c: Coefficient, al: nat): Option<(Coefficient, S)> {
    match src.receive(s, 1)
    case None => None
    case Some((v, s1)) => Some((if v != 0 then SetBit(c, al) else c, s1))
  }

  /** Repeating the or is safe. */
  lemma SetBitOnce(c: Coefficient, al: nat)
    requires al <= 13
    ensures SetBit(SetBit(c, al), al) == SetBit(c, al)
  {
    BitFlips(c, Pow2(al));
    WrapKeepsBit(c + Pow2(al), al);
  }

  /** AC, first scan, from index k on; the result carries the end-of-band run left over. */
  function AcFirst<S>(src: BitSource<S>, s: S, tb: Table, o: Order, d: Scan, b: Block, k: nat): Option<(S, Block, nat)>
    decreases DCTSIZE2 + 16 - k
  {
    if k > d.se then Some((s, b, 0))
    else
      match src.symbol(s, tb)
      case None => None
      case Some((y, s1)) =>
        var r, size := y / 16, y % 16;
        if size != 0 then
          match src.receive(s1, size)
          case None => None
          case Some((x, s2)) =>
            AcFirst(src, s2, tb, o, d, b[o[k + r] := Wrap16(Extend(x, size) * Pow2(d.al))], k + r + 1)
        else if r == 15 then AcFirst(src, s1, tb, o, d, b, k + 16)
        else if r == 0 then Some((s1, b, 0))
        else
          match src.receive(s1, r)
          case None => None
          case Some((v, s2)) => Some((s2, b, Pow2(r) + v - 1))
  }

  /** One block of a first AC scan: inside an end-of-band run nothing is read. */
  function AcFirstBlock<S>(src: BitSource<S>, s: S, tb: Table, o: Order, d: Scan, b: Block, eobRun: nat): Option<(S,
      Block, nat)> {
    if eobRun > 0 then Some((s, b, eobRun - 1)) else AcFirst(src, s, tb, o, d, b, d.ss)
  }

  // ---------------------------------------------------------------- simulation

  ghost predicate Related<S(!new), T(!new)>(x: Option<(S, Block, nat)>, y: Option<(T, Block, nat)>,
      rel: (S, T) -> bool) {
    x.Some? ==> y.Some? && x.value.1 == y.value.1 && x.value.2 == y.value.2 && rel(x.value.0, y.value.0)
  }

  lemma DcFirstSimulated<S(!new), T(!new)>(a: BitSource<S>, b: BitSource<T>, rel: (S, T) -> bool, s: S, t: T, tb: Table,
      last: int, al: nat)
    requires Simulates(a, b, rel) && rel(s, t)
    ensures var x, y := DcFirst(a, s, tb, last, al), DcFirst(b, t, tb, last, al);
      x.Some? ==> y.Some? && x.value.0 == y.value.0 && x.value.1 == y.value.1 && rel(x.value.2, y.value.2)
  {
    DiffSimulated(a, b, rel, s, t, tb);
  }

  lemma DcRefineSimulated<S(!new), T(!new)>(a: BitSource<S>, b: BitSource<T>, rel: (S, T) -> bool, s: S, t: T,
      c: Coefficient, al: nat)
    requires Simulates(a, b, rel) && rel(s, t)
    ensures Matched(DcRefine(a, s, c, al), DcRefine(b, t, c, al), rel)
  {
    if a.receive(s, 1).Some? { assert Matched(a.receive(s, 1), b.receive(t, 1), rel); }
  }

  lemma {:induction false} AcFirstSimulated<S(!new), T(!new)>(a: BitSource<S>, b: BitSource<T>, rel: (S, T) -> bool,
      s: S, t: T, tb: Table, o: Order, d: Scan, blk: Block, k: nat)
    requires Simulates(a, b, rel) && rel(s, t)
    ensures Related(AcFirst(a, s, tb, o, d, blk, k), AcFirst(b, t, tb, o, d, blk, k), rel)
    decreases DCTSIZE2 + 16 - k
  {
    if k <= d.se && a.symbol(s, tb).Some? {
      assert Matched(a.symbol(s, tb), b.symbol(t, tb), rel);
      var (y, s1) := a.symbol(s, tb).value;
      var (_, t1) := b.symbol(t, tb).value;
      var r, size := y / 16, y % 16;
      if size != 0 {
        if a.receive(s1, size).Some? {
          assert Matched(a.receive(s1, size), b.receive(t1, size), rel);
          var (x, s2) := a.receive(s1, size).value;
          var (_, t2) := b.receive(t1, size).value;
          AcFirstSimulated(a, b, rel, s2, t2, tb, o, d, blk[o[k + r] := Wrap16(Extend(x, size) * Pow2(d.al))],
              k + r + 1);
        }
      } else if r == 15 {
        AcFirstSimulated(a, b, rel, s1, t1, tb, o, d, blk, k + 16);
      } else if r > 0 && a.receive(s1, r).Some? {
        assert Matched(a.receive(s1, r), b.receive(t1, r), rel);
      }
    }
  }

  lemma InterpretSimulated<S(!new), T(!new)>(a: BitSource<S>, b: BitSource<T>, rel: (S, T) -> bool, s: S, t: T,
      tb: Table, al: nat)
    requires Simulates(a, b, rel) && rel(s, t) && al <= 13
    ensures Matched(Interpret(a, s, tb, al), Interpret(b, t, tb, al), rel)
  {
    if a.symbol(s, tb).Some? {
      assert Matched(a.symbol(s, tb), b.symbol(t, tb), rel);
      var (y, s1) := a.symbol(s, tb).value;
      var (_, t1) := b.symbol(t, tb).value;
      if y % 16 != 0 {
        if a.receive(s1, 1).Some? { assert Matched(a.receive(s1, 1), b.receive(t1, 1), rel); }
      } else if 0 < y / 16 < 15 && a.receive(s1, y / 16).Some? {
        assert Matched(a.receive(s1, y / 16), b.receive(t1, y / 16), rel);
      }
    }
  }

  lemma AmendSimulated<S(!new), T(!new)>(a: BitSource<S>, b: BitSource<T>, rel: (S, T) -> bool, s: S, t: T, blk: Block,
      p: Place, al: nat)
    requires Simulates(a, b, rel) && rel(s, t)
    ensures Matched(Amend(a, s, blk, p, al), Amend(b, t, blk, p, al), rel)
  {
    if a.receive(s, 1).Some? { assert Matched(a.receive(s, 1), b.receive(t, 1), rel); }
  }

  /** A finished refinement is the same over every source that delivers the same. */
  lemma {:induction false} RunSimulated<S(!new), T(!new)>(a: BitSource<S>, b: BitSource<T>, rel: (S, T) -> bool, s: S,
      t: T, tb: Table, o: Order, d: Scan, blk: Block, k: nat, ph: Phase)
    requires Simulates(a, b, rel) && rel(s, t)
    requires k <= d.se + 2 && (ph.Approach? ==> k <= d.se + 1)
    ensures var x, y := Run(a, s, tb, o, d, blk, k, ph), Run(b, t, tb, o, d, blk, k, ph);
      x.Done? ==> y.Done? && x.b == y.b && x.e == y.e && rel(x.s, y.s)
    decreases Refine.Left(k, d), Rank(ph)
  {
    if ph.Fetch? {
      InterpretSimulated(a, b, rel, s, t, tb, d.al);
      if k <= d.se && Interpret(a, s, tb, d.al).Some? {
        var (ph', s1) := Interpret(a, s, tb, d.al).value;
        var (_, t1) := Interpret(b, t, tb, d.al).value;
        RunSimulated(a, b, rel, s1, t1, tb, o, d, blk, k, ph');
      }
    } else if k <= d.se && blk[o[k]] != 0 {
      AmendSimulated(a, b, rel, s, t, blk, o[k], d.al);
      if Amend(a, s, blk, o[k], d.al).Some? {
        var (b1, s1) := Amend(a, s, blk, o[k], d.al).value;
        var (_, t1) := Amend(b, t, blk, o[k], d.al).value;
        RunSimulated(a, b, rel, s1, t1, tb, o, d, b1, k + 1, ph);
      }
    } else if ph.Tail? {
      if k <= d.se { RunSimulated(a, b, rel, s, t, tb, o, d, blk, k + 1, ph); }
    } else if k <= d.se && ph.r > 0 {
      RunSimulated(a, b, rel, s, t, tb, o, d, blk, k + 1, Approach(ph.r - 1, ph.v));
    } else {
      RunSimulated(a, b, rel, s, t, tb, o, d, if ph.v != 0 then blk[o[k] := ph.v] else blk, k + 1, Fetch);
    }
  }

  // ---------------------------------------------------------------- finishing

  /** From a source that does not run dry, a first AC scan never suspends. */
  lemma {:induction false} AcFirstCompletes<S(!new)>(src: BitSource<S>, live: S -> bool, s: S, tb: Table, o: Order,
      d: Scan, b: Block, k: nat)
    requires NeverDry(src, live) && live(s)
    ensures var r := AcFirst(src, s, tb, o, d, b, k); r.Some? && live(r.value.0)
    decreases DCTSIZE2 + 16 - k
  {
    if k <= d.se {
      var (y, s1) := src.symbol(s, tb).value;
      var r, size := y / 16, y % 16;
      if size != 0 {
        assert src.receive(s1, size).Some?;
        var (x, s2) := src.receive(s1, size).value;
        AcFirstCompletes(src, live, s2, tb, o, d, b[o[k + r] := Wrap16(Extend(x, size) * Pow2(d.al))], k + r + 1);
      } else if r == 15 {
        AcFirstCompletes(src, live, s1, tb, o, d, b, k + 16);
      } else if r > 0 {
        assert src.receive(s1, r).Some?;
      }
    }
  }

  lemma InterpretCompletes<S(!new)>(src: BitSource<S>, live: S -> bool, s: S, tb: Table, al: nat)
    requires NeverDry(src, live) && live(s) && al <= 13
    ensures var r := Interpret(src, s, tb, al); r.Some? && live(r.value.1)
  {
    var (y, s1) := src.symbol(s, tb).value;
    assert src.receive(s1, 1).Some?;
    if y / 16 < 15 { assert src.receive(s1, y / 16).Some?; }
  }

  lemma AmendCompletes<S(!new)>(src: BitSource<S>, live: S -> bool, s: S, b: Block, p: Place, al: nat)
    requires NeverDry(src, live) && live(s)
    ensures var r := Amend(src, s, b, p, al); r.Some? && live(r.value.1)
  {
    assert src.receive(s, 1).Some?;
  }

  /** Nor does a refinement. */
  lemma {:induction false} RunCompletes<S(!new)>(src: BitSource<S>, live: S -> bool, s: S, tb: Table, o: Order, d: Scan,
      b: Block, k: nat, ph: Phase)
    requires NeverDry(src, live) && live(s)
    requires k <= d.se + 2 && (ph.Approach? ==> k <= d.se + 1)
    ensures var r := Run(src, s, tb, o, d, b, k, ph); r.Done? && live(r.s)
    decreases Refine.Left(k, d), Rank(ph)
  {
    if ph.Fetch? {
      if k <= d.se {
        InterpretCompletes(src, live, s, tb, d.al);
        var (ph', s1) := Interpret(src, s, tb, d.al).value;
        RunCompletes(src, live, s1, tb, o, d, b, k, ph');
      }
    } else if k <= d.se && b[o[k]] != 0 {
      AmendCompletes(src, live, s, b, o[k], d.al);
      var (b1, s1) := Amend(src, s, b, o[k], d.al).value;
      RunCompletes(src, live, s1, tb, o, d, b1, k + 1, ph);
    } else if ph.Tail? {
      if k <= d.se { RunCompletes(src, live, s, tb, o, d, b, k + 1, ph); }
    } else if k <= d.se && ph.r > 0 {
      RunCompletes(src, live, s, tb, o, d, b, k + 1, Approach(ph.r - 1, ph.v));
    } else {
      RunCompletes(src, live, s, tb, o, d, if ph.v != 0 then b[o[k] := ph.v] else b, k + 1, Fetch);
    }
  }

  // ---------------------------------------------------------------- suspended first scans

  /** One coefficient store of a first AC scan. */
  datatype Put = Put(at: Place, val: Coefficient)

  /** The stores of a first AC scan from index k on, and where it ends unless input runs out.  What the
      block holds does not matter to them. */
  datatype Puts<+S> = Puts(puts: seq<Put>, out: Option<(S, nat)>)

  function AcFirstPuts<S>(src: BitSource<S>, s: S, tb: Table, o: Order, d: Scan, k: nat): Puts<S>
    decreases DCTSIZE2 + 16 - k
  {
    if k > d.se then Puts([], Some((s, 0)))
    else
      match src.symbol(s, tb)
      case None => Puts([], None)
      case Some((y, s1)) =>
        var r, size := y / 16, y % 16;
        if size != 0 then
          match src.receive(s1, size)
          case None => Puts([], None)
          case Some((x, s2)) =>
            var later := AcFirstPuts(src, s2, tb, o, d, k + r + 1);
            Puts([Put(o[k + r], Wrap16(Extend(x, size) * Pow2(d.al)))] + later.puts, later.out)
        else if r == 15 then AcFirstPuts(src, s1, tb, o, d, k + 16)
        else if r == 0 then Puts([], Some((s1, 0)))
        else
          match src.receive(s1, r)
          case None => Puts([], None)
          case Some((v, s2)) => Puts([], Some((s2, Pow2(r) + v - 1)))
  }

  function PutAll(ps: seq<Put>, b: Block): Block {
    if ps == [] then b else PutAll(ps[1..], b[ps[0].at := ps[0].val])
  }

  /** A finished first scan is its stores. */
  lemma {:induction false} AcFirstIsPuts<S>(src: BitSource<S>, s: S, tb: Table, o: Order, d: Scan, b: Block, k: nat)
    ensures var r := AcFirstPuts(src, s, tb, o, d, k);
      AcFirst(src, s, tb, o, d, b, k)
          == match r.out case None => None case Some((t, e)) => Some((t, PutAll(r.puts, b), e))
    decreases DCTSIZE2 + 16 - k
  {
    hide Extend, Wrap16, Pow2;
    if k <= d.se && src.symbol(s, tb).Some? {
      var (y, s1) := src.symbol(s, tb).value;
      var r, size := y / 16, y % 16;
      if size != 0 {
        if src.receive(s1, size).Some? {
          var (x, s2) := src.receive(s1, size).value;
          var p := Put(o[k + r], Wrap16(Extend(x, size) * Pow2(d.al)));
          AcFirstIsPuts(src, s2, tb, o, d, b[p.at := p.val], k + r + 1);
          var later := AcFirstPuts(src, s2, tb, o, d, k + r + 1).puts;
          assert ([p] + later)[1..] == later;
        }
      } else if r == 15 {
        AcFirstIsPuts(src, s1, tb, o, d, b, k + 16);
      }
    }
  }

  lemma ValuePuts<S>(src: BitSource<S>, s: S, tb: Table, o: Order, d: Scan, k: nat, y: byte, s1: S, x: nat, s2: S)
    requires k <= d.se && y % 16 != 0
    requires src.symbol(s, tb) == Some((y, s1)) && src.receive(s1, y % 16) == Some((x, s2))
    ensures AcFirstPuts(src, s, tb, o, d, k).puts
         == [Put(o[k + y / 16], Wrap16(Extend(x, y % 16) * Pow2(d.al)))]
            + AcFirstPuts(src, s2, tb, o, d, k + y / 16 + 1).puts
  {
    hide Extend, Wrap16, Pow2;
  }

  /** Value by value, one prefix extends another. */
  lemma ValueBehind<S, T>(a: BitSource<S>, b: BitSource<T>, s: S, t: T, tb: Table, o: Order, d: Scan, k: nat, y: byte,
      s1: S, t1: T, x: nat, s2: S, t2: T)
    requires k <= d.se && y % 16 != 0
    requires a.symbol(s, tb) == Some((y, s1)) && a.receive(s1, y % 16) == Some((x, s2))
    requires b.symbol(t, tb) == Some((y, t1)) && b.receive(t1, y % 16) == Some((x, t2))
    requires AcFirstPuts(a, s2, tb, o, d, k + y / 16 + 1).puts <= AcFirstPuts(b, t2, tb, o, d, k + y / 16 + 1).puts
    ensures AcFirstPuts(a, s, tb, o, d, k).puts <= AcFirstPuts(b, t, tb, o, d, k).puts
  {
    ValuePuts(a, s, tb, o, d, k, y, s1, x, s2);
    ValuePuts(b, t, tb, o, d, k, y, t1, x, t2);
    hide AcFirstPuts, Extend, Wrap16, Pow2;
    PrefixBehind(Put(o[k + y / 16], Wrap16(Extend(x, y % 16) * Pow2(d.al))),
        AcFirstPuts(a, s2, tb, o, d, k + y / 16 + 1).puts, AcFirstPuts(b, t2, tb, o, d, k + y / 16 + 1).puts);
  }

  lemma NoPuts<S>(src: BitSource<S>, s: S, tb: Table, o: Order, d: Scan, k: nat)
    requires k > d.se || src.symbol(s, tb).None?
    ensures AcFirstPuts(src, s, tb, o, d, k).puts == []
  {
  }

  lemma RunPuts<S>(src: BitSource<S>, s: S, tb: Table, o: Order, d: Scan, k: nat, y: byte, s1: S)
    requires k <= d.se && src.symbol(s, tb) == Some((y, s1)) && (y % 16 != 0 ==> src.receive(s1, y % 16).None?)
    ensures AcFirstPuts(src, s, tb, o, d, k).puts
         == if y == 0xF0 then AcFirstPuts(src, s1, tb, o, d, k + 16).puts else []
  {
    hide Extend, Wrap16, Pow2;
  }

  lemma PrefixBehind(p: Put, x: seq<Put>, y: seq<Put>)
    requires x <= y
    ensures [p] + x <= [p] + y
  {
  }

  lemma SymbolMatched<S(!new), T(!new)>(a: BitSource<S>, b: BitSource<T>, rel: (S, T) -> bool, s: S, t: T, tb: Table)
    requires Simulates(a, b, rel) && rel(s, t) && a.symbol(s, tb).Some?
    ensures b.symbol(t, tb).Some? && a.symbol(s, tb).value.0 == b.symbol(t, tb).value.0
    ensures rel(a.symbol(s, tb).value.1, b.symbol(t, tb).value.1)
  {
    assert Matched(a.symbol(s, tb), b.symbol(t, tb), rel);
  }

  lemma ReceiveMatched<S(!new), T(!new)>(a: BitSource<S>, b: BitSource<T>, rel: (S, T) -> bool, s: S, t: T, n: Width)
    requires Simulates(a, b, rel) && rel(s, t) && a.receive(s, n).Some?
    ensures b.receive(t, n).Some? && a.receive(s, n).value.0 == b.receive(t, n).value.0
    ensures rel(a.receive(s, n).value.1, b.receive(t, n).value.1)
  {
    assert Matched(a.receive(s, n), b.receive(t, n), rel);
  }

  /** More input only adds stores at the end. */
  lemma {:induction false} PutsSimulated<S(!new), T(!new)>(a: BitSource<S>, b: BitSource<T>, rel: (S, T) -> bool, s: S,
      t: T, tb: Table, o: Order, d: Scan, k: nat)
    requires Simulates(a, b, rel) && rel(s, t)
    ensures AcFirstPuts(a, s, tb, o, d, k).puts <= AcFirstPuts(b, t, tb, o, d, k).puts
    decreases DCTSIZE2 + 16 - k
  {
    hide AcFirstPuts, Simulates;
    if k > d.se || a.symbol(s, tb).None? {
      NoPuts(a, s, tb, o, d, k);
      NoneBehind(AcFirstPuts(b, t, tb, o, d, k).puts);
    } else {
      SymbolMatched(a, b, rel, s, t, tb);
      var (y, s1) := a.symbol(s, tb).value;
      var t1 := b.symbol(t, tb).value.1;
      if y % 16 == 0 {
        RunPuts(a, s, tb, o, d, k, y, s1);
        RunPuts(b, t, tb, o, d, k, y, t1);
        if y == 0xF0 { PutsSimulated(a, b, rel, s1, t1, tb, o, d, k + 16); }
      } else if a.receive(s1, y % 16).Some? {
        ReceiveMatched(a, b, rel, s1, t1, y % 16);
        var (x, s2) := a.receive(s1, y % 16).value;
        var t2 := b.receive(t1, y % 16).value.1;
        PutsSimulated(a, b, rel, s2, t2, tb, o, d, k + y / 16 + 1);
        ValueBehind(a, b, s, t, tb, o, d, k, y, s1, t1, x, s2, t2);
      } else {
        RunPuts(a, s, tb, o, d, k, y, s1);
        NoneBehind(AcFirstPuts(b, t, tb, o, d, k).puts);
      }
    }
  }

  lemma NoneBehind(ps: seq<Put>)
    ensures [] <= ps
  {
  }

  /** A place is left alone or ends with what was stored there last. */
  lemma {:induction false} PutAllAt(ps: seq<Put>, a: Block, b: Block, i: Place)
    ensures (forall n :: 0 <= n < |ps| ==> ps[n].at != i) ==> PutAll(ps, a)[i] == a[i]
    ensures (exists n :: 0 <= n < |ps| && ps[n].at == i) ==> PutAll(ps, a)[i] == PutAll(ps, b)[i]
  {
    if ps != [] {
      var p, t := ps[0], ps[1..];
      PutAllAt(t, a[p.at := p.val], b[p.at := p.val], i);
      PutAllAt(t, b[p.at := p.val], a[p.at := p.val], i);
      if p.at != i && exists n :: 0 <= n < |ps| && ps[n].at == i {
        var n :| 0 <= n < |ps| && ps[n].at == i;
        assert t[n - 1].at == i;
      }
    }
  }

  lemma PutAgain(part: seq<Put>, full: seq<Put>, b: Block)
    requires part <= full
    ensures PutAll(full, PutAll(part, b)) == PutAll(full, b)
  {
    var dirty := PutAll(part, b);
    forall i: Place ensures PutAll(full, dirty)[i] == PutAll(full, b)[i] {
      PutAllAt(full, dirty, b, i);
      PutAllAt(full, b, dirty, i);
      PutAllAt(part, b, b, i);
      if forall n :: 0 <= n < |full| ==> full[n].at != i {
        assert forall n :: 0 <= n < |part| ==> part[n] == full[n];
      }
    }
    hide PutAll;
    assert PutAll(full, dirty) == PutAll(full, b);
  }

  /** The block after attempts over parts of the input. */
  function AfterStalls(datas: seq<seq<byte>>, st: Register, tb: Table, o: Order, d: Scan, b: Block): Block
    decreases |datas|
  {
    if datas == [] then b
    else AfterStalls(datas[1..], st, tb, o, d, PutAll(AcFirstPuts(Concrete(datas[0]), st, tb, o, d, d.ss).puts, b))
  }

  /** However many attempts at a block of a first AC scan suspended, over whatever prefixes of the input,
      the next one ends as if it were the first. */
  lemma {:induction false} FirstRetriesAreInvisible(datas: seq<seq<byte>>, data: seq<byte>, st: Register, tb: Table,
      o: Order, d: Scan, b: Block)
    requires forall i :: 0 <= i < |datas| ==> datas[i] <= data
    ensures AcFirstBlock(Concrete(data), st, tb, o, d, AfterStalls(datas, st, tb, o, d, b), 0)
        == AcFirstBlock(Concrete(data), st, tb, o, d, b, 0)
    decreases |datas|
  {
    if datas != [] {
      var part, full := AcFirstPuts(Concrete(datas[0]), st, tb, o, d, d.ss).puts,
          AcFirstPuts(Concrete(data), st, tb, o, d, d.ss).puts;
      var more := data[|datas[0]|..];
      assert datas[0] + more == data;
      ConcreteStable(datas[0], more);
      assert Equal(st, st);
      hide AcFirstPuts, AcFirst, Concrete, Simulates, PutAll;
      PutsSimulated(Concrete(datas[0]), Concrete(data), Equal, st, st, tb, o, d, d.ss);
      FirstRetriesAreInvisible(datas[1..], data, st, tb, o, d, PutAll(part, b));
      AcFirstIsPuts(Concrete(data), st, tb, o, d, PutAll(part, b), d.ss);
      AcFirstIsPuts(Concrete(data), st, tb, o, d, b, d.ss);
      PutAgain(part, full, b);
    }
  }
}
