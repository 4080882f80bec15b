/** One block of the sequential decoder (sections F.2.2.1 and F.2.2.2 of ITU-T T.81): the
    difference coding of DC, the run-length coding of AC, and the coefficients they store. */
module Coefficients {
  import opened Wrappers
  import opened Bits
  import opened HuffDecode
  import opened BitSources
  import opened Zigzag

  /** HUFF_EXTEND: the signed value whose s appended bits are x (Figure F.12). */
  function Extend(x: nat, s: nat): int
    requires 1 <= s <= 15
  {
    if x < Pow2(s - 1) then x + 1 - Pow2(s) else x
  }

  /** The s bits an encoder appends for v: v itself, or v - 1 in two's complement when negative. */
  function Appended(v: int, s: nat): nat {
    if v < 0 then (v - 1 + Pow2(s)) % Pow2(s) else v % Pow2(s)
  }

  /** v belongs to magnitude category s of Table F.1. */
  ghost predicate Category(v: int, s: nat)
    requires s >= 1
  {
    Pow2(s - 1) <= (if v < 0 then -v else v) < Pow2(s)
  }

  lemma ExtendAppended(v: int, s: nat)
    requires 1 <= s <= 15 && Category(v, s)
    ensures Appended(v, s) < Pow2(s) && Extend(Appended(v, s), s) == v
  {
    var p, h := Pow2(s), Pow2(s - 1);
    assert p == 2 * h;
    hide Pow2;
    if v < 0 { DivUnique(v - 1 + p, p, 0, v - 1 + p); } else { DivUnique(v, p, 0, v); }
  }

  lemma AppendedExtend(x: nat, s: nat)
    requires 1 <= s <= 15 && x < Pow2(s)
    ensures Category(Extend(x, s), s) && Appended(Extend(x, s), s) == x
  {
    var p, h := Pow2(s), Pow2(s - 1);
    assert p == 2 * h;
    hide Pow2;
    DivUnique(x, p, 0, x);
  }

  /** Extending is the inverse of appending, both ways, within a category. */
  lemma ExtendInverse(v: int, x: nat, s: nat)
    requires 1 <= s <= 15
    ensures Category(v, s) ==> Appended(v, s) < Pow2(s) && Extend(Appended(v, s), s) == v
    ensures x < Pow2(s) ==> Category(Extend(x, s), s) && Appended(Extend(x, s), s) == x
  {
    hide *;
    if Category(v, s) { ExtendAppended(v, s); }
    if x < Pow2(s) { AppendedExtend(x, s); }
  }

  // ---------------------------------------------------------------- stores

  /** One coefficient store: zigzag index k of block blk. */
  datatype Write = Write(blk: nat, k: nat, val: int)

  /** Where it goes in an MCU's blocks, laid end to end. */
  function Offset(w: Write): nat {
    DCTSIZE2 * w.blk + NaturalOrder(w.k)
  }

  function Store(w: Write, base: seq<int>): (r: seq<int>)
    ensures |r| == |base|
  {
    if Offset(w) < |base| then base[Offset(w) := w.val] else base
  }

  function Apply(ws: seq<Write>, base: seq<int>): (r: seq<int>)
    ensures |r| == |base|
  {
    if ws == [] then base else Store(ws[|ws| - 1], Apply(ws[..|ws| - 1], base))
  }

  lemma {:induction false} ApplyConcat(a: seq<Write>, b: seq<Write>, base: seq<int>)
    ensures Apply(a + b, base) == Apply(b, Apply(a, base))
  {
    if b == [] {
      assert a + b == a;
    } else {
      assert (a + b)[..|a + b| - 1] == a + b[..|b| - 1];
      ApplyConcat(a, b[..|b| - 1], base);
    }
  }

  lemma ApplySnoc(ws: seq<Write>, w: Write, base: seq<int>)
    ensures Apply(ws + [w], base) == Store(w, Apply(ws, base))
  {
    assert (ws + [w])[..|ws + [w]| - 1] == ws;
  }

  /** Two bases that differ only where ws stores end up equal. */
  lemma {:induction false} ApplyForgets(ws: seq<Write>, a: seq<int>, b: seq<int>, i: nat)
    requires |a| == |b| && i < |a|
    ensures (forall k :: 0 <= k < |ws| ==> Offset(ws[k]) != i) ==> Apply(ws, a)[i] == a[i]
    ensures (exists k :: 0 <= k < |ws| && Offset(ws[k]) == i) ==> Apply(ws, a)[i] == Apply(ws, b)[i]
  {
    if ws != [] {
      var h := ws[..|ws| - 1];
      ApplyForgets(h, a, b, i);
      if Offset(ws[|ws| - 1]) != i && exists k :: 0 <= k < |ws| && Offset(ws[k]) == i {
        var k :| 0 <= k < |ws| && Offset(ws[k]) == i;
        assert Offset(h[k]) == i;
      }
    }
  }

  /** Stores left behind by an abandoned attempt are harmless: repeating the attempt in full
      overwrites every one of them. */
  lemma RedoOverwrites(part: seq<Write>, full: seq<Write>, base: seq<int>)
    requires part <= full
    ensures Apply(full, Apply(part, base)) == Apply(full, base)
  {
    var dirty := Apply(part, base);
    forall i | 0 <= i < |base| ensures Apply(full, dirty)[i] == Apply(full, base)[i] {
      ApplyForgets(full, dirty, base, i);
      ApplyForgets(full, base, dirty, i);
      ApplyForgets(part, base, base, i);
      if forall k :: 0 <= k < |full| ==> Offset(full[k]) != i {
        assert forall k :: 0 <= k < |part| ==> part[k] == full[k];
      }
    }
  }

  // ---------------------------------------------------------------- decoding

  /** Stores made so far, and the state reached unless input ran out. */
  datatype Attempt<+S> = Attempt(writes: seq<Write>, out: Option<S>)

  function Keep(needed: bool, blk: nat, k: nat, val: int): seq<Write> {
    if needed then [Write(blk, k, Wrap16(val))] else []
  }

  /** A DC difference: a category and that many appended bits.  Tables validated for DC use
      define no category above 15. */
  function DecodeDiff<S>(src: BitSource<S>, s: S, tb: Table): Option<(int, S)> {
    match src.symbol(s, tb)
    case None => None
    case Some((y, s1)) =>
      if y == 0 then Some((0, s1))
      else if y > 15 then None
      else
        match src.receive(s1, y)
        case None => None
        case Some((x, s2)) => Some((Extend(x, y), s2))
  }

  /** One symbol of the AC procedure: end of block, sixteen zeros, or a run of zeros and a value. */
  datatype AcStep<+S> = NoData | Eob(rest: S) | ZeroRun(rest: S) | Coef(run: nat, val: int, rest: S)

  function ReadAc<S>(src: BitSource<S>, s: S, tb: Table): (r: AcStep<S>)
    ensures r.Coef? ==> r.run <= 15
  {
    match src.symbol(s, tb)
    case None => NoData
    case Some((y, s1)) =>
      var r, size := y / 16, y % 16;
      if size != 0 then
        match src.receive(s1, size)
        case None => NoData
        case Some((x, s2)) => Coef(r, Extend(x, size), s2)
      else if r != 15 then Eob(s1)
      else ZeroRun(s1)
  }

  /** The AC coefficients from zigzag index k on, stored in block blk when needed. */
  function DecodeAc<S>(src: BitSource<S>, s: S, tb: Table, needed: bool, blk: nat, k: nat): Attempt<S>
    decreases DCTSIZE2 + 16 - k
  {
    if k >= DCTSIZE2 then Attempt([], Some(s))
    else
      match ReadAc(src, s, tb)
      case NoData => Attempt([], None)
      case Eob(s1) => Attempt([], Some(s1))
      case ZeroRun(s1) => DecodeAc(src, s1, tb, needed, blk, k + 16)
      case Coef(r, v, s1) => Before(Keep(needed, blk, k + r, v), DecodeAc(src, s1, tb, needed, blk, k + r + 1))
  }

  function Before<S>(ws: seq<Write>, a: Attempt<S>): Attempt<S> {
    Attempt(ws + a.writes, a.out)
  }

  // ---------------------------------------------------------------- simulation

  /** b gets at least as far as a: a's stores first, and the same stores and a related state
      when a has finished. */
  ghost predicate Extends<S(!new), T(!new)>(a: Attempt<S>, b: Attempt<T>, rel: (S, T) -> bool) {
    && a.writes <= b.writes
    && (a.out.Some? ==> b.out.Some? && a.writes == b.writes && rel(a.out.value, b.out.value))
  }

  lemma DiffSimulated<S(!new), T(!new)>(a: BitSource<S>, b: BitSource<T>, rel: (S, T) -> bool, s: S, t: T, tb: Table)
    requires Simulates(a, b, rel) && rel(s, t)
    ensures Matched(DecodeDiff(a, s, tb), DecodeDiff(b, t, tb), rel)
  {
    if a.symbol(s, tb).Some? {
      assert Matched(a.symbol(s, tb), b.symbol(t, tb), rel);
      var (y, s1) := a.symbol(s, tb).value;
      var (_, t1) := b.symbol(t, tb).value;
      if 0 < y <= 15 && a.receive(s1, y).Some? {
        assert Matched(a.receive(s1, y), b.receive(t1, y), rel);
      }
    }
  }

  lemma ReadAcSimulated<S(!new), T(!new)>(a: BitSource<S>, b: BitSource<T>, rel: (S, T) -> bool, s: S, t: T, tb: Table)
    requires Simulates(a, b, rel) && rel(s, t) && !ReadAc(a, s, tb).NoData?
    ensures var x, y := ReadAc(a, s, tb), ReadAc(b, t, tb);
      && (x.Eob? <==> y.Eob?) && (x.ZeroRun? <==> y.ZeroRun?) && (x.Coef? <==> y.Coef?)
      && (x.Coef? ==> x.run == y.run && x.val == y.val)
      && rel(x.rest, y.rest)
  {
    assert Matched(a.symbol(s, tb), b.symbol(t, tb), rel);
    var (y, s1) := a.symbol(s, tb).value;
    var (_, t1) := b.symbol(t, tb).value;
    if y % 16 != 0 {
      assert Matched(a.receive(s1, y % 16), b.receive(t1, y % 16), rel);
    }
  }

  lemma {:induction false} AcSimulated<S(!new), T(!new)>(a: BitSource<S>, b: BitSource<T>, rel: (S, T) -> bool, s: S,
      t: T, tb: Table, needed: bool, blk: nat, k: nat)
    requires Simulates(a, b, rel) && rel(s, t)
    ensures Extends(DecodeAc(a, s, tb, needed, blk, k), DecodeAc(b, t, tb, needed, blk, k), rel)
    decreases DCTSIZE2 + 16 - k
  {
    if k < DCTSIZE2 && !ReadAc(a, s, tb).NoData? {
      ReadAcSimulated(a, b, rel, s, t, tb);
      var x, y := ReadAc(a, s, tb), ReadAc(b, t, tb);
      if x.ZeroRun? {
        AcSimulated(a, b, rel, x.rest, y.rest, tb, needed, blk, k + 16);
      } else if x.Coef? {
        AcSimulated(a, b, rel, x.rest, y.rest, tb, needed, blk, k + x.run + 1);
        BeforeExtends(Keep(needed, blk, k + x.run, x.val),
                      DecodeAc(a, x.rest, tb, needed, blk, k + x.run + 1),
                      DecodeAc(b, y.rest, tb, needed, blk, k + x.run + 1), rel);
      }
    }
  }

  lemma BeforeExtends<S(!new), T(!new)>(ws: seq<Write>, a: Attempt<S>, b: Attempt<T>, rel: (S, T) -> bool)
    requires Extends(a, b, rel)
    ensures Extends(Before(ws, a), Before(ws, b), rel)
  {
  }
}
