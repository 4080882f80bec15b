/** AC successive-approximation refinement (section G.1.2.3 of ITU-T T.81) and the undo logic
    that makes a suspended attempt safe to repeat. */
module Refine {
  import opened Wrappers
  import opened Bits
  import opened HuffDecode
  import opened BitSources
  import opened Zigzag

  /** Coefficients are 16-bit. */
  type Coefficient = c: int | -0x8000 <= c < 0x8000

  /** A block in natural order. */
  type Block = b: seq<Coefficient> | |b| == DCTSIZE2 witness seq(DCTSIZE2, _ => 0)

  /** Spectral band and bit position of the scan. */
  datatype Band = Band(ss: nat, se: nat, al: nat)

  type Scan = d: Band | d.ss <= d.se < DCTSIZE2 && d.al <= 13 witness Band(0, 0, 0)

  // ---------------------------------------------------------------- correction bits

  /** Bit al of c in two's complement. */
  predicate HasBit(c: int, al: nat) {
    c / Pow2(al) % 2 == 1
  }

  /** A 1 correction bit increases the magnitude by one in position al, unless that bit has
      been set already. */
  function Correct(c: Coefficient, al: nat): Coefficient {
    if HasBit(c, al) then c
    else if c >= 0 then Wrap16(c + Pow2(al)) else Wrap16(c - Pow2(al))
  }

  lemma BitFlips(c: int, p: nat)
    requires p >= 1
    ensures (c + p) / p % 2 != c / p % 2 && (c - p) / p % 2 != c / p % 2
  {
    var q, r := c / p, c % p;
    assert c == p * q + r;
    assert p * (q + 1) == p * q + p && p * (q - 1) == p * q - p;
    DivUnique(c + p, p, q + 1, r);
    DivUnique(c - p, p, q - 1, r);
    assert (q + 1) % 2 != q % 2 && (q - 1) % 2 != q % 2;
  }

  lemma BitModulo(x: int, p: nat, t: int)
    requires p >= 1
    ensures (x + p * (2 * t)) / p % 2 == x / p % 2
  {
    var q, r := x / p, x % p;
    assert x + p * (2 * t) == p * (q + 2 * t) + r by {
      assert x == p * q + r;
      assert p * (q + 2 * t) == p * q + p * (2 * t);
    }
    DivUnique(x + p * (2 * t), p, q + 2 * t, r);
  }

  lemma WrapKeepsBit(x: int, al: nat)
    requires al <= 13
    ensures HasBit(Wrap16(x), al) <==> HasBit(x, al)
  {
    var j := -(x / 0x1_0000) - (if x % 0x1_0000 >= 0x8000 then 1 else 0);
    assert Wrap16(x) == x + 0x1_0000 * j;
    var p, m := Pow2(al), Pow2(15 - al);
    assert p * m == 0x8000 by { Pow2Add(al, 15 - al); Pow2Small(); }
    assert p * (2 * (m * j)) == 0x1_0000 * j by {
      TwiceProduct(p, m * j);
      ProductAssoc(p, m, j);
    }
    BitModulo(x, p, m * j);
  }

  /** Applying a correction twice is applying it once, and no correction changes whether a
      coefficient is zero; true of every 16-bit value, wrap-around included. */
  lemma CorrectOnce(c: Coefficient, al: nat)
    requires c != 0 && al <= 13
    ensures Correct(c, al) != 0 && Correct(Correct(c, al), al) == Correct(c, al)
  {
    hide HasBit, Wrap16, Pow2;
    ZeroHasNoBit(al);
    if !HasBit(c, al) {
      FlipSets(c, if c >= 0 then c + Pow2(al) else c - Pow2(al), al);
    }
  }

  /** Moving a coefficient whose bit al is clear by one in that position sets the bit. */
  lemma FlipSets(c: int, x: int, al: nat)
    requires !HasBit(c, al) && al <= 13 && (x == c + Pow2(al) || x == c - Pow2(al))
    ensures HasBit(Wrap16(x), al)
  {
    BitFlips(c, Pow2(al));
    WrapKeepsBit(x, al);
    assert HasBit(x, al) by { hide Wrap16, Pow2; }
    hide HasBit, Wrap16, Pow2;
  }

  lemma ZeroHasNoBit(al: nat)
    ensures !HasBit(0, al)
  {
    DivUnique(0, Pow2(al), 0, 0);
  }

  // ---------------------------------------------------------------- the procedure

  /** Fetch: about to read a code.  Approach(r, v): passing over r zero coefficients towards the
      place of the new value v (v == 0: a plain run of zeros).  Tail(e): end of band, e blocks left. */
  datatype Phase = Fetch | Approach(r: nat, v: Coefficient) | Tail(e: nat)

  /** Done: the state, block and end-of-band run reached.  Stop: input ran out with the block
      in this condition, newly nonzero coefficients not yet undone. */
  datatype Outcome<+S> = Done(s: S, b: Block, e: nat) | Stop(b: Block)

  function Rank(ph: Phase): nat {
    if ph.Fetch? then 1 else 0
  }

  function Left(k: nat, d: Scan): nat {
    if k <= d.se + 2 then d.se + 2 - k else 0
  }

  /** A newly nonzero coefficient: plus or minus one in position al. */
  function NewValue(sign: nat, al: nat): (v: Coefficient)
    requires al <= 13
    ensures v != 0
  {
    SmallPower(al);
    var p: int := Pow2(al);
    if sign != 0 then p else -p
  }

  /** What a code read in phase Fetch leads to. */
  function Interpret<S>(src: BitSource<S>, s: S, tb: Table, al: nat): Option<(Phase, S)>
    requires al <= 13
  {
    match src.symbol(s, tb)
    case None => None
    case Some((y, s1)) =>
      var r, size := y / 16, y % 16;
      if size != 0 then
        match src.receive(s1, 1)
        case None => None
        case Some((v, s2)) => Some((Approach(r, NewValue(v, al)), s2))
      else if r == 15 then Some((Approach(15, 0), s1))
      else if r == 0 then Some((Tail(1), s1))
      else
        match src.receive(s1, r)
        case None => None
        case Some((v, s2)) => Some((Tail(Pow2(r) + v), s2))
  }

  lemma SmallPower(al: nat)
    requires al <= 13
    ensures Pow2(al) < 0x8000
  {
    Pow2Small();
    Pow2Mono(al, 14);
    assert Pow2(15) == 2 * Pow2(14);
  }

  /** The correction bit of a nonzero coefficient. */
  function Amend<S>(src: BitSource<S>, s: S, b: Block, p: Place, al: nat): Option<(Block, S)> {
    match src.receive(s, 1)
    case None => None
    case Some((v, s1)) => Some((if v != 0 then b[p := Correct(b[p], al)] else b, s1))
  }

  /** The rest of the block from index k on. */
  function Run<S>(src: BitSource<S>, s: S, tb: Table, o: Order, d: Scan, b: Block, k: nat, ph: Phase): Outcome<S>
    requires k <= d.se + 2 && (ph.Approach? ==> k <= d.se + 1)
    decreases Left(k, d), Rank(ph)
  {
    match ph
    case Fetch =>
      if k > d.se then Done(s, b, 0)
      else
        (match Interpret(src, s, tb, d.al)
         case None => Stop(b)
         case Some((ph', s1)) => Run(src, s1, tb, o, d, b, k, ph'))
    case Approach(r, v) =>
      if k <= d.se && b[o[k]] != 0 then
        match Amend(src, s, b, o[k], d.al)
        case None => Stop(b)
        case Some((b1, s1)) => Run(src, s1, tb, o, d, b1, k + 1, ph)
      else if k <= d.se && r > 0 then
        Run(src, s, tb, o, d, b, k + 1, Approach(r - 1, v))
      else
        Run(src, s, tb, o, d, if v != 0 then b[o[k] := v] else b, k + 1, Fetch)
    case Tail(e) =>
      if k > d.se then Done(s, b, if e > 0 then e - 1 else 0)
      else if b[o[k]] != 0 then
        match Amend(src, s, b, o[k], d.al)
        case None => Stop(b)
        case Some((b1, s1)) => Run(src, s1, tb, o, d, b1, k + 1, ph)
      else Run(src, s, tb, o, d, b, k + 1, ph)
  }

  /** Where a new value lands. */
  ghost function Landed(b: Block, o: Order, k: nat, v: Coefficient): Block
    requires k <= DCTSIZE2
  {
    if v != 0 then b[o[k] := v] else b
  }

  /** One nonzero coefficient passed. */
  lemma PassNonzero<S>(src: BitSource<S>, s: S, tb: Table, o: Order, d: Scan, b: Block, k: nat, ph: Phase)
    requires k <= d.se && b[o[k]] != 0 && !ph.Fetch?
    ensures Run(src, s, tb, o, d, b, k, ph) ==
      match Amend(src, s, b, o[k], d.al)
      case None => Stop(b)
      case Some((b1, s1)) => Run(src, s1, tb, o, d, b1, k + 1, ph)
  {
  }

  /** One zero coefficient passed on the way to a new value. */
  lemma PassZero<S>(src: BitSource<S>, s: S, tb: Table, o: Order, d: Scan, b: Block, k: nat, r: nat, v: Coefficient)
    requires k <= d.se && b[o[k]] == 0 && r > 0
    ensures Run(src, s, tb, o, d, b, k, Approach(r, v)) == Run(src, s, tb, o, d, b, k + 1, Approach(r - 1, v))
  {
  }

  /** The run is over: the new value lands and the next code is due. */
  lemma Lands<S>(src: BitSource<S>, s: S, tb: Table, o: Order, d: Scan, b: Block, k: nat, r: nat, v: Coefficient)
    requires k <= d.se + 1 && (k > d.se || (b[o[k]] == 0 && r == 0))
    ensures Run(src, s, tb, o, d, b, k, Approach(r, v)) == Run(src, s, tb, o, d, Landed(b, o, k, v), k + 1, Fetch)
  {
  }

  /** One coefficient passed after the end of band. */
  lemma PassTail<S>(src: BitSource<S>, s: S, tb: Table, o: Order, d: Scan, b: Block, k: nat, e: nat)
    requires k <= d.se && b[o[k]] == 0
    ensures Run(src, s, tb, o, d, b, k, Tail(e)) == Run(src, s, tb, o, d, b, k + 1, Tail(e))
  {
  }

  /** One block: inside an end-of-band run only corrections are read. */
  function RefineBlock<S>(src: BitSource<S>, s: S, tb: Table, o: Order, d: Scan, b: Block, eobRun: nat): Outcome<S> {
    Run(src, s, tb, o, d, b, d.ss, if eobRun > 0 then Tail(eobRun) else Fetch)
  }

  /** The undo step: every coefficient that was zero is made zero again; corrections stay. */
  function Undo(stopped: Block, before: Block): Block {
    seq(DCTSIZE2, i requires 0 <= i < DCTSIZE2 => if before[i] == 0 then 0 else stopped[i])
  }

  // ---------------------------------------------------------------- repeating an attempt

  ghost predicate Within(o: Order, p: Place, k: nat, se: nat)
    requires se < DCTSIZE2
  {
    exists j :: k <= j <= se && o[j] == p
  }

  /** An attempt that ran out of input touched only places from k to the end of the band. */
  lemma {:induction false} StopFrame<S>(src: BitSource<S>, s: S, tb: Table, o: Order, d: Scan, b: Block, k: nat,
      ph: Phase, p: Place)
    requires k <= d.se + 2 && (ph.Approach? ==> k <= d.se + 1)
    requires Run(src, s, tb, o, d, b, k, ph).Stop? && !Within(o, p, k, d.se)
    ensures Run(src, s, tb, o, d, b, k, ph).b[p] == b[p]
    decreases Left(k, d), Rank(ph)
  {
    if k <= d.se { assert o[k] != p; }
    assert !Within(o, p, k + 1, d.se);
    match ph
    case Fetch =>
      if k <= d.se && Interpret(src, s, tb, d.al).Some? {
        var (ph', s1) := Interpret(src, s, tb, d.al).value;
        StopFrame(src, s1, tb, o, d, b, k, ph', p);
      }
    case Approach(r, v) =>
      if k <= d.se && b[o[k]] != 0 {
        if Amend(src, s, b, o[k], d.al).Some? {
          var (b1, s1) := Amend(src, s, b, o[k], d.al).value;
          StopFrame(src, s1, tb, o, d, b1, k + 1, ph, p);
        }
      } else if k <= d.se && r > 0 {
        StopFrame(src, s, tb, o, d, b, k + 1, Approach(r - 1, v), p);
      } else {
        StopFrame(src, s, tb, o, d, if v != 0 then b[o[k] := v] else b, k + 1, Fetch, p);
      }
    case Tail(e) =>
      if k <= d.se {
        if b[o[k]] != 0 {
          if Amend(src, s, b, o[k], d.al).Some? {
            var (b1, s1) := Amend(src, s, b, o[k], d.al).value;
            StopFrame(src, s1, tb, o, d, b1, k + 1, ph, p);
          }
        } else {
          StopFrame(src, s, tb, o, d, b, k + 1, ph, p);
        }
      }
  }

  ghost predicate Same<S>(x: S, y: S) {
    x == y
  }

  lemma InterpretSame<S(!new)>(a: BitSource<S>, b: BitSource<S>, s: S, tb: Table, al: nat)
    requires Simulates(a, b, Same) && al <= 13 && Interpret(a, s, tb, al).Some?
    ensures Interpret(b, s, tb, al) == Interpret(a, s, tb, al)
  {
    assert Same(s, s);
    assert Matched(a.symbol(s, tb), b.symbol(s, tb), Same);
    var (y, s1) := a.symbol(s, tb).value;
    assert Same(s1, s1);
    if y % 16 != 0 {
      assert Matched(a.receive(s1, 1), b.receive(s1, 1), Same);
    } else if 0 < y / 16 < 15 {
      assert Matched(a.receive(s1, y / 16), b.receive(s1, y / 16), Same);
    }
  }

  lemma ReceiveSame<S(!new)>(a: BitSource<S>, b: BitSource<S>, s: S, n: Width)
    requires Simulates(a, b, Same) && a.receive(s, n).Some?
    ensures b.receive(s, n) == a.receive(s, n)
  {
    assert Same(s, s);
    assert Matched(a.receive(s, n), b.receive(s, n), Same);
  }

  lemma UndoSamePattern(stopped: Block, b: Block, b': Block)
    requires forall i :: 0 <= i < DCTSIZE2 ==> (b[i] == 0 <==> b'[i] == 0)
    ensures Undo(stopped, b) == Undo(stopped, b')
  {
  }

  /** Repeating the correction of place p on the undone block leaves the undone block. */
  lemma AmendAgain<S(!new)>(a: BitSource<S>, b: BitSource<S>, s: S, blk: Block, p: Place, al: nat, stopped: Block)
    requires Simulates(a, b, Same) && al <= 13 && blk[p] != 0 && Amend(a, s, blk, p, al).Some?
    requires stopped[p] == Amend(a, s, blk, p, al).value.0[p]
    ensures var r := Amend(a, s, blk, p, al).value;
      && Amend(b, s, blk, p, al) == Some(r)
      && Undo(stopped, blk)[p] != 0
      && Amend(b, s, Undo(stopped, blk), p, al) == Some((Undo(stopped, r.0), r.1))
  {
    ReceiveSame(a, b, s, 1);
    CorrectOnce(blk[p], al);
    var r := Amend(a, s, blk, p, al).value;
    UndoSamePattern(stopped, blk, r.0);
    var u := Undo(stopped, blk);
    assert u[p := u[p]] == u;
  }

  /** An attempt under a that ran out of input, undone and repeated under b (which has all the
      input a had, and more), goes exactly as under b from the original block. */
  lemma {:induction false} RunAgain<S(!new)>(a: BitSource<S>, b: BitSource<S>, s: S, tb: Table, o: Order, d: Scan,
      blk: Block, k: nat, ph: Phase)
    requires Simulates(a, b, Same)
    requires k <= d.se + 2 && (ph.Approach? ==> k <= d.se + 1)
    requires Run(a, s, tb, o, d, blk, k, ph).Stop?
    ensures var stopped := Run(a, s, tb, o, d, blk, k, ph).b;
      Run(b, s, tb, o, d, Undo(stopped, blk), k, ph) == Run(b, s, tb, o, d, blk, k, ph)
    decreases Left(k, d), Rank(ph)
  {
    var stopped := Run(a, s, tb, o, d, blk, k, ph).b;
    if stopped == blk {
      assert Undo(stopped, blk) == blk;
    } else if ph.Fetch? {
      InterpretSame(a, b, s, tb, d.al);
      var (ph', s1) := Interpret(a, s, tb, d.al).value;
      RunAgain(a, b, s1, tb, o, d, blk, k, ph');
    } else if k <= d.se && blk[o[k]] != 0 {
      var (b1, s1) := Amend(a, s, blk, o[k], d.al).value;
      PlaceSettled(a, s1, tb, o, d, b1, k, ph);
      AmendAgain(a, b, s, blk, o[k], d.al, stopped);
      RunAgain(a, b, s1, tb, o, d, b1, k + 1, ph);
    } else if ph.Tail? {
      RunAgain(a, b, s, tb, o, d, blk, k + 1, ph);
    } else if k <= d.se && ph.r > 0 {
      RunAgain(a, b, s, tb, o, d, blk, k + 1, Approach(ph.r - 1, ph.v));
    } else {
      LandAgain(a, s, tb, o, d, blk, k, ph.v, stopped);
      RunAgain(a, b, s, tb, o, d, if ph.v != 0 then blk[o[k] := ph.v] else blk, k + 1, Fetch);
    }
  }

  /** The place of index k is final once the run has moved past it. */
  lemma PlaceSettled<S>(src: BitSource<S>, s: S, tb: Table, o: Order, d: Scan, b: Block, k: nat, ph: Phase)
    requires k <= d.se && Run(src, s, tb, o, d, b, k + 1, ph).Stop?
    ensures Run(src, s, tb, o, d, b, k + 1, ph).b[o[k]] == b[o[k]]
  {
    assert !Within(o, o[k], k + 1, d.se);
    StopFrame(src, s, tb, o, d, b, k + 1, ph, o[k]);
  }

  /** A newly nonzero coefficient was zero before, so it is undone, and stored again. */
  lemma LandAgain<S>(src: BitSource<S>, s: S, tb: Table, o: Order, d: Scan, blk: Block, k: nat, v: Coefficient,
      stopped: Block)
    requires k <= d.se + 1 && (k <= d.se ==> blk[o[k]] == 0)
    requires var b1: Block := if v != 0 then blk[o[k] := v] else blk;
      Run(src, s, tb, o, d, b1, k + 1, Fetch) == Stop(stopped)
    ensures k <= d.se && Undo(stopped, blk)[o[k]] == 0
    ensures var b1: Block := if v != 0 then blk[o[k] := v] else blk;
      Undo(stopped, b1) == if v != 0 then Undo(stopped, blk)[o[k] := v] else Undo(stopped, blk)
  {
    var b1: Block := if v != 0 then blk[o[k] := v] else blk;
    if k <= d.se {
      PlaceSettled(src, s, tb, o, d, b1, k, Fetch);
    }
  }

  /** No attempt makes a nonzero coefficient zero. */
  lemma {:induction false} StopKeepsNonzero<S>(src: BitSource<S>, s: S, tb: Table, o: Order, d: Scan, b: Block, k: nat,
      ph: Phase, p: Place)
    requires k <= d.se + 2 && (ph.Approach? ==> k <= d.se + 1)
    requires Run(src, s, tb, o, d, b, k, ph).Stop? && b[p] != 0
    ensures Run(src, s, tb, o, d, b, k, ph).b[p] != 0
    decreases Left(k, d), Rank(ph)
  {
    if k <= d.se && b[o[k]] != 0 { CorrectOnce(b[o[k]], d.al); }
    hide HasBit, Wrap16, Correct;
    match ph
    case Fetch =>
      if k <= d.se && Interpret(src, s, tb, d.al).Some? {
        var (ph', s1) := Interpret(src, s, tb, d.al).value;
        StopKeepsNonzero(src, s1, tb, o, d, b, k, ph', p);
      }
    case Approach(r, v) =>
      if k <= d.se && b[o[k]] != 0 {
        if Amend(src, s, b, o[k], d.al).Some? {
          var (b1, s1) := Amend(src, s, b, o[k], d.al).value;
          StopKeepsNonzero(src, s1, tb, o, d, b1, k + 1, ph, p);
        }
      } else if k <= d.se && r > 0 {
        StopKeepsNonzero(src, s, tb, o, d, b, k + 1, Approach(r - 1, v), p);
      } else {
        StopKeepsNonzero(src, s, tb, o, d, if v != 0 then b[o[k] := v] else b, k + 1, Fetch, p);
      }
    case Tail(e) =>
      if k <= d.se {
        if b[o[k]] != 0 {
          if Amend(src, s, b, o[k], d.al).Some? {
            var (b1, s1) := Amend(src, s, b, o[k], d.al).value;
            StopKeepsNonzero(src, s1, tb, o, d, b1, k + 1, ph, p);
          }
        } else {
          StopKeepsNonzero(src, s, tb, o, d, b, k + 1, ph, p);
        }
      }
  }

  // ---------------------------------------------------------------- retries

  /** The block after attempts over growing prefixes of the input, all of which suspended. */
  ghost predicate AllSuspend(datas: seq<seq<byte>>, st: Register, tb: Table, o: Order, d: Scan, b: Block, eobRun: nat)
    decreases |datas|
  {
    datas == [] ||
    var r := RefineBlock(Concrete(datas[0]), st, tb, o, d, b, eobRun);
    r.Stop? && AllSuspend(datas[1..], st, tb, o, d, Undo(r.b, b), eobRun)
  }

  ghost function AfterAttempts(datas: seq<seq<byte>>, st: Register, tb: Table, o: Order, d: Scan, b: Block,
      eobRun: nat): Block
    requires AllSuspend(datas, st, tb, o, d, b, eobRun)
    decreases |datas|
  {
    if datas == [] then b
    else AfterAttempts(datas[1..], st, tb, o, d, Undo(RefineBlock(Concrete(datas[0]), st, tb, o, d, b, eobRun).b, b),
        eobRun)
  }

  /** Main result: however many attempts suspended, over whatever prefixes of the input, the next
      attempt ends in exactly the state, block and end-of-band run of one uninterrupted attempt on
      the untouched block.  No assumption is made about the coefficients or the data. */
  lemma {:induction false} RetriesAreInvisible(datas: seq<seq<byte>>, data: seq<byte>, st: Register, tb: Table,
      o: Order, d: Scan, b: Block, eobRun: nat)
    requires AllSuspend(datas, st, tb, o, d, b, eobRun)
    requires forall i :: 0 <= i < |datas| ==> datas[i] <= data
    ensures RefineBlock(Concrete(data), st, tb, o, d, AfterAttempts(datas, st, tb, o, d, b, eobRun), eobRun)
         == RefineBlock(Concrete(data), st, tb, o, d, b, eobRun)
    decreases |datas|
  {
    if datas != [] {
      var r := RefineBlock(Concrete(datas[0]), st, tb, o, d, b, eobRun);
      var more := data[|datas[0]|..];
      assert datas[0] + more == data;
      ConcreteStable(datas[0], more);
      EqualIsSame(Concrete(datas[0]), Concrete(data));
      RunAgain(Concrete(datas[0]), Concrete(data), st, tb, o, d, b, d.ss, if eobRun > 0 then Tail(eobRun) else Fetch);
      RetriesAreInvisible(datas[1..], data, st, tb, o, d, Undo(r.b, b), eobRun);
    }
  }

  lemma EqualIsSame(a: BitSource<Register>, b: BitSource<Register>)
    requires Simulates(a, b, Equal)
    ensures Simulates(a, b, Same)
  {
    forall s: Register, t: Register, tb: Table | Same(s, t) && a.symbol(s, tb).Some?
      ensures Matched(a.symbol(s, tb), b.symbol(t, tb), Same)
    {
      assert Equal(s, t);
      assert Matched(a.symbol(s, tb), b.symbol(t, tb), Equal);
    }
    forall s: Register, t: Register, n: Width | Same(s, t) && a.receive(s, n).Some?
      ensures Matched(a.receive(s, n), b.receive(t, n), Same)
    {
      assert Equal(s, t);
      assert Matched(a.receive(s, n), b.receive(t, n), Equal);
    }
  }
}
