/** What the coefficient decoders see of the input: a way to decode a Huffman symbol and a way
    to receive raw bits.  The decoders are written once, over any such source; the prefetching
    register over a partial input and the standard's bit stream are two instances. */
module BitSources {
  import opened Wrappers
  import opened Bits
  import opened HuffTable
  import opened Canonical
  import opened BitStream
  import opened HuffDecode

  /** No request for raw bits exceeds 15. */
  type Width = n: nat | n <= 15

  /** A reading state whose register holds at most 32 unread bits. */
  type Register = st: BitState | st.left <= 32 witness BitState(0, 0, false, 0, 0)

  /** None means that the decision must wait for more input. */
  datatype BitSource<!S> = BitSource(
    symbol: (S, Table) -> Option<(byte, S)>,
    receive: (S, Width) -> Option<(nat, S)>
  )

  /** Whatever a can deliver from s, b delivers from every related t, and they stay related. */
  ghost predicate Simulates<S(!new), T(!new)>(a: BitSource<S>, b: BitSource<T>, rel: (S, T) -> bool) {
    && (forall s: S, t: T, tb: Table :: rel(s, t) && a.symbol(s, tb).Some? ==>
          Matched(a.symbol(s, tb), b.symbol(t, tb), rel))
    && (forall s: S, t: T, n: Width :: rel(s, t) && a.receive(s, n).Some? ==>
          Matched(a.receive(s, n), b.receive(t, n), rel))
  }

  ghost predicate Matched<V, S(!new), T(!new)>(x: Option<(V, S)>, y: Option<(V, T)>, rel: (S, T) -> bool) {
    x.Some? ==> y.Some? && x.value.0 == y.value.0 && rel(x.value.1, y.value.1)
  }

  // ---------------------------------------------------------------- the two sources

  /** CHECK_BIT_BUFFER then GET_BITS. */
  function Receive(data: seq<byte>, st: Register, n: Width): (r: Option<(nat, Register)>)
    ensures r.Some? ==> r.value.0 < Pow2(n)
  {
    CheckRefines(data, st, n);
    match Check(data, st, n)
    case None => None
    case Some(s) =>
      RegisterBits(data, s, n);
      Some((PeekBits(s, n), DropBits(s, n)))
  }

  function ReadSymbol(data: seq<byte>, st: Register, tb: Table): Option<(byte, Register)> {
    DecodeSymbolCorrect(data, st, tb);
    match DecodeSymbol(data, st, tb)
    case None => None
    case Some(y) => Some((y.sym, y.st))
  }

  /** The decoder's own source, over the bytes received so far. */
  function Concrete(data: seq<byte>): BitSource<Register> {
    BitSource((st: Register, tb: Table) => ReadSymbol(data, st, tb),
              (st: Register, n: Width) => Receive(data, st, n))
  }

  /** RECEIVE of section F.2.2.4. */
  function AbsReceive(s: Stream, n: Width): Option<(nat, Stream)> {
    if n <= |s.bits| || s.ended then Some((Val(Peek(s, n)), Drop(s, n))) else None
  }

  /** DECODE of section F.2.2.3. */
  function AbsSymbol(s: Stream, tb: Table): Option<(byte, Stream)> {
    match Decode(tb.spec, Peek(s, 17))
    case None => None
    case Some(d) =>
      DecodeFromExit(tb.spec, Peek(s, 17), 1);
      Some((d.sym, Drop(s, d.len)))
  }

  /** The standard's source: the de-stuffed bit stream. */
  function Abstract(): BitSource<Stream> {
    BitSource((s: Stream, tb: Table) => AbsSymbol(s, tb), (s: Stream, n: Width) => AbsReceive(s, n))
  }

  /** A table validated for DC use has categories 0..15 only. */
  ghost predicate ForDc(tb: Table) {
    forall i :: 0 <= i < Count(tb.spec, NUM_LENGTHS) ==> tb.spec.huffval[i] <= 15
  }

  lemma SymbolBound(data: seq<byte>, st: Register, tb: Table)
    requires ForDc(tb) && DecodeSymbol(data, st, tb).Some?
    ensures DecodeSymbol(data, st, tb).value.sym <= 15
  {
    DecodeSymbolCorrect(data, st, tb);
    var bs := Peek(Rest(data, st), 17);
    DecodeIsPrefixMatch(tb.spec, bs);
    if exists p: nat :: Begins(tb.spec, p, bs) {
      var p: nat :| Begins(tb.spec, p, bs);
      assert tb.spec.huffval[p] <= 15;
    }
  }

  // ---------------------------------------------------------------- how they are related

  ghost predicate Denotes(data: seq<byte>, st: Register, s: Stream) {
    Same(Rest(data, st), s)
  }

  lemma ReceiveRefines(data: seq<byte>, st: Register, s: Stream, n: Width)
    requires Denotes(data, st, s) && Receive(data, st, n).Some?
    ensures AbsReceive(s, n).Some? && AbsReceive(s, n).value.0 == Receive(data, st, n).value.0
    ensures Denotes(data, Receive(data, st, n).value.1, AbsReceive(s, n).value.1)
  {
    CheckRefines(data, st, n);
    var s1 := Check(data, st, n).value;
    RegisterBits(data, s1, n);
    SameTrans(Rest(data, s1), Rest(data, st), s);
    SameDrop(Rest(data, s1), s, n);
    assert Peek(Rest(data, s1), n) == Peek(s, n);
  }

  lemma SymbolRefines(data: seq<byte>, st: Register, s: Stream, tb: Table)
    requires Denotes(data, st, s) && ReadSymbol(data, st, tb).Some?
    ensures AbsSymbol(s, tb).Some? && AbsSymbol(s, tb).value.0 == ReadSymbol(data, st, tb).value.0
    ensures Denotes(data, ReadSymbol(data, st, tb).value.1, AbsSymbol(s, tb).value.1)
  {
    DecodeSymbolCorrect(data, st, tb);
    assert Peek(Rest(data, st), 17) == Peek(s, 17);
    var d := Decode(tb.spec, Peek(s, 17)).value;
    SameDrop(Rest(data, st), s, d.len);
    SameTrans(Rest(data, DecodeSymbol(data, st, tb).value.st), Drop(Rest(data, st), d.len), Drop(s, d.len));
  }

  /** The register refines the stream: what it delivers, the standard's reader delivers. */
  lemma ConcreteRefinesAbstract(data: seq<byte>)
    ensures Simulates(Concrete(data), Abstract(), (st, s) => Denotes(data, st, s))
  {
    var rel := (st, s) => Denotes(data, st, s);
    forall st: Register, s: Stream, tb: Table | rel(st, s) && Concrete(data).symbol(st, tb).Some?
      ensures Matched(Concrete(data).symbol(st, tb), Abstract().symbol(s, tb), rel)
    {
      SymbolRefines(data, st, s, tb);
    }
    forall st: Register, s: Stream, n: Width | rel(st, s) && Concrete(data).receive(st, n).Some?
      ensures Matched(Concrete(data).receive(st, n), Abstract().receive(s, n), rel)
    {
      ReceiveRefines(data, st, s, n);
    }
  }

  lemma ReceiveStable(data: seq<byte>, more: seq<byte>, st: Register, n: Width)
    requires Receive(data, st, n).Some?
    ensures Receive(data + more, st, n) == Receive(data, st, n)
  {
    FillStable(data, more, st, n);
  }

  ghost predicate Equal(st: Register, st': Register) {
    st == st'
  }

  /** What was delivered from part of the input is delivered unchanged from more of it. */
  lemma ConcreteStable(data: seq<byte>, more: seq<byte>)
    ensures Simulates(Concrete(data), Concrete(data + more), Equal)
  {
    forall st: Register, st': Register, tb: Table | Equal(st, st') && Concrete(data).symbol(st, tb).Some?
      ensures Matched(Concrete(data).symbol(st, tb), Concrete(data + more).symbol(st', tb), Equal)
    {
      DecodeSymbolCorrect(data, st, tb);
      DecodeSymbolStable(data, more, st, tb);
    }
    forall st: Register, st': Register, n: Width | Equal(st, st') && Concrete(data).receive(st, n).Some?
      ensures Matched(Concrete(data).receive(st, n), Concrete(data + more).receive(st', n), Equal)
    {
      ReceiveStable(data, more, st, n);
    }
  }

  // ---------------------------------------------------------------- progress

  /** A source that never runs dry from a state satisfying live, nor leaves such states. */
  ghost predicate NeverDry<S(!new)>(src: BitSource<S>, live: S -> bool) {
    && (forall s: S, tb: Table :: live(s) ==>
          var r := src.symbol(s, tb);
          r.Some? && live(r.value.1) && (ForDc(tb) ==> r.value.0 <= 15))
    && (forall s: S, n: Width :: live(s) ==> var r := src.receive(s, n); r.Some? && live(r.value.1))
  }

  /** Once a segment's end has arrived, zeros stand in for whatever is missing. */
  lemma EndedNeverDry(data: seq<byte>)
    ensures NeverDry(Concrete(data), (st: Register) => Rest(data, st).ended)
  {
    forall st: Register, tb: Table | Rest(data, st).ended
      ensures var r := ReadSymbol(data, st, tb);
          r.Some? && Rest(data, r.value.1).ended && (ForDc(tb) ==> r.value.0 <= 15)
    {
      DecodeSymbolCorrect(data, st, tb);
      if ForDc(tb) { SymbolBound(data, st, tb); }
    }
    forall st: Register, n: Width | Rest(data, st).ended
      ensures var r := Receive(data, st, n); r.Some? && Rest(data, r.value.1).ended
    {
      CheckRefines(data, st, n);
      var s := Check(data, st, n).value;
      RegisterBits(data, s, n);
    }
  }
}
