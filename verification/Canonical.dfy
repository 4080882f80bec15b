/** The plain bit-at-a-time Huffman decoder of section F.2.2.3 of ITU-T T.81, and
    what it means: it finds the one table position whose code begins the input. */
module Canonical {
  import opened Wrappers
  import opened Bits
  import opened HuffTable

  /** A decoded symbol and the number of bits it took. */
  datatype Decoded = Decoded(sym: byte, len: nat)

  ghost predicate Good(t: HuffTbl) {
    Sized(t) && Count(t, NUM_LENGTHS) <= 256 && AllFit(t)
  }

  /** MAXCODE of section F.2.2.3: -1 when there is no code of this length. */
  function MaxCode(t: HuffTbl, l: nat): int
    requires |t.bits| == 17 && 1 <= l <= NUM_LENGTHS
  {
    if t.bits[l] == 0 then -1 else FirstCode(t, l) + t.bits[l] - 1
  }

  lemma ValStep(bs: seq<bool>, l: nat)
    requires l < |bs|
    ensures Val(bs[..l + 1]) == 2 * Val(bs[..l]) + (if bs[l] then 1 else 0)
  {
    assert bs[..l + 1][..l] == bs[..l];
  }

  /** The DECODE loop entered with l bits collected; None means it ran out of bits.
      Seventeen bits without a match is garbage and decodes as symbol 0. */
  function DecodeFrom(t: HuffTbl, bs: seq<bool>, l: nat): Option<Decoded>
    requires Sized(t) && Count(t, NUM_LENGTHS) <= 256 && 1 <= l <= NUM_LENGTHS + 1
    requires l <= NUM_LENGTHS && l <= |bs| ==> FirstCode(t, l) <= Val(bs[..l])
    decreases NUM_LENGTHS + 1 - l
  {
    if |bs| < l then None
    else if l == NUM_LENGTHS + 1 then Some(Decoded(0, l))
    else
      var code := Val(bs[..l]);
      if code > MaxCode(t, l) then
        assert l < |bs| ==> Val(bs[..l + 1]) >= FirstCode(t, l + 1) by {
          if l < |bs| { ValStep(bs, l); }
        }
        DecodeFrom(t, bs, l + 1)
      else
        Some(Decoded(SymbolOf(t, l, code), l))
  }

  function Decode(t: HuffTbl, bs: seq<bool>): Option<Decoded>
    requires Sized(t) && Count(t, NUM_LENGTHS) <= 256
  {
    DecodeFrom(t, bs, 1)
  }

  ghost predicate IsEntry(t: HuffTbl, p: nat)
    requires |t.bits| == 17
  {
    p < Count(t, NUM_LENGTHS)
  }

  ghost predicate Begins(t: HuffTbl, p: nat, bs: seq<bool>)
    requires |t.bits| == 17
  {
    IsEntry(t, p) && CodeBits(t, p) <= bs
  }

  /** Above the codes of its length the loop goes on to the next bit. */
  lemma DecodeOn(t: HuffTbl, bs: seq<bool>, l: nat)
    requires Sized(t) && Count(t, NUM_LENGTHS) <= 256 && 1 <= l <= NUM_LENGTHS && l < |bs|
    requires FirstCode(t, l) + t.bits[l] <= Val(bs[..l])
    ensures l + 1 <= NUM_LENGTHS ==> FirstCode(t, l + 1) <= Val(bs[..l + 1])
    ensures DecodeFrom(t, bs, l) == DecodeFrom(t, bs, l + 1)
  {
    ValStep(bs, l);
  }

  /** If the code at position p begins the input, no earlier exit is taken. */
  lemma {:induction false} DecodeFromFinds(t: HuffTbl, bs: seq<bool>, l: nat, p: nat)
    requires Good(t) && Begins(t, p, bs) && 1 <= l <= Length(t, p)
    requires FirstCode(t, l) <= Val(bs[..l])
    ensures DecodeFrom(t, bs, l) == Some(Decoded(t.huffval[p], Length(t, p)))
    decreases Length(t, p) - l
  {
    var m := Length(t, p);
    if l < m {
      CodeAboveShorter(t, l, p);
      assert CodeBits(t, p)[..l] == bs[..l];
      hide Val, CodeBits, Length, AllFit, DecodeFrom;
      DecodeOn(t, bs, l);
      DecodeFromFinds(t, bs, l + 1, p);
    } else {
      CodeValue(t, p);
      CodeInRange(t, p);
      assert bs[..l] == CodeBits(t, p);
      hide Val, CodeBits, Length, AllFit;
    }
  }

  /** A word in the code range of its length is the code of a table position. */
  lemma EntryAt(t: HuffTbl, bs: seq<bool>, l: nat) returns (p: nat)
    requires Good(t) && 1 <= l <= NUM_LENGTHS && l <= |bs|
    requires FirstCode(t, l) <= Val(bs[..l]) < FirstCode(t, l) + t.bits[l]
    ensures Begins(t, p, bs) && Length(t, p) == l && t.huffval[p] == SymbolOf(t, l, Val(bs[..l]))
  {
    var w := bs[..l];
    p := Count(t, l - 1) + (Val(w) - FirstCode(t, l));
    CountMono(t, l, NUM_LENGTHS);
    LengthUnique(t, p, l, Length(t, p));
    assert Code(t, p) == Val(w);
    ToBitsVal(w);
    assert CodeBits(t, p) == w;
  }

  /** Every exit before the sentinel is at a code that begins the input. */
  lemma {:induction false} DecodeFromMatches(t: HuffTbl, bs: seq<bool>, l: nat) returns (p: nat)
    requires Good(t) && 1 <= l <= NUM_LENGTHS + 1
    requires l <= NUM_LENGTHS && l <= |bs| ==> FirstCode(t, l) <= Val(bs[..l])
    requires DecodeFrom(t, bs, l).Some? && DecodeFrom(t, bs, l).value.len <= NUM_LENGTHS
    ensures Begins(t, p, bs) && l <= Length(t, p)
    ensures DecodeFrom(t, bs, l) == Some(Decoded(t.huffval[p], Length(t, p)))
    decreases NUM_LENGTHS + 1 - l
  {
    var code := Val(bs[..l]);
    if code > MaxCode(t, l) {
      if l < |bs| { ValStep(bs, l); }
      p := DecodeFromMatches(t, bs, l + 1);
    } else {
      p := EntryAt(t, bs, l);
    }
  }

  /** Main result: the decoder stops with the symbol and length of the position whose code
      begins the input; it reports garbage (17 bits, symbol 0) exactly when 17 bits are there
      and no code begins them; and it starves exactly when neither has happened yet. */
  lemma DecodeIsPrefixMatch(t: HuffTbl, bs: seq<bool>)
    requires Good(t)
    ensures forall p: nat :: Begins(t, p, bs) ==> Decode(t, bs) == Some(Decoded(t.huffval[p], Length(t, p)))
    ensures (forall p: nat :: !Begins(t, p, bs)) ==>
              Decode(t, bs) == if |bs| >= NUM_LENGTHS + 1 then Some(Decoded(0, NUM_LENGTHS + 1)) else None
  {
    forall p: nat | Begins(t, p, bs)
      ensures Decode(t, bs) == Some(Decoded(t.huffval[p], Length(t, p)))
    {
      DecodeFromFinds(t, bs, 1, p);
    }
    if Decode(t, bs).Some? && Decode(t, bs).value.len <= NUM_LENGTHS {
      var p := DecodeFromMatches(t, bs, 1);
    } else {
      DecodeFromExit(t, bs, 1);
    }
  }

  lemma {:induction false} DecodeFromExit(t: HuffTbl, bs: seq<bool>, l: nat)
    requires Good(t) && 1 <= l <= NUM_LENGTHS + 1
    requires l <= NUM_LENGTHS && l <= |bs| ==> FirstCode(t, l) <= Val(bs[..l])
    ensures DecodeFrom(t, bs, l).None? ==> |bs| < NUM_LENGTHS + 1
    ensures DecodeFrom(t, bs, l).Some? ==> l <= DecodeFrom(t, bs, l).value.len <= |bs|
    ensures DecodeFrom(t, bs, l).Some? && DecodeFrom(t, bs, l).value.len > NUM_LENGTHS ==>
              DecodeFrom(t, bs, l) == Some(Decoded(0, NUM_LENGTHS + 1))
    decreases NUM_LENGTHS + 1 - l
  {
    if l <= |bs| && l <= NUM_LENGTHS && Val(bs[..l]) > MaxCode(t, l) {
      if l < |bs| { ValStep(bs, l); }
      DecodeFromExit(t, bs, l + 1);
    }
  }

  /** When no code of length below m begins the input, decoding may start at length m. */
  lemma {:induction false} DecodeSkip(t: HuffTbl, bs: seq<bool>, l: nat, m: nat)
    requires Good(t) && 1 <= l <= m <= NUM_LENGTHS + 1 && m <= |bs|
    requires l <= NUM_LENGTHS ==> FirstCode(t, l) <= Val(bs[..l])
    requires forall j :: l <= j < m ==> Val(bs[..j]) > MaxCode(t, j) || Val(bs[..j]) < FirstCode(t, j)
    ensures m <= NUM_LENGTHS ==> FirstCode(t, m) <= Val(bs[..m])
    ensures DecodeFrom(t, bs, l) == DecodeFrom(t, bs, m)
    decreases m - l
  {
    if l < m {
      assert Val(bs[..l]) > MaxCode(t, l);
      ValStep(bs, l);
      DecodeSkip(t, bs, l + 1, m);
    }
  }

  /** A decision once made does not depend on what follows. */
  lemma {:induction false} DecodeFromStable(t: HuffTbl, bs: seq<bool>, more: seq<bool>, l: nat)
    requires Good(t) && 1 <= l <= NUM_LENGTHS + 1
    requires l <= NUM_LENGTHS && l <= |bs| ==> FirstCode(t, l) <= Val(bs[..l])
    requires DecodeFrom(t, bs, l).Some?
    ensures l <= NUM_LENGTHS && l <= |bs + more| ==> FirstCode(t, l) <= Val((bs + more)[..l])
    ensures DecodeFrom(t, bs + more, l) == DecodeFrom(t, bs, l)
    decreases NUM_LENGTHS + 1 - l
  {
    assert (bs + more)[..l] == bs[..l];
    if l <= NUM_LENGTHS && Val(bs[..l]) > MaxCode(t, l) {
      if l < |bs| { ValStep(bs, l); }
      DecodeFromStable(t, bs, more, l + 1);
    }
  }

  // ---------------------------------------------------------------- sequences of codes

  function Encode(t: HuffTbl, ps: seq<nat>): seq<bool>
    requires |t.bits| == 17 && forall i :: 0 <= i < |ps| ==> IsEntry(t, ps[i])
  {
    if ps == [] then [] else assert IsEntry(t, ps[0]); CodeBits(t, ps[0]) + Encode(t, ps[1..])
  }

  /** The first n symbols of the input and what is left of it. */
  function DecodeMany(t: HuffTbl, bs: seq<bool>, n: nat): Option<(seq<byte>, seq<bool>)>
    requires Good(t)
  {
    if n == 0 then Some(([], bs))
    else
      match Decode(t, bs)
      case None => None
      case Some(d) =>
        DecodeFromExit(t, bs, 1);
        match DecodeMany(t, bs[d.len..], n - 1)
        case None => None
        case Some((syms, rest)) => Some(([d.sym] + syms, rest))
  }

  function Symbols(t: HuffTbl, ps: seq<nat>): seq<byte>
    requires Good(t) && forall i :: 0 <= i < |ps| ==> IsEntry(t, ps[i])
  {
    if ps == [] then [] else assert IsEntry(t, ps[0]); [t.huffval[ps[0]]] + Symbols(t, ps[1..])
  }

  /** Round trip: concatenated codes of any positions decode to the symbols at those positions,
      with nothing of the following data touched. */
  lemma {:induction false} DecodeEncode(t: HuffTbl, ps: seq<nat>, rest: seq<bool>)
    requires Good(t) && forall i :: 0 <= i < |ps| ==> IsEntry(t, ps[i])
    ensures DecodeMany(t, Encode(t, ps) + rest, |ps|) == Some((Symbols(t, ps), rest))
  {
    hide Decode, CodeBits;
    var bs := Encode(t, ps) + rest;
    if ps == [] {
      assert bs == rest;
    } else {
      assert IsEntry(t, ps[0]);
      var tail := Encode(t, ps[1..]) + rest;
      var c := CodeBits(t, ps[0]);
      assert bs == c + tail;
      assert Begins(t, ps[0], bs);
      DecodeIsPrefixMatch(t, bs);
      assert bs[|c|..] == tail;
      DecodeEncode(t, ps[1..], rest);
    }
  }
}
