/** Huffman code tables: the counts-and-symbols form a DHT marker carries, the
    canonical code it stands for, and the expanded table the decoder uses. */
module HuffTable {
  import opened Bits

  const NUM_LENGTHS := 16
  const LOOKAHEAD := 8
  const SENTINEL := 0xFFFFF

  /** bits[l] codes of length l (l = 1..16), whose symbols are huffval in order. */
  datatype HuffTbl = HuffTbl(bits: seq<byte>, huffval: seq<byte>)

  ghost predicate Sized(t: HuffTbl) {
    |t.bits| == 17 && |t.huffval| == 256
  }

  /** How many codes have length 1..l. */
  function Count(t: HuffTbl, l: nat): nat
    requires |t.bits| == 17 && l <= NUM_LENGTHS
  {
    if l == 0 then 0 else Count(t, l - 1) + t.bits[l]
  }

  /** The numerically least code of length l in the canonical assignment (Figure C.2). */
  function FirstCode(t: HuffTbl, l: nat): nat
    requires |t.bits| == 17 && 1 <= l <= NUM_LENGTHS + 1
  {
    if l == 1 then 0 else 2 * (FirstCode(t, l - 1) + t.bits[l - 1])
  }

  /** The codes of length l fit in l bits and leave the all-ones word free. */
  ghost predicate Fits(t: HuffTbl, l: nat)
    requires |t.bits| == 17 && 1 <= l <= NUM_LENGTHS
  {
    FirstCode(t, l) + t.bits[l] < Pow2(l)
  }

  ghost predicate AllFit(t: HuffTbl)
    requires |t.bits| == 17
  {
    forall l :: 1 <= l <= NUM_LENGTHS ==> Fits(t, l)
  }

  ghost predicate Accepted(t: HuffTbl, isDC: bool)
    requires Sized(t)
  {
    && Count(t, NUM_LENGTHS) <= 256
    && AllFit(t)
    && (isDC ==> forall i :: 0 <= i < Count(t, NUM_LENGTHS) ==> t.huffval[i] <= 15)
  }

  /** Table position p holds a code of length l. */
  ghost predicate HasLength(t: HuffTbl, p: nat, l: nat)
    requires |t.bits| == 17
  {
    1 <= l <= NUM_LENGTHS && Count(t, l - 1) <= p < Count(t, l)
  }

  /** The code length at table position p. */
  function Length(t: HuffTbl, p: nat): (l: nat)
    requires |t.bits| == 17 && p < Count(t, NUM_LENGTHS)
    ensures HasLength(t, p, l)
  {
    LengthFrom(t, p, 1)
  }

  function LengthFrom(t: HuffTbl, p: nat, from: nat): (l: nat)
    requires |t.bits| == 17 && 1 <= from <= NUM_LENGTHS
    requires Count(t, from - 1) <= p < Count(t, NUM_LENGTHS)
    ensures HasLength(t, p, l)
    decreases NUM_LENGTHS - from
  {
    if p < Count(t, from) then from else LengthFrom(t, p, from + 1)
  }

  /** The code at table position p, as a number and as a bit string. */
  function Code(t: HuffTbl, p: nat): nat
    requires |t.bits| == 17 && p < Count(t, NUM_LENGTHS)
  {
    FirstCode(t, Length(t, p)) + (p - Count(t, Length(t, p) - 1))
  }

  function CodeBits(t: HuffTbl, p: nat): (bs: seq<bool>)
    requires |t.bits| == 17 && p < Count(t, NUM_LENGTHS)
    ensures |bs| == Length(t, p)
  {
    ToBits(Code(t, p), Length(t, p))
  }

  // ---------------------------------------------------------------- structure

  lemma {:induction false} CountMono(t: HuffTbl, a: nat, b: nat)
    requires |t.bits| == 17 && a <= b <= NUM_LENGTHS
    ensures Count(t, a) <= Count(t, b)
  {
    if a < b {
      CountMono(t, a, b - 1);
    }
  }

  lemma LengthUnique(t: HuffTbl, p: nat, l: nat, m: nat)
    requires |t.bits| == 17 && HasLength(t, p, l) && HasLength(t, p, m)
    ensures l == m
  {
    if l < m {
      CountMono(t, l, m - 1);
    } else if m < l {
      CountMono(t, m, l - 1);
    }
  }

  lemma {:induction false} FirstCodeZero(t: HuffTbl, l: nat)
    requires |t.bits| == 17 && 1 <= l <= NUM_LENGTHS && Count(t, l - 1) == 0
    ensures FirstCode(t, l) == 0
  {
    if l > 1 {
      FirstCodeZero(t, l - 1);
    }
  }

  /** Codes of length m start above every code of a shorter length l, compared on l bits. */
  lemma {:induction false} FirstCodeGrows(t: HuffTbl, l: nat, m: nat)
    requires |t.bits| == 17 && 1 <= l < m <= NUM_LENGTHS + 1
    ensures FirstCode(t, m) >= (FirstCode(t, l) + t.bits[l]) * Pow2(m - l)
  {
    var end := FirstCode(t, l) + t.bits[l];
    if m == l + 1 {
    } else {
      FirstCodeGrows(t, l, m - 1);
      TwiceProduct(end, Pow2(m - 1 - l));
    }
  }

  /** Over lengths without codes the first code is only shifted. */
  lemma {:induction false} FirstCodeShifts(t: HuffTbl, l: nat, m: nat)
    requires |t.bits| == 17 && 1 <= l < m <= NUM_LENGTHS && Count(t, l) == Count(t, m - 1)
    ensures FirstCode(t, m) == (FirstCode(t, l) + t.bits[l]) * Pow2(m - l)
  {
    if m > l + 1 {
      CountMono(t, l, m - 2);
      FirstCodeShifts(t, l, m - 1);
      TwiceProduct(FirstCode(t, l) + t.bits[l], Pow2(m - 1 - l));
    }
  }

  lemma NextCode(t: HuffTbl, p: nat, l: nat, m: nat)
    requires |t.bits| == 17 && HasLength(t, p, l) && HasLength(t, p + 1, m)
    ensures l <= m
    ensures FirstCode(t, m) + (p + 1 - Count(t, m - 1)) == (FirstCode(t, l) + (p - Count(t, l - 1)) + 1) * Pow2(m - l)
  {
    hide FirstCode;
    if m < l {
      CountMono(t, m, l - 1);
    } else if l < m {
      CountMono(t, l, m - 1);
      FirstCodeShifts(t, l, m);
    }
  }

  /** The canonical order: the first code is all zeros, lengths do not decrease, and every code begins where the one
      before it ends, as binary fractions. */
  lemma CodesFollow(t: HuffTbl, p: nat)
    requires |t.bits| == 17 && p < Count(t, NUM_LENGTHS)
    ensures p == 0 ==> Code(t, p) == 0
    ensures p + 1 < Count(t, NUM_LENGTHS) ==>
        && Length(t, p) <= Length(t, p + 1)
        && Code(t, p + 1) == (Code(t, p) + 1) * Pow2(Length(t, p + 1) - Length(t, p))
  {
    hide Length, FirstCode, Pow2, HasLength;
    if p == 0 { FirstIsZero(t, Length(t, 0)); }
    if p + 1 < Count(t, NUM_LENGTHS) { NextCode(t, p, Length(t, p), Length(t, p + 1)); }
  }

  lemma FirstIsZero(t: HuffTbl, l: nat)
    requires |t.bits| == 17 && HasLength(t, 0, l)
    ensures FirstCode(t, l) == 0 && Count(t, l - 1) == 0
  {
    FirstCodeZero(t, l);
  }

  lemma CodeOfLength(t: HuffTbl, p: nat, l: nat)
    requires |t.bits| == 17 && p < Count(t, NUM_LENGTHS) && HasLength(t, p, l)
    ensures Code(t, p) == FirstCode(t, l) + (p - Count(t, l - 1))
  {
    LengthUnique(t, p, l, Length(t, p));
  }

  lemma CodeInRange(t: HuffTbl, p: nat)
    requires |t.bits| == 17 && AllFit(t) && p < Count(t, NUM_LENGTHS)
    ensures var l := Length(t, p); FirstCode(t, l) <= Code(t, p) < FirstCode(t, l) + t.bits[l]
    ensures Code(t, p) < Pow2(Length(t, p)) - 1
  {
    assert Fits(t, Length(t, p));
  }

  lemma CodeValue(t: HuffTbl, p: nat)
    requires |t.bits| == 17 && AllFit(t) && p < Count(t, NUM_LENGTHS)
    ensures Val(CodeBits(t, p)) == Code(t, p)
  {
    CodeInRange(t, p);
    ValToBits(Code(t, p), Length(t, p));
    DivUnique(Code(t, p), Pow2(Length(t, p)), 0, Code(t, p));
  }

  /** Whatever word continues to a code of length m > l, its first l bits lie
      above all codes of length l. */
  lemma CodeAboveShorter(t: HuffTbl, l: nat, q: nat)
    requires |t.bits| == 17 && AllFit(t) && q < Count(t, NUM_LENGTHS)
    requires 1 <= l < Length(t, q)
    ensures Val(CodeBits(t, q)[..l]) >= FirstCode(t, l) + t.bits[l]
  {
    CodeInRange(t, q);
    CodeValue(t, q);
    WordAboveShorter(t, CodeBits(t, q), l);
  }

  lemma WordAboveShorter(t: HuffTbl, c: seq<bool>, l: nat)
    requires |t.bits| == 17 && 1 <= l < |c| <= NUM_LENGTHS && FirstCode(t, |c|) <= Val(c)
    ensures Val(c[..l]) >= FirstCode(t, l) + t.bits[l]
  {
    FirstCodeGrows(t, l, |c|);
    PrefixAbove(c, l, FirstCode(t, l) + t.bits[l], FirstCode(t, |c|));
  }

  lemma PrefixAbove(c: seq<bool>, l: nat, end: nat, first: nat)
    requires l <= |c| && end * Pow2(|c| - l) <= first <= Val(c)
    ensures end <= Val(c[..l])
  {
    assert c == c[..l] + c[l..];
    ValConcat(c[..l], c[l..]);
    ValBound(c[l..]);
    MulLess(end, Val(c[..l]), Pow2(|c| - l), Val(c[l..]));
  }

  lemma MulLess(a: nat, b: nat, d: nat, r: nat)
    requires d > 0 && r < d && a * d <= b * d + r
    ensures a <= b
  {
    assert (a - b) * d == a * d - b * d;
    MultipleGrows(d, a - b);
  }

  /** Accepted tables are prefix codes. */
  lemma PrefixFree(t: HuffTbl, isDC: bool, p: nat, q: nat)
    requires Sized(t) && Accepted(t, isDC)
    requires p < Count(t, NUM_LENGTHS) && q < Count(t, NUM_LENGTHS) && p != q
    ensures !(CodeBits(t, p) <= CodeBits(t, q))
  {
    var l, m := Length(t, p), Length(t, q);
    if l < m {
      NotPrefixOfLonger(t, p, q);
    } else if l == m {
      SameLengthDiffer(t, p, q);
    }
  }

  lemma NotPrefixOfLonger(t: HuffTbl, p: nat, q: nat)
    requires |t.bits| == 17 && AllFit(t)
    requires p < Count(t, NUM_LENGTHS) && q < Count(t, NUM_LENGTHS) && Length(t, p) < Length(t, q)
    ensures CodeBits(t, p) != CodeBits(t, q)[..Length(t, p)]
  {
    CodeInRange(t, p);
    CodeValue(t, p);
    CodeAboveShorter(t, Length(t, p), q);
  }

  lemma SameLengthDiffer(t: HuffTbl, p: nat, q: nat)
    requires |t.bits| == 17 && AllFit(t)
    requires p < Count(t, NUM_LENGTHS) && q < Count(t, NUM_LENGTHS) && p != q && Length(t, p) == Length(t, q)
    ensures CodeBits(t, p) != CodeBits(t, q)
  {
    CodeValue(t, p);
    CodeValue(t, q);
  }

  /** No code of an accepted table consists of one bits only. */
  lemma NoAllOnes(t: HuffTbl, isDC: bool, p: nat)
    requires Sized(t) && Accepted(t, isDC) && p < Count(t, NUM_LENGTHS)
    ensures exists i :: 0 <= i < |CodeBits(t, p)| && !CodeBits(t, p)[i]
  {
    CodeInRange(t, p);
    CodeValue(t, p);
    if forall i :: 0 <= i < |CodeBits(t, p)| ==> CodeBits(t, p)[i] {
      AllOnesValue(CodeBits(t, p));
    }
  }

  lemma {:induction false} AllOnesValue(bs: seq<bool>)
    requires forall i :: 0 <= i < |bs| ==> bs[i]
    ensures Val(bs) == Pow2(|bs|) - 1
  {
    if bs != [] {
      AllOnesValue(bs[..|bs| - 1]);
    }
  }

  /** Once every code has been placed, the longer lengths fit trivially. */
  lemma {:induction false} TailFits(t: HuffTbl, s: nat, l: nat)
    requires |t.bits| == 17 && 1 <= s <= l <= NUM_LENGTHS
    requires FirstCode(t, s) < Pow2(s) && Count(t, s - 1) == Count(t, NUM_LENGTHS)
    ensures FirstCode(t, l) < Pow2(l) && t.bits[l] == 0
  {
    CountMono(t, s - 1, l - 1);
    CountMono(t, l, NUM_LENGTHS);
    if s < l {
      TailFits(t, s, l - 1);
    }
  }

  lemma RestFit(t: HuffTbl, s: nat)
    requires |t.bits| == 17 && 1 <= s <= NUM_LENGTHS + 1
    requires s <= NUM_LENGTHS ==> FirstCode(t, s) < Pow2(s)
    requires Count(t, s - 1) == Count(t, NUM_LENGTHS)
    requires forall l :: 1 <= l < s ==> Fits(t, l)
    ensures AllFit(t)
  {
    forall l | s <= l <= NUM_LENGTHS ensures Fits(t, l) {
      TailFits(t, s, l);
    }
  }

  lemma EmptyFits(t: HuffTbl, m: nat)
    requires |t.bits| == 17 && m <= NUM_LENGTHS && Count(t, m) == 0
    ensures forall l :: 1 <= l <= m ==> Fits(t, l)
  {
    forall l | 1 <= l <= m ensures Fits(t, l) {
      CountMono(t, l, m);
      FirstCodeZero(t, l);
    }
  }

  // ---------------------------------------------------------------- the expanded table

  /** The part of d_derived_tbl that decoding reads. */
  datatype Derived = Derived(maxcode: seq<int>, valoffset: seq<int>, nbits: seq<int>, sym: seq<byte>)

  /** The leading l bits of the lookahead word v spell a code of length l. */
  ghost predicate Matches(t: HuffTbl, v: int, l: nat)
    requires |t.bits| == 17
  {
    1 <= l <= LOOKAHEAD && FirstCode(t, l) <= v / Pow2(LOOKAHEAD - l) < FirstCode(t, l) + t.bits[l]
  }

  /** The symbol of the length-l code c. */
  function SymbolOf(t: HuffTbl, l: nat, c: int): byte
    requires Sized(t) && 1 <= l <= NUM_LENGTHS && Count(t, NUM_LENGTHS) <= 256
    requires FirstCode(t, l) <= c < FirstCode(t, l) + t.bits[l]
  {
    CountMono(t, l, NUM_LENGTHS);
    t.huffval[Count(t, l - 1) + (c - FirstCode(t, l))]
  }

  ghost predicate LookOk(t: HuffTbl, v: int, nb: int, sym: byte)
    requires Sized(t) && Count(t, NUM_LENGTHS) <= 256
  {
    if nb == 0 then
      forall l :: 1 <= l <= LOOKAHEAD ==> !Matches(t, v, l)
    else
      nb >= 0 && Matches(t, v, nb) && sym == SymbolOf(t, nb, v / Pow2(LOOKAHEAD - nb))
  }

  ghost predicate LengthOk(t: HuffTbl, l: nat, maxcode: int, valoffset: int)
    requires Sized(t) && 1 <= l <= NUM_LENGTHS
  {
    if t.bits[l] == 0 then maxcode == -1
    else maxcode == FirstCode(t, l) + t.bits[l] - 1 && valoffset == Count(t, l - 1) - FirstCode(t, l)
  }

  ghost predicate DerivedFrom(t: HuffTbl, d: Derived)
    requires Sized(t)
  {
    && Count(t, NUM_LENGTHS) <= 256 && AllFit(t)
    && |d.maxcode| == 18 && |d.valoffset| == 17 && |d.nbits| == 256 && |d.sym| == 256
    && (forall l :: 1 <= l <= NUM_LENGTHS ==> LengthOk(t, l, d.maxcode[l], d.valoffset[l]))
    && d.maxcode[17] == SENTINEL
    && (forall v :: 0 <= v < 256 ==> LookOk(t, v, d.nbits[v], d.sym[v]))
  }

  /** The derived-table workspace, rewritten in place for each scan. */
  class DerivedTbl {
    const maxcode: array<int>
    const valoffset: array<int>
    const nbits: array<int>
    const sym: array<byte>
    var pub: HuffTbl

    constructor ()
      ensures Valid() && fresh(maxcode) && fresh(valoffset) && fresh(nbits) && fresh(sym)
    {
      maxcode := new int[18];
      valoffset := new int[17];
      nbits := new int[256];
      sym := new byte[256];
      pub := HuffTbl([], []);
    }

    ghost predicate Valid() {
      maxcode.Length == 18 && valoffset.Length == 17 && nbits.Length == 256 && sym.Length == 256 &&
      maxcode != valoffset && maxcode != nbits && valoffset != nbits
    }

    function View(): Derived
      reads maxcode, valoffset, nbits, sym
    {
      Derived(maxcode[..], valoffset[..], nbits[..], sym[..])
    }

    /** Expands t, or rejects it; the final contents are tied to the canonical code. */
    method Make(t: HuffTbl, isDC: bool) returns (ok: bool)
      requires Valid() && Sized(t)
      modifies this, maxcode, valoffset, nbits, sym
      ensures ok <==> Accepted(t, isDC)
      ensures pub == t && (ok ==> DerivedFrom(t, View()))
    {
      pub := t;
      var huffsize := new int[257];
      var huffcode := new int[257];
      var numsymbols;
      ok, numsymbols := FillSizes(t, huffsize);
      if !ok { return; }
      ok := AssignCodes(t, huffsize, numsymbols, huffcode);
      if !ok { return; }
      FillLimits(t, huffcode);
      FillLookahead(t, huffcode);
      if isDC {
        for i := 0 to numsymbols
          invariant forall j :: 0 <= j < i ==> t.huffval[j] <= 15
        {
          if t.huffval[i] > 15 {
            ok := false;
            return;
          }
        }
      }
    }

    /** Figure C.1: the code length of each symbol. */
    static method FillSizes(t: HuffTbl, huffsize: array<int>) returns (ok: bool, p: nat)
      requires Sized(t) && huffsize.Length == 257
      modifies huffsize
      ensures ok <==> Count(t, NUM_LENGTHS) <= 256
      ensures ok ==> p == Count(t, NUM_LENGTHS) && huffsize[p] == 0
      ensures ok ==> forall q :: 0 <= q < p ==> huffsize[q] >= 0 && HasLength(t, q, huffsize[q])
    {
      p := 0;
      var l := 1;
      while l <= 16
        invariant 1 <= l <= 17 && p == Count(t, l - 1) <= 256
        invariant forall q :: 0 <= q < p ==> huffsize[q] >= 0 && HasLength(t, q, huffsize[q])
      {
        var i := t.bits[l];
        if p + i > 256 {
          CountMono(t, l, NUM_LENGTHS);
          return false, p;
        }
        while i > 0
          invariant 0 <= i && p + i == Count(t, l) && Count(t, l - 1) <= p
          invariant forall q :: 0 <= q < p ==> huffsize[q] >= 0 && HasLength(t, q, huffsize[q])
        {
          huffsize[p] := l;
          p := p + 1;
          i := i - 1;
        }
        l := l + 1;
      }
      huffsize[p] := 0;
      ok := true;
    }

    /** The consecutive codes of one length. */
    static method CodesOfLength(t: HuffTbl, huffsize: array<int>, n: nat, huffcode: array<int>, start: nat, si: nat,
        first: nat)
      returns (code: nat, p: nat)
      requires Sized(t) && huffsize.Length == 257 && huffcode.Length == 257 && huffsize != huffcode
      requires n == Count(t, NUM_LENGTHS) <= 256 && huffsize[n] == 0
      requires forall q :: 0 <= q < n ==> huffsize[q] >= 0 && HasLength(t, q, huffsize[q])
      requires 1 <= si <= 16 && start == Count(t, si - 1) <= n && first == FirstCode(t, si)
      requires forall q :: 0 <= q < start ==> huffcode[q] == Code(t, q)
      modifies huffcode
      ensures p == Count(t, si) <= n && code == FirstCode(t, si) + t.bits[si]
      ensures forall q :: 0 <= q < p ==> huffcode[q] == Code(t, q)
    {
      hide Pow2;
      code, p := first, start;
      CountMono(t, si, NUM_LENGTHS);
      while huffsize[p] == si
        invariant Count(t, si - 1) <= p <= Count(t, si) <= n
        invariant code == FirstCode(t, si) + (p - Count(t, si - 1))
        invariant forall q :: 0 <= q < p ==> huffcode[q] == Code(t, q)
        decreases n - p
      {
        LengthUnique(t, p, si, Length(t, p));
        huffcode[p] := code;
        code := code + 1;
        p := p + 1;
      }
      if p < Count(t, si) {
        LengthUnique(t, p, si, huffsize[p]);
      }
    }

    /** Figure C.2: the codes themselves, with the check that they form a legal code tree. */
    static method AssignCodes(t: HuffTbl, huffsize: array<int>, n: nat, huffcode: array<int>) returns (ok: bool)
      requires Sized(t) && huffsize.Length == 257 && huffcode.Length == 257 && huffsize != huffcode
      requires n == Count(t, NUM_LENGTHS) <= 256 && huffsize[n] == 0
      requires forall q :: 0 <= q < n ==> huffsize[q] >= 0 && HasLength(t, q, huffsize[q])
      modifies huffcode
      ensures ok <==> AllFit(t)
      ensures ok ==> forall q :: 0 <= q < n ==> huffcode[q] == Code(t, q)
    {
      var code := 0;
      var si := huffsize[0];
      var p := 0;
      if n == 0 {
        EmptyFits(t, NUM_LENGTHS);
      } else {
        EmptyFits(t, si - 1);
        FirstCodeZero(t, si);
      }
      while huffsize[p] != 0
        invariant 0 <= p <= n
        invariant n > 0 ==> 1 <= si <= 17 && p == Count(t, si - 1) && code == FirstCode(t, si)
        invariant n > 0 ==> forall l :: 1 <= l < si ==> Fits(t, l)
        invariant n == 0 ==> AllFit(t)
        invariant forall q :: 0 <= q < p ==> huffcode[q] == Code(t, q)
        invariant n > 0 && p > 0 ==> code < Pow2(si)
        decreases 17 - si
      {
        assert p < n;
        assert si <= 16;
        code, p := CodesOfLength(t, huffsize, n, huffcode, p, si, code);
        if code >= Pow2(si) {
          assert !Fits(t, si);
          return false;
        }
        assert Fits(t, si);
        code := code * 2;
        si := si + 1;
      }
      if n > 0 {
        RestFit(t, si);
      }
      ok := true;
    }

    /** Figure F.15: largest code and symbol offset for each length. */
    method FillLimits(t: HuffTbl, huffcode: array<int>)
      requires Valid() && Sized(t) && Count(t, NUM_LENGTHS) <= 256
      requires huffcode.Length == 257 && huffcode != maxcode && huffcode != valoffset
      requires forall q :: 0 <= q < Count(t, NUM_LENGTHS) ==> huffcode[q] == Code(t, q)
      modifies maxcode, valoffset
      ensures forall l :: 1 <= l <= NUM_LENGTHS ==> LengthOk(t, l, maxcode[l], valoffset[l])
      ensures maxcode[17] == SENTINEL
    {
      hide FirstCode, Length;
      var p := 0;
      var l := 1;
      while l <= 16
        invariant 1 <= l <= 17 && p == Count(t, l - 1)
        invariant forall m :: 1 <= m < l ==> LengthOk(t, m, maxcode[m], valoffset[m])
      {
        CountMono(t, l, NUM_LENGTHS);
        if t.bits[l] != 0 {
          CodeOfLength(t, p, l);
          valoffset[l] := p - huffcode[p];
          p := p + t.bits[l];
          CodeOfLength(t, p - 1, l);
          maxcode[l] := huffcode[p - 1];
        } else {
          maxcode[l] := -1;
        }
        l := l + 1;
      }
      maxcode[17] := SENTINEL;
    }

    /** Every slot holds what it should when all codes shorter than l, and the first i of length l, are in. */
    ghost predicate AllFilled(t: HuffTbl, l: nat, i: nat)
      requires Valid() && Sized(t) && Count(t, NUM_LENGTHS) <= 256 && 1 <= l <= 9
      reads nbits, sym
    {
      forall v :: 0 <= v < 256 ==> Filled(t, v, l, i, nbits[v], sym[v])
    }

    lemma NoneFilled(t: HuffTbl)
      requires Valid() && Sized(t) && Count(t, NUM_LENGTHS) <= 256 && forall v :: 0 <= v < 256 ==> nbits[v] == 0
      ensures AllFilled(t, 1, 0)
    {
      hide Matches, SymbolOf, Pow2, FirstCode;
    }

    lemma LengthFilled(t: HuffTbl, l: nat)
      requires Valid() && Sized(t) && Count(t, NUM_LENGTHS) <= 256 && 1 <= l <= 8 && AllFilled(t, l, t.bits[l])
      ensures AllFilled(t, l + 1, 0)
    {
      forall v | 0 <= v < 256 ensures Filled(t, v, l + 1, 0, nbits[v], sym[v]) {
        assert Filled(t, v, l, t.bits[l], nbits[v], sym[v]);
        hide SymbolOf, Pow2, FirstCode;
      }
    }

    lemma EightFilled(t: HuffTbl)
      requires Valid() && Sized(t) && Count(t, NUM_LENGTHS) <= 256 && AllFilled(t, 9, 0)
      ensures forall v :: 0 <= v < 256 ==> LookOk(t, v, nbits[v], sym[v])
    {
      forall v | 0 <= v < 256 ensures LookOk(t, v, nbits[v], sym[v]) {
        assert Filled(t, v, 9, 0, nbits[v], sym[v]);
        hide SymbolOf, Pow2, FirstCode, Matches;
      }
    }

    /** The 8-bit lookahead tables. */
    method FillLookahead(t: HuffTbl, huffcode: array<int>)
      requires Valid() && Sized(t) && Count(t, NUM_LENGTHS) <= 256 && AllFit(t)
      requires huffcode.Length == 257 && huffcode != nbits
      requires forall q :: 0 <= q < Count(t, NUM_LENGTHS) ==> huffcode[q] == Code(t, q)
      modifies nbits, sym
      ensures forall v :: 0 <= v < 256 ==> LookOk(t, v, nbits[v], sym[v])
    {
      hide Pow2, FirstCode, AllFit, AllFilled, LookOk;
      forall v | 0 <= v < 256 { nbits[v] := 0; }
      NoneFilled(t);
      var p := 0;
      var l := 1;
      while l <= 8
        invariant 1 <= l <= 9 && p == Count(t, l - 1) && AllFilled(t, l, 0)
      {
        CountMono(t, l, NUM_LENGTHS);
        var i := 0;
        while i < t.bits[l]
          invariant 0 <= i <= t.bits[l] && p == Count(t, l - 1) + i && AllFilled(t, l, i)
        {
          FillOne(t, l, i, huffcode[p], t.huffval[p]) by {
            LengthUnique(t, p, l, Length(t, p));
          }
          i := i + 1;
          p := p + 1;
        }
        LengthFilled(t, l);
        l := l + 1;
      }
      EightFilled(t);
    }

    /** All lookahead words that begin with the i'th code of length l. */
    method FillOne(t: HuffTbl, l: nat, i: nat, code: int, s: byte)
      requires Valid() && Sized(t) && Count(t, NUM_LENGTHS) <= 256 && AllFit(t)
      requires 1 <= l <= 8 && i < t.bits[l] && code == FirstCode(t, l) + i && s == SymbolOf(t, l, code)
      requires AllFilled(t, l, i)
      modifies nbits, sym
      ensures AllFilled(t, l, i + 1)
    {
      var span := Pow2(8 - l);
      var lookbits := code * span;
      LookaheadSpan(t, l, code);
      ghost var first := lookbits;
      var ctr := span;
      while ctr > 0
        invariant 0 <= ctr <= span && lookbits == first + (span - ctr)
        invariant forall v :: 0 <= v < 256 && !(first <= v < lookbits) ==>
            nbits[v] == old(nbits[v]) && sym[v] == old(sym[v])
        invariant forall v :: first <= v < lookbits ==> nbits[v] == l && sym[v] == s
      {
        nbits[lookbits] := l;
        sym[lookbits] := s;
        lookbits := lookbits + 1;
        ctr := ctr - 1;
      }
      forall v | 0 <= v < 256 ensures Filled(t, v, l, i + 1, nbits[v], sym[v]) {
        WordsOfCode(v, span, code);
        if first <= v < first + span {
          assert Matches(t, v, l);
        } else {
          assert Filled(t, v, l, i, old(nbits[v]), old(sym[v]));
        }
      }
    }
  }

  lemma LookaheadSpan(t: HuffTbl, l: nat, code: int)
    requires |t.bits| == 17 && AllFit(t) && 1 <= l <= LOOKAHEAD
    requires FirstCode(t, l) <= code < FirstCode(t, l) + t.bits[l]
    ensures 0 <= code * Pow2(8 - l) && code * Pow2(8 - l) + Pow2(8 - l) <= 256
  {
    assert code + 1 <= Pow2(l) by { assert Fits(t, l); }
    assert Pow2(l) * Pow2(8 - l) == 256 by { Pow2Add(l, 8 - l); Pow2Small(); }
    SpanFits(code, Pow2(l), Pow2(8 - l), 256);
  }

  lemma SpanFits(c: nat, top: nat, span: nat, total: nat)
    requires c + 1 <= top && top * span == total
    ensures 0 <= c * span && c * span + span <= total
  {
    ProductMono(c + 1, top, span);
    ProductMono(0, c, span);
    assert (c + 1) * span == c * span + span;
  }

  lemma WordsOfCode(v: int, span: nat, code: int)
    requires span > 0
    ensures v / span == code <==> code * span <= v < code * span + span
  {
    if code * span <= v < code * span + span {
      DivUnique(v, span, code, v - code * span);
    }
    if v / span == code {
      assert v == span * code + v % span;
    }
  }

  /** State of a lookahead slot when all codes shorter than l, and the first i of length l, are in. */
  ghost predicate Filled(t: HuffTbl, v: int, l: nat, i: nat, nb: int, sym: byte)
    requires Sized(t) && Count(t, NUM_LENGTHS) <= 256 && 1 <= l <= 9
  {
    && (nb == 0 ==>
          && (forall m :: 1 <= m < l ==> !Matches(t, v, m))
          && (l <= 8 ==> !(FirstCode(t, l) <= v / Pow2(LOOKAHEAD - l) < FirstCode(t, l) + i)))
    && (nb != 0 ==>
          nb >= 0 && Matches(t, v, nb) && sym == SymbolOf(t, nb, v / Pow2(LOOKAHEAD - nb)))
  }
}
