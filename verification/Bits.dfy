/** Bit sequences, most significant bit first, and the numbers they spell.
    The entropy decoders keep numbers in a register; the standard speaks of bit
    strings.  This module is the bridge between the two. */
module Bits {

  type byte = x: int | 0 <= x < 256

  function Pow2(n: nat): (p: nat)
    ensures p >= 1
  {
    if n == 0 then 1 else 2 * Pow2(n - 1)
  }

  /** The number spelled by a bit sequence. */
  function Val(bs: seq<bool>): nat {
    if bs == [] then 0 else 2 * Val(bs[..|bs| - 1]) + (if bs[|bs| - 1] then 1 else 0)
  }

  /** The low n bits of v; a negative v is read in two's complement. */
  function ToBits(v: int, n: nat): (bs: seq<bool>)
    ensures |bs| == n
    decreases n
  {
    if n == 0 then [] else ToBits(v / 2, n - 1) + [v % 2 == 1]
  }

  function Zeros(n: nat): (z: seq<bool>)
    ensures |z| == n
    ensures forall i :: 0 <= i < n ==> !z[i]
  {
    seq(n, _ => false)
  }

  lemma TwiceProduct(a: int, b: int)
    ensures a * (2 * b) == 2 * (a * b)
  {
  }

  lemma ProductMono(x: int, y: int, b: nat)
    requires x <= y
    ensures x * b <= y * b
  {
    assert y * b == x * b + (y - x) * b;
  }

  lemma ProductAssoc(a: int, b: int, c: int)
    ensures (a * b) * c == a * (b * c)
  {
  }

  lemma {:induction false} Pow2Add(a: nat, b: nat)
    ensures Pow2(a + b) == Pow2(a) * Pow2(b)
  {
    if b == 0 {
    } else {
      Pow2Add(a, b - 1);
      TwiceProduct(Pow2(a), Pow2(b - 1));
    }
  }

  lemma {:induction false} Pow2Mono(a: nat, b: nat)
    requires a <= b
    ensures Pow2(a) <= Pow2(b)
  {
    if a < b {
      Pow2Mono(a, b - 1);
    }
  }

  lemma Pow2Small()
    ensures Pow2(0) == 1 && Pow2(1) == 2 && Pow2(2) == 4 && Pow2(3) == 8 && Pow2(4) == 16
    ensures Pow2(8) == 256 && Pow2(15) == 32768 && Pow2(16) == 65536
    ensures Pow2(17) == 131072 && Pow2(32) == 4294967296
  {
    assert Pow2(4) == 16;
    assert Pow2(8) == 256 by { Pow2Add(4, 4); }
    assert Pow2(16) == 65536 by { Pow2Add(8, 8); }
    assert Pow2(17) == 2 * Pow2(16);
    assert Pow2(16) == 2 * Pow2(15);
    assert Pow2(32) == 4294967296 by { Pow2Add(16, 16); }
  }

  lemma {:induction false} ValBound(bs: seq<bool>)
    ensures Val(bs) < Pow2(|bs|)
  {
    if bs != [] {
      ValBound(bs[..|bs| - 1]);
    }
  }

  lemma {:induction false} ValConcat(a: seq<bool>, b: seq<bool>)
    ensures Val(a + b) == Val(a) * Pow2(|b|) + Val(b)
  {
    if b == [] {
      assert a + b == a;
    } else {
      var b', bit := b[..|b| - 1], if b[|b| - 1] then 1 else 0;
      ValConcat(a, b');
      assert (a + b)[..|a + b| - 1] == a + b';
      assert Val(a + b) == 2 * Val(a + b') + bit && Val(b) == 2 * Val(b') + bit && Pow2(|b|) == 2 * Pow2(|b'|);
      TwiceProduct(Val(a), Pow2(|b'|));
      hide Val, Pow2;
    }
  }

  /** Cutting v at bit k. */
  lemma {:induction false} ToBitsSplit(v: int, m: nat, k: nat)
    ensures ToBits(v, m + k) == ToBits(v / Pow2(k), m) + ToBits(v, k)
    decreases k
  {
    if k == 0 {
      assert v / 1 == v;
    } else {
      ToBitsSplit(v / 2, m, k - 1);
      DivTwice(v, Pow2(k - 1));
      assert ToBits(v, m + k) == ToBits(v / 2, m + (k - 1)) + [v % 2 == 1];
    }
  }

  lemma DivTwice(v: int, p: nat)
    requires p >= 1
    ensures v / 2 / p == v / (2 * p)
  {
    var q := v / 2;
    var e := q / p;
    assert v == 2 * q + v % 2;
    assert q == p * e + q % p;
    assert v == (2 * p) * e + (2 * (q % p) + v % 2);
    DivUnique(v, 2 * p, e, 2 * (q % p) + v % 2);
  }

  lemma DivUnique(v: int, d: int, q: int, r: int)
    requires d > 0 && v == d * q + r && 0 <= r < d
    ensures v / d == q && v % d == r
  {
    var e := v / d - q;
    assert d * e == r - v % d by {
      assert d * e == d * (v / d) - d * q;
    }
    MultipleGrows(d, e);
  }

  lemma QuotientNat(v: nat, d: nat)
    requires d > 0
    ensures 0 <= v / d
  {
  }

  lemma QuotientIs(v: int, d: int, q: int, r: int)
    requires d > 0 && v == q * d + r && 0 <= r < d
    ensures v / d == q && v % d == r
  {
    DivUnique(v, d, q, r);
  }

  lemma MultipleGrows(d: int, e: int)
    requires d > 0
    ensures e >= 1 ==> d * e >= d
    ensures e <= -1 ==> d * e <= -d
  {
    if e >= 1 {
      assert d * e == d + d * (e - 1);
    } else if e <= -1 {
      assert d * e == -d + d * (e + 1);
    }
  }

  lemma ModHalf(v: int, p: nat)
    requires p >= 1
    ensures v % (2 * p) == 2 * (v / 2 % p) + v % 2
  {
    var q := v / 2;
    assert q == p * (q / p) + q % p;
    assert v == (2 * p) * (q / p) + (2 * (q % p) + v % 2) by {
      assert 2 * (p * (q / p)) == (2 * p) * (q / p);
    }
    DivUnique(v, 2 * p, q / p, 2 * (q % p) + v % 2);
  }

  lemma {:induction false} ToBitsVal(bs: seq<bool>)
    ensures ToBits(Val(bs), |bs|) == bs
  {
    if bs != [] {
      var h := bs[..|bs| - 1];
      ToBitsVal(h);
      assert Val(bs) / 2 == Val(h);
      assert bs == h + [bs[|bs| - 1]];
    }
  }

  lemma {:induction false} ValToBits(v: int, n: nat)
    ensures Val(ToBits(v, n)) == v % Pow2(n)
    decreases n
  {
    if n == 0 {
      assert v % 1 == 0;
    } else {
      ValToBits(v / 2, n - 1);
      var bs := ToBits(v, n);
      assert bs[..|bs| - 1] == ToBits(v / 2, n - 1);
      ModHalf(v, Pow2(n - 1));
    }
  }

  /** ToBits looks only at the value modulo 2^n. */
  lemma ToBitsMod(v: int, w: int, n: nat)
    requires v % Pow2(n) == w % Pow2(n)
    ensures ToBits(v, n) == ToBits(w, n)
  {
    ValToBits(v, n);
    ValToBits(w, n);
    ToBitsVal(ToBits(v, n));
    ToBitsVal(ToBits(w, n));
  }

  lemma ModShiftMultiple(v: int, d: int, k: int)
    requires d > 0
    ensures (v + d * k) % d == v % d
  {
    var q := v / d;
    assert v == d * q + v % d;
    assert v + d * k == d * (q + k) + v % d;
    DivUnique(v + d * k, d, q + k, v % d);
  }

  /** Two's-complement wrap-around to 32 and to 16 bits. */
  function Wrap32(v: int): (w: int)
    ensures -0x8000_0000 <= w < 0x8000_0000
    ensures -0x8000_0000 <= v < 0x8000_0000 ==> w == v
  {
    var m := v % 0x1_0000_0000;
    if m >= 0x8000_0000 then m - 0x1_0000_0000 else m
  }

  function Wrap16(v: int): (w: int)
    ensures -0x8000 <= w < 0x8000
    ensures -0x8000 <= v < 0x8000 ==> w == v
  {
    var m := v % 0x1_0000;
    if m >= 0x8000 then m - 0x1_0000 else m
  }

  lemma Wrap32Bits(v: int, n: nat)
    requires n <= 32
    ensures ToBits(Wrap32(v), n) == ToBits(v, n)
  {
    var k := -(v / 0x1_0000_0000) - (if v % 0x1_0000_0000 >= 0x8000_0000 then 1 else 0);
    assert Wrap32(v) == v + 0x1_0000_0000 * k;
    Pow2Small();
    Pow2Add(n, 32 - n);
    ProductAssoc(Pow2(n), Pow2(32 - n), k);
    ModShiftMultiple(v, Pow2(n), Pow2(32 - n) * k);
    ToBitsMod(Wrap32(v), v, n);
  }
}
