/** Rounding up, and how roundings nest (jdiv_round_up). */
module Rounding {
  import opened Bits

  /** The smallest whole number of b's that holds a. */
  function DivRoundUp(a: nat, b: nat): (q: nat)
    requires b > 0
    ensures (q - 1) * b < a <= q * b
  {
    var q := (a + b - 1) / b;
    assert a + b - 1 == b * q + (a + b - 1) % b;
    assert (q - 1) * b == b * q - b;
    q
  }

  lemma Times(q: int, r: int, b: nat)
    requires b > 0 && q * b < r * b
    ensures q < r
  {
    if q >= r { ProductMono(r, q, b); }
  }

  /** The two inequalities determine the quotient. */
  lemma UpUnique(a: nat, b: nat, q: nat)
    requires b > 0 && (q - 1) * b < a <= q * b
    ensures DivRoundUp(a, b) == q
  {
    var p: int := DivRoundUp(a, b);
    Times(p - 1, q, b);
    Times(q - 1, p, b);
  }

  /** Rounding up twice is rounding up once by the product. */
  lemma UpNested(a: nat, b: nat, c: nat)
    requires b > 0 && c > 0
    ensures b * c > 0 && DivRoundUp(DivRoundUp(a, b), c) == DivRoundUp(a, b * c)
  {
    var p: int := DivRoundUp(a, b);
    var q := DivRoundUp(p, c);
    MultipleGrows(b, c);
    // p <= q c, so a <= p b <= q c b;  and (q - 1) c <= p - 1, so (q - 1) c b <= (p - 1) b < a
    ProductMono(p, q * c, b);
    ProductMono((q - 1) * c, p - 1, b);
    assert q * c * b == q * (b * c) by { ProductAssoc(q, c, b); }
    assert (q - 1) * c * b == (q - 1) * (b * c) by { ProductAssoc(q - 1, c, b); }
    UpUnique(a, b * c, q);
  }

  /** Scaling by v and rounding, then grouping by v, is grouping by the whole: the number of row
      groups does not depend on the component. */
  lemma GroupsAgree(height: nat, v: nat, maxV: nat)
    requires v > 0 && maxV > 0
    ensures DivRoundUp(DivRoundUp(height * v, maxV), v) == DivRoundUp(height, maxV)
  {
    UpNested(height * v, maxV, v);
    var q := DivRoundUp(height, maxV);
    assert (q - 1) * (maxV * v) < height * v <= q * (maxV * v) by {
      ProductAssoc(q, maxV, v);
      ProductAssoc(q - 1, maxV, v);
      ProductMono(height, q * maxV, v);
      ProductMono((q - 1) * maxV + 1, height, v);
      assert ((q - 1) * maxV + 1) * v == (q - 1) * maxV * v + v;
    }
    UpUnique(height * v, maxV * v, q);
  }
}
