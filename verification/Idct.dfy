/** jpeg_idct_islow in exact integers: the two-pass inverse transform, whose shortcuts for columns and
    rows without AC terms change nothing, and whose butterflies are a plain linear map. */
module Idct {
  import opened Bits
  import opened NearestColor
  import opened RangeLimit

  /** Eight inputs or outputs of the one-dimensional transform. */
  type Eight = v: seq<int> | |v| == 8 witness [0, 0, 0, 0, 0, 0, 0, 0]

  const UNIT := 8192

  /** Contribution of the even inputs to outputs k and 7 - k. */
  function EvenPart(v: Eight, k: nat): int
    requires k < 4
  {
    if k == 0 then UNIT * (v[0] + v[4]) + (10703 * v[2] + 4433 * v[6])
    else if k == 1 then UNIT * (v[0] - v[4]) + (4433 * v[2] - 10704 * v[6])
    else if k == 2 then UNIT * (v[0] - v[4]) - (4433 * v[2] - 10704 * v[6])
    else UNIT * (v[0] + v[4]) - (10703 * v[2] + 4433 * v[6])
  }

  /** Contribution of the odd inputs to output k; output 7 - k gets its negative. */
  function OddPart(v: Eight, k: nat): int
    requires k < 4
  {
    if k == 0 then 11363 * v[1] + 9633 * v[3] + 6437 * v[5] + 2260 * v[7]
    else if k == 1 then 9633 * v[1] - 2259 * v[3] - 11362 * v[5] - 6436 * v[7]
    else if k == 2 then 6437 * v[1] - 11362 * v[3] + 2261 * v[5] + 9633 * v[7]
    else 2260 * v[1] - 6436 * v[3] + 9633 * v[5] - 11363 * v[7]
  }

  /** Output k of the transform, scaled by 2^13. */
  function Output(v: Eight, k: nat): int
    requires k < 8
  {
    if k < 4 then EvenPart(v, k) + OddPart(v, k) else EvenPart(v, 7 - k) - OddPart(v, 7 - k)
  }

  /** The butterfly network computes the linear map with twelve multiplications. */
  method Butterfly(v: Eight) returns (o: Eight)
    ensures forall k :: 0 <= k < 8 ==> o[k] == Output(v, k)
  {
    var e0, e1, e2, e3 := EvenButterfly(v);
    var z1 := v[7] + v[1];
    var z2 := v[5] + v[3];
    var z3 := v[7] + v[3];
    var z4 := v[5] + v[1];
    var z5 := (z3 + z4) * 9633;
    var tmp0, tmp1, tmp2, tmp3 := v[7] * 2446, v[5] * 16819, v[3] * 25172, v[1] * 12299;
    z1 := z1 * -7373;
    z2 := z2 * -20995;
    z3 := z3 * -16069 + z5;
    z4 := z4 * -3196 + z5;
    tmp0 := tmp0 + z1 + z3;
    tmp1 := tmp1 + z2 + z4;
    tmp2 := tmp2 + z2 + z3;
    tmp3 := tmp3 + z1 + z4;
    o := [e0 + tmp3, e1 + tmp2, e2 + tmp1, e3 + tmp0, e3 - tmp0, e2 - tmp1, e1 - tmp2, e0 - tmp3];
  }

  method EvenButterfly(v: Eight) returns (e0: int, e1: int, e2: int, e3: int)
    ensures e0 == EvenPart(v, 0) && e1 == EvenPart(v, 1) && e2 == EvenPart(v, 2) && e3 == EvenPart(v, 3)
  {
    var z1 := (v[2] + v[6]) * 4433;
    var tmp2 := z1 + v[6] * -15137;
    var tmp3 := z1 + v[2] * 6270;
    var tmp0 := (v[0] + v[4]) * UNIT;
    var tmp1 := (v[0] - v[4]) * UNIT;
    e0, e1, e2, e3 := tmp0 + tmp3, tmp1 + tmp2, tmp1 - tmp2, tmp0 - tmp3;
  }

  /** DESCALE by 2^n: shift with rounding. */
  function Descale(x: int, half: nat): int
    requires half > 0
  {
    (x + half) / (2 * half)
  }

  // halves of 2^11, 2^18 and 2^5
  const PASS1 := 1024
  const PASS2 := 131072
  const DC_ONLY := 16

  ghost predicate NoAc(v: Eight) {
    v[1] == 0 && v[2] == 0 && v[3] == 0 && v[4] == 0 && v[5] == 0 && v[6] == 0 && v[7] == 0
  }

  /** Without AC terms every output is the DC term; the shortcuts of both passes are exact. */
  lemma ShortcutExact(v: Eight, k: nat)
    requires NoAc(v) && k < 8
    ensures Output(v, k) == UNIT * v[0]
    ensures Descale(Output(v, k), PASS1) == 4 * v[0]
    ensures Descale(Output(v, k), PASS2) == Descale(v[0], DC_ONLY)
  {
    var d := v[0];
    assert (UNIT * d + PASS1) / (2 * PASS1) == 4 * d by { QuotientIs(UNIT * d + PASS1, 2 * PASS1, 4 * d, PASS1); }
    var q, r := (d + DC_ONLY) / 32, (d + DC_ONLY) % 32;
    assert d + DC_ONLY == 32 * q + r;
    QuotientIs(UNIT * d + PASS2, 2 * PASS2, q, UNIT * r);
  }

  // ---------------------------------------------------------------- the block

  type Matrix = m: seq<int> | |m| == 64 witness seq(64, _ => 0)

  /** Column c of the dequantized block. */
  function Column(coef: Matrix, quant: Matrix, c: nat): Eight
    requires c < 8
  {
    seq(8, r requires 0 <= r < 8 => coef[8 * r + c] * quant[8 * r + c])
  }

  /** Workspace entry after the first pass, without any shortcut. */
  function AfterColumns(coef: Matrix, quant: Matrix, r: nat, c: nat): int
    requires r < 8 && c < 8
  {
    Descale(Output(Column(coef, quant, c), r), PASS1)
  }

  function WorkRow(coef: Matrix, quant: Matrix, r: nat): Eight
    requires r < 8
  {
    seq(8, c requires 0 <= c < 8 => AfterColumns(coef, quant, r, c))
  }

  lemma RowIsWork(coef: Matrix, quant: Matrix, ws: Matrix, r: nat)
    requires r < 8 && forall p :: 0 <= p < 64 ==> ws[p] == AfterColumns(coef, quant, p / 8, p % 8)
    ensures ws[8 * r..8 * r + 8] == WorkRow(coef, quant, r)
  {
    var work := ws[8 * r..8 * r + 8];
    forall c | 0 <= c < 8 ensures work[c] == AfterColumns(coef, quant, r, c) {
      var p := 8 * r + c;
      assert p / 8 == r && p % 8 == c && work[c] == ws[p];
    }
  }

  /** The sample at row r and column c, without any shortcut. */
  function SampleAt(coef: Matrix, quant: Matrix, r: nat, c: nat): Sample
    requires r < 8 && c < 8
  {
    AfterIdct(Descale(Output(WorkRow(coef, quant, r), c), PASS2))
  }

  /** The sample is the transform's value, centred and clamped, whenever that stays within 512 of zero. */
  lemma SampleClamps(coef: Matrix, quant: Matrix, r: nat, c: nat)
    requires r < 8 && c < 8
    ensures var x := Descale(Output(WorkRow(coef, quant, r), c), PASS2);
      -512 <= x < 512 ==> SampleAt(coef, quant, r, c) == Clamp(x + CENTERJSAMPLE)
  {
    AfterIdctClamps(Descale(Output(WorkRow(coef, quant, r), c), PASS2));
  }

  /** One column of the first pass, into the workspace. */
  method DoColumn(coef: Matrix, quant: Matrix, c: nat, workspace: array<int>)
    requires c < 8 && workspace.Length == 64
    modifies workspace
    ensures forall r :: 0 <= r < 8 ==> workspace[8 * r + c] == AfterColumns(coef, quant, r, c)
    ensures forall k :: 0 <= k < 64 && k % 8 != c ==> workspace[k] == old(workspace[k])
  {
    hide Output, AfterColumns;
    var v := Column(coef, quant, c);
    if coef[8 + c] == 0 && coef[16 + c] == 0 && coef[24 + c] == 0 && coef[32 + c] == 0 && coef[40 + c] == 0
        && coef[48 + c] == 0 && coef[56 + c] == 0 {
      var dcval := coef[c] * quant[c] * 4;
      ColumnShortcut(coef, quant, c);
      for r := 0 to 8
        invariant forall i :: 0 <= i < r ==> workspace[8 * i + c] == AfterColumns(coef, quant, i, c)
        invariant forall k :: 0 <= k < 64 && k % 8 != c ==> workspace[k] == old(workspace[k])
      {
        workspace[8 * r + c] := dcval;
      }
    } else {
      var o := Butterfly(v);
      for r := 0 to 8
        invariant forall i :: 0 <= i < r ==> workspace[8 * i + c] == AfterColumns(coef, quant, i, c)
        invariant forall k :: 0 <= k < 64 && k % 8 != c ==> workspace[k] == old(workspace[k])
      {
        workspace[8 * r + c] := Descale(o[r], PASS1);
        ColumnEntry(coef, quant, r, c);
      }
    }
  }

  lemma ColumnEntry(coef: Matrix, quant: Matrix, r: nat, c: nat)
    requires r < 8 && c < 8
    ensures AfterColumns(coef, quant, r, c) == Descale(Output(Column(coef, quant, c), r), PASS1)
  {
  }

  lemma ColumnShortcut(coef: Matrix, quant: Matrix, c: nat)
    requires c < 8 && forall r :: 1 <= r < 8 ==> coef[8 * r + c] == 0
    ensures forall r :: 0 <= r < 8 ==> AfterColumns(coef, quant, r, c) == coef[c] * quant[c] * 4
  {
    var v := Column(coef, quant, c);
    assert forall r :: 1 <= r < 8 ==> v[r] == 0;
    hide Output;
    forall r | 0 <= r < 8 ensures AfterColumns(coef, quant, r, c) == coef[c] * quant[c] * 4 {
      ShortcutExact(v, r);
    }
  }

  /** One row of the second pass. */
  method DoRow(work: Eight) returns (out: seq<Sample>)
    ensures |out| == 8 && forall c :: 0 <= c < 8 ==> out[c] == AfterIdct(Descale(Output(work, c), PASS2))
  {
    hide Output, AfterIdct;
    if work[1] == 0 && work[2] == 0 && work[3] == 0 && work[4] == 0 && work[5] == 0 && work[6] == 0 && work[7] == 0 {
      var dcval := AfterIdct(Descale(work[0], DC_ONLY));
      forall c | 0 <= c < 8 ensures AfterIdct(Descale(Output(work, c), PASS2)) == dcval { ShortcutExact(work, c); }
      out := seq(8, _ => dcval);
    } else {
      var o := Butterfly(work);
      out := seq(8, c requires 0 <= c < 8 => AfterIdct(Descale(o[c], PASS2)));
    }
  }

  /** jpeg_idct_islow: with its shortcuts, exactly the samples of the full transform. */
  method IdctIslow(coef: Matrix, quant: Matrix) returns (out: seq<seq<Sample>>)
    ensures |out| == 8 && forall r :: 0 <= r < 8 ==> |out[r]| == 8
    ensures forall r, c :: 0 <= r < 8 && 0 <= c < 8 ==> out[r][c] == SampleAt(coef, quant, r, c)
  {
    hide Output, AfterIdct, AfterColumns;
    var workspace := new int[64];
    for c := 0 to 8
      invariant forall p :: 0 <= p < 64 && p % 8 < c ==> workspace[p] == AfterColumns(coef, quant, p / 8, p % 8)
    {
      DoColumn(coef, quant, c, workspace);
      forall p | 0 <= p < 64 && p % 8 == c ensures workspace[p] == AfterColumns(coef, quant, p / 8, p % 8) {
        assert workspace[8 * (p / 8) + c] == AfterColumns(coef, quant, p / 8, c);
      }
    }
    var ws: Matrix := workspace[..];
    forall p | 0 <= p < 64 ensures ws[p] == AfterColumns(coef, quant, p / 8, p % 8) {
      assert p % 8 < 8 && ws[p] == workspace[p];
    }
    out := [];
    for r := 0 to 8
      invariant |out| == r && forall i :: 0 <= i < r ==> |out[i]| == 8
      invariant forall i, c :: 0 <= i < r && 0 <= c < 8 ==> out[i][c] == SampleAt(coef, quant, i, c)
    {
      var work := ws[8 * r..8 * r + 8];
      RowIsWork(coef, quant, ws, r);
      var row := DoRow(work);
      out := out + [row];
    }
  }
}
