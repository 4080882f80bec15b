/** Floyd-Steinberg dithering with one row of error storage, reused in place, computes the
    textbook two-dimensional serpentine diffusion. */
module FsDither {
  import opened Bits
  import opened NearestColor
  import opened RangeLimit
  import opened ErrorRow

  /** One component's quantizer: code is the premultiplied index selected for a value, value the
      sample that code stands for. */
  datatype QuantizerTables = QuantizerTables(code: seq<nat>, value: seq<Sample>)

  type Quantizer = q: QuantizerTables | |q.code| == 256
      && |q.value| == 256 witness QuantizerTables(seq(256, _ => 0), seq(256, _ => 0))

  /** The rows of one component, all of the same width. */
  ghost predicate IsImage(img: seq<seq<Sample>>, w: nat) {
    forall r :: 0 <= r < |img| ==> |img[r]| == w
  }

  // ---------------------------------------------------------------- the textbook

  /** The representation error at column c of the last row; no error outside the image. */
  ghost function Err(q: Quantizer, img: seq<seq<Sample>>, w: nat, c: int): int
    requires IsImage(img, w)
    decreases |img|, 0, if Dir(|img| - 1) == 1 then c else w - 1 - c, 1
  {
    if img == [] || c < 0 || c >= w then 0
    else
      var v := Value(q, img, w, c);
      v - q.value[v]
  }

  /** The corrected and clamped sample: seven sixteenths of the previous pixel's error and the
      shares carried down from the row above are added, rounded to nearest. */
  ghost function Value(q: Quantizer, img: seq<seq<Sample>>, w: nat, c: int): Sample
    requires IsImage(img, w) && img != [] && 0 <= c < w
    decreases |img|, 0, if Dir(|img| - 1) == 1 then c else w - 1 - c, 0
  {
    var r := |img| - 1;
    var incoming := 7 * Err(q, img, w, c - Dir(r)) + Carried(q, img[..r], w, c);
    Clamp(img[r][c] + Rounded(incoming))
  }

  /** What column c receives from the last row of img: five sixteenths from above, three from the
      pixel ahead in scan order, one from the pixel behind. */
  ghost function Carried(q: Quantizer, img: seq<seq<Sample>>, w: nat, c: int): int
    requires IsImage(img, w)
    decreases |img|, 1, 0, 0
  {
    var d := Dir(|img| - 1);
    5 * Err(q, img, w, c) + 3 * Err(q, img, w, c + d) + Err(q, img, w, c - d)
  }

  /** No error exceeds the sample range, nothing carried down nine times that, and the correction
      applied stays within the range. */
  lemma ErrBound(q: Quantizer, img: seq<seq<Sample>>, w: nat, c: int)
    requires IsImage(img, w)
    ensures -MAXJSAMPLE <= Err(q, img, w, c) <= MAXJSAMPLE
  {
  }

  lemma CarriedBound(q: Quantizer, img: seq<seq<Sample>>, w: nat, c: int)
    requires IsImage(img, w)
    ensures -9 * MAXJSAMPLE <= Carried(q, img, w, c) <= 9 * MAXJSAMPLE
  {
    hide Err;
    var d := Dir(|img| - 1);
    ErrBound(q, img, w, c);
    ErrBound(q, img, w, c + d);
    ErrBound(q, img, w, c - d);
  }

  lemma CorrectionBound(q: Quantizer, img: seq<seq<Sample>>, w: nat, c: int)
    requires IsImage(img, w) && img != [] && 0 <= c < w
    ensures var r := |img| - 1;
      -MAXJSAMPLE <= Rounded(7 * Err(q, img, w, c - Dir(r)) + Carried(q, img[..r], w, c)) <= MAXJSAMPLE
  {
    hide Err, Carried;
    ErrBound(q, img, w, c - Dir(|img| - 1));
    CarriedBound(q, img[..|img| - 1], w, c);
  }

  // ---------------------------------------------------------------- one row, in place

  /** The errors of the last row, and what the row after it receives, by column. */
  ghost function Errors(q: Quantizer, img: seq<seq<Sample>>, w: nat): int -> int
    requires IsImage(img, w)
  {
    (c: int) => Err(q, img, w, c)
  }

  ghost function Received(q: Quantizer, img: seq<seq<Sample>>, w: nat): int -> int
    requires IsImage(img, w)
  {
    (c: int) => Carried(q, img, w, c)
  }

  /** Between rows. */
  ghost predicate RowStored(q: Quantizer, done: seq<seq<Sample>>, w: nat, errors: seq<int>)
    requires IsImage(done, w)
  {
    Stored(Received(q, done, w), w, errors)
  }

  lemma ErrorsFit(q: Quantizer, img: seq<seq<Sample>>, w: nat)
    requires IsImage(img, w)
    ensures Bounded(Errors(q, img, w)) && ZeroOutside(Errors(q, img, w), w)
  {
    forall c ensures -MAX_ERROR <= Errors(q, img, w)(c) <= MAX_ERROR { ErrBound(q, img, w, c); }
  }

  /** What a finished row hands on is what the next one receives. */
  lemma HandedOn(q: Quantizer, now: seq<seq<Sample>>, w: nat, odd: bool)
    requires IsImage(now, w) && now != [] && odd == (|now| % 2 == 0)
    ensures forall c :: Received(q, now, w)(c) == Spread(Errors(q, now, w), Turn(odd), c)
  {
    hide Err;
    assert Dir(|now| - 1) == Turn(odd);
  }

  /** One pixel: the unfolded definition, with the running sums of the loop. */
  lemma OnePixel(q: Quantizer, done: seq<seq<Sample>>, row: seq<Sample>, w: nat, c: int, cur: int)
    requires IsImage(done, w) && |row| == w && 0 <= c < w && IsImage(done + [row], w)
    requires cur == 7 * Errors(q, done + [row], w)(c - Dir(|done|)) + Received(q, done, w)(c)
    ensures var a := Rounded(cur); var v := Clamp(row[c] + a);
      && -MAXJSAMPLE <= a <= MAXJSAMPLE
      && Simple(row[c] + a) == v == Value(q, done + [row], w, c)
      && Errors(q, done + [row], w)(c) == v - q.value[v]
  {
    var img := done + [row];
    assert img[..|img| - 1] == done && img[|img| - 1] == row;
    hide Carried, Clamp, Simple, Rounded;
    CorrectionBound(q, img, w, c);
    SimpleClamps(row[c] + Rounded(cur));
  }

  /** The first i columns in scan order have had their codes added. */
  ghost predicate Emitted(q: Quantizer, now: seq<seq<Sample>>, w: nat, before: seq<int>, out: seq<int>, odd: bool,
      i: int)
    requires IsImage(now, w) && now != []
  {
    |before| == |out| == w && forall j :: 0 <= j < w ==>
      out[j] == if Pos(odd, w, j) < i then before[j] + q.code[Value(q, now, w, j)] else before[j]
  }

  lemma NoneEmitted(q: Quantizer, now: seq<seq<Sample>>, w: nat, out: seq<int>, odd: bool)
    requires IsImage(now, w) && now != [] && |out| == w
    ensures Emitted(q, now, w, out, out, odd, 0)
  {
    hide Value;
  }

  lemma EmitOne(q: Quantizer, now: seq<seq<Sample>>, w: nat, before: seq<int>, out: seq<int>, odd: bool, i: nat)
    requires IsImage(now, w) && now != [] && Emitted(q, now, w, before, out, odd, i) && i < w
    ensures var j := if odd then w - 1 - i else i;
      |out| == w && Emitted(q, now, w, before, out[j := out[j] + q.code[Value(q, now, w, j)]], odd, i + 1)
  {
    hide Value;
  }

  lemma AllEmitted(q: Quantizer, now: seq<seq<Sample>>, w: nat, before: seq<int>, out: seq<int>, odd: bool)
    requires IsImage(now, w) && now != [] && Emitted(q, now, w, before, out, odd, w)
    ensures |before| == |out| == w && forall j :: 0 <= j < w ==> out[j] == before[j] + q.code[Value(q, now, w, j)]
  {
    hide Value;
  }

  /** The inner loop of quantize_fs_dither: one component of one row.  Errors are stored as 16-bit
      values, which loses nothing. */
  method DitherRow(q: Quantizer, row: seq<Sample>, errors: array<int>, odd: bool, output: array<int>,
      ghost done: seq<seq<Sample>>)
    requires IsImage(done, |row|) && odd == (|done| % 2 == 1) && output.Length == |row| && errors != output
    requires RowStored(q, done, |row|, errors[..])
    modifies errors, output
    ensures IsImage(done + [row], |row|) && RowStored(q, done + [row], |row|, errors[..])
    ensures forall j :: 0 <= j < |row| ==> output[j] == old(output[j]) + q.code[Value(q, done + [row], |row|, j)]
  {
    assert |errors[..]| == |row| + 2;
    hide Err, Carried, Value, Clamp, Simple, Wrap16, Stored, Running, Spread, Holds, Bounded, ZeroOutside, Errors,
        Received, Emitted;
    var w := |row|;
    ghost var now, start := done + [row], output[..];
    ghost var above, err := Received(q, done, w), Errors(q, now, w);
    ErrorsFit(q, now, w);
    var dir := if odd then -1 else 1;
    var at := if odd then w + 1 else 0;
    var s := Sums(0, 0, 0);
    RowStarts(above, err, odd, w, errors[..]);
    NoneEmitted(q, now, w, output[..], odd);
    var i := 0;
    while i < w
      invariant 0 <= i <= w && at == EntryIndex(odd, w, i) && errors.Length == w + 2
      invariant Running(err, dir, at - 1, s)
      invariant Holds(above, err, odd, w, errors[..], i)
      invariant Emitted(q, now, w, start, output[..], odd, i)
    {
      s := DitherPixel(q, row, errors, odd, output, at, dir, s, done, start, i);
      at := at + dir;
      i := i + 1;
    }
    ghost var e0 := errors[..];
    HandedOn(q, now, w, odd);
    RowEnds(above, err, Received(q, now, w), odd, w, e0, s);
    errors[at] := Wrap16(s.bpreverr);
    assert errors[..] == e0[at := errors[at]];
    AllEmitted(q, now, w, start, output[..], odd);
  }

  /** One pass of the inner loop, i pixels of the row being done. */
  method DitherPixel(q: Quantizer, row: seq<Sample>, errors: array<int>, odd: bool, output: array<int>, at: int,
      dir: int, s: Sums, ghost done: seq<seq<Sample>>, ghost start: seq<int>, ghost i: nat)
    returns (s': Sums)
    requires IsImage(done, |row|) && odd == (|done| % 2 == 1) && output.Length == |row| && errors != output
        && errors.Length == |row| + 2
    requires i < |row| && at == EntryIndex(odd, |row|, i) && dir == Turn(odd) && IsImage(done + [row], |row|)
    requires Running(Errors(q, done + [row], |row|), dir, at - 1, s)
    requires Holds(Received(q, done, |row|), Errors(q, done + [row], |row|), odd, |row|, errors[..], i)
    requires Emitted(q, done + [row], |row|, start, output[..], odd, i)
    modifies errors, output
    ensures Running(Errors(q, done + [row], |row|), dir, at - 1 + dir, s')
    ensures Holds(Received(q, done, |row|), Errors(q, done + [row], |row|), odd, |row|, errors[..], i + 1)
    ensures Emitted(q, done + [row], |row|, start, output[..], odd, i + 1)
  {
    hide Err, Carried, Value, Clamp, Simple, Wrap16, Running, Spread, Holds, Bounded, ZeroOutside, Errors, Received,
        Emitted;
    ghost var w, now, o0 := |row|, done + [row], output[..];
    ghost var above, err := Received(q, done, w), Errors(q, now, w);
    EntryAhead(above, err, odd, w, errors[..], i, s);
    var cur: int := Adjusted(q, row, at - 1 + dir, s.cur + errors[at + dir], done);
    EmitOne(q, now, w, start, o0, odd, i);
    output[at - 1 + dir] := output[at - 1 + dir] + q.code[cur];
    assert output[..] == o0[at - 1 + dir := o0[at - 1 + dir] + q.code[cur]];
    cur := cur - q.value[cur];
    ErrorsFit(q, now, w);
    PixelSpread(above, err, odd, w, errors[..], i, s, cur);
    s' := PassOn(errors, at, s, cur);
  }

  /** The sample of column c with its whole error correction, range-limited. */
  method Adjusted(q: Quantizer, row: seq<Sample>, c: nat, incoming: int, ghost done: seq<seq<Sample>>)
    returns (v: Sample)
    requires IsImage(done, |row|) && c < |row| && IsImage(done + [row], |row|)
    requires incoming == 7 * Errors(q, done + [row], |row|)(c - Dir(|done|)) + Received(q, done, |row|)(c)
    ensures v == Value(q, done + [row], |row|, c) && Errors(q, done + [row], |row|)(c) == v - q.value[v]
  {
    OnePixel(q, done, row, |row|, c, incoming);
    var cur := (incoming + 8) / 16;
    cur := cur + row[c];
    v := Simple(cur);
    hide *;
  }

  // ---------------------------------------------------------------- all components, any calls

  /** A pixel's output code: the premultiplied codes of its components, added up. */
  ghost function PixelCode(qs: seq<Quantizer>, imgs: seq<seq<seq<Sample>>>, w: nat, c: int, n: nat): int
    requires n <= |qs| == |imgs| && 0 <= c < w
    requires forall k :: 0 <= k < |imgs| ==> imgs[k] != [] && IsImage(imgs[k], w)
  {
    if n == 0 then 0
    else PixelCode(qs, imgs, w, c, n - 1) + qs[n - 1].code[Value(qs[n - 1], imgs[n - 1], w, c)]
  }

  lemma PixelCodeZero(qs: seq<Quantizer>, imgs: seq<seq<seq<Sample>>>, w: nat, c: int)
    requires |qs| == |imgs| && 0 <= c < w
    requires forall k :: 0 <= k < |imgs| ==> imgs[k] != [] && IsImage(imgs[k], w)
    ensures PixelCode(qs, imgs, w, c, 0) == 0
  {
  }

  lemma PixelCodeStep(qs: seq<Quantizer>, imgs: seq<seq<seq<Sample>>>, w: nat, c: int, n: nat)
    requires n < |qs| == |imgs| && 0 <= c < w
    requires forall k :: 0 <= k < |imgs| ==> imgs[k] != [] && IsImage(imgs[k], w)
    ensures PixelCode(qs, imgs, w, c, n + 1) == PixelCode(qs, imgs, w, c, n) + qs[n].code[Value(qs[n], imgs[n], w, c)]
  {
    hide Value;
  }

  /** One component of a row of pixels. */
  function Plane(row: seq<seq<Sample>>, k: nat): (s: seq<Sample>)
    requires forall c :: 0 <= c < |row| ==> k < |row[c]|
    ensures |s| == |row|
  {
    seq(|row|, c requires 0 <= c < |row| => row[c][k])
  }

  /** Every component's image with one more row. */
  ghost function Grown(done: seq<seq<seq<Sample>>>, row: seq<seq<Sample>>): (r: seq<seq<seq<Sample>>>)
    requires forall c :: 0 <= c < |row| ==> |row[c]| == |done|
    ensures |r| == |done| && forall k :: 0 <= k < |r| ==> r[k] == done[k] + [Plane(row, k)]
    ensures forall k :: 0 <= k < |r| && IsImage(done[k], |row|) ==> IsImage(r[k], |row|)
  {
    seq(|done|, k requires 0 <= k < |done| => done[k] + [Plane(row, k)])
  }

  class FsQuantizer {
    const width: nat
    const qs: seq<Quantizer>
    const fserrors: seq<array<int>>
    var onOddRow: bool
    /** Rows seen since the start of the pass, component by component. */
    ghost var done: seq<seq<seq<Sample>>>
    ghost var rows: nat

    ghost predicate Shape()
      reads this
    {
      && |fserrors| == |qs| == |done|
      && (forall k :: 0 <= k < |qs| ==> fserrors[k].Length == width + 2)
      && (forall k, l :: 0 <= k < l < |qs| ==> fserrors[k] != fserrors[l])
      && (forall k :: 0 <= k < |qs| ==> |done[k]| == rows && IsImage(done[k], width))
      && onOddRow == (rows % 2 == 1)
    }

    ghost predicate Valid()
      reads this, fserrors
    {
      Shape() && forall k :: 0 <= k < |qs| ==> RowStored(qs[k], done[k], width, fserrors[k][..])
    }

    /** start_pass_1_quant for this dithering mode. */
    method StartPass()
      requires Shape()
      modifies this, fserrors
      ensures Valid() && rows == 0
    {
      onOddRow := false;
      done, rows := seq(|qs|, _ => []), 0;
      for k := 0 to |qs|
        invariant Shape() && rows == 0 && forall l :: 0 <= l < |qs| ==> done[l] == []
        invariant forall l :: 0 <= l < k ==> RowStored(qs[l], [], width, fserrors[l][..])
      {
        var e := fserrors[k];
        forall j | 0 <= j < e.Length { e[j] := 0; }
      }
    }

    /** quantize_fs_dither for one row.  Whatever rows came before, in however many calls, the codes
        are those of the two-dimensional diffusion of the whole image so far. */
    method QuantizeRow(row: seq<seq<Sample>>, output: array<int>)
      requires Valid() && |row| == width && output.Length == width && output !in fserrors
      requires forall c :: 0 <= c < width ==> |row[c]| == |qs|
      modifies this, fserrors, output
      ensures Valid() && rows == old(rows) + 1
      ensures forall k :: 0 <= k < |qs| ==> done[k] == old(done[k]) + [Plane(row, k)]
      ensures forall c :: 0 <= c < width ==> output[c] == PixelCode(qs, done, width, c, |qs|)
    {
      hide RowStored, Value, Plane, PixelCode, IsImage, Grown;
      forall c | 0 <= c < width { output[c] := 0; }
      ghost var after := Grown(done, row);
      DitherComponents(row, output, after);
      onOddRow := !onOddRow;
      done, rows := after, rows + 1;
    }

    /** The loop over the components of one row. */
    method DitherComponents(row: seq<seq<Sample>>, output: array<int>, ghost after: seq<seq<seq<Sample>>>)
      requires Valid() && |row| == width && output.Length == width && output !in fserrors
      requires forall c :: 0 <= c < width ==> |row[c]| == |qs| && output[c] == 0
      requires |after| == |qs| && forall k :: 0 <= k < |qs| ==>
          after[k] == done[k] + [Plane(row, k)] && IsImage(after[k], width)
      modifies fserrors, output
      ensures forall l :: 0 <= l < |qs| ==> RowStored(qs[l], after[l], width, fserrors[l][..])
      ensures forall c :: 0 <= c < width ==> output[c] == PixelCode(qs, after, width, c, |qs|)
    {
      hide RowStored, Value, Plane, PixelCode, IsImage;
      forall c | 0 <= c < width ensures PixelCode(qs, after, width, c, 0) == 0 {
        PixelCodeZero(qs, after, width, c);
      }
      for k := 0 to |qs|
        invariant forall l :: 0 <= l < k ==> RowStored(qs[l], after[l], width, fserrors[l][..])
        invariant forall l :: k <= l < |qs| ==> fserrors[l][..] == old(fserrors[l][..])
        invariant forall c :: 0 <= c < width ==> output[c] == PixelCode(qs, after, width, c, k)
      {
        assert RowStored(qs[k], done[k], width, fserrors[k][..]);
        ghost var before := seq(|qs|, l requires 0 <= l < |qs| reads fserrors => fserrors[l][..]);
        DitherRow(qs[k], Plane(row, k), fserrors[k], onOddRow, output, done[k]);
        assert forall l :: 0 <= l < |qs| && l != k ==> fserrors[l][..] == before[l];
        forall c | 0 <= c < width ensures output[c] == PixelCode(qs, after, width, c, k + 1) {
          PixelCodeStep(qs, after, width, c, k);
        }
      }
    }
  }
}
