/** Floyd-Steinberg dithering of the two-pass quantizer: the three components of a pixel are corrected
    separately, with limited corrections, and quantized together through the inverse colour map. */
module TwoPassDither {
  import opened Bits
  import opened NearestColor
  import opened RangeLimit
  import opened InverseColormap
  import opened ErrorRow

  // ---------------------------------------------------------------- error limiting

  const STEPSIZE := 16

  /** The transfer function for corrections: the identity up to 16, half slope up to 48, then flat. */
  function Limit(e: int): int {
    if e < 0 then -Limited(-e) else Limited(e)
  }

  function Limited(e: int): int {
    if e < STEPSIZE then e else if e < 3 * STEPSIZE then STEPSIZE + (e - STEPSIZE) / 2 else 2 * STEPSIZE
  }

  /** Corrections stay within an eighth of the sample range, keep their sign and order, and never grow: they
      pass unchanged up to 16, at half slope up to 48, and are flat beyond. */
  lemma LimitShape(a: int, b: int)
    requires a <= b
    ensures Limit(a) <= Limit(b) && Limit(b) - Limit(a) <= b - a
    ensures -2 * STEPSIZE <= Limit(a) <= 2 * STEPSIZE && Limit(-a) == -Limit(a)
    ensures -16 <= a <= 16 ==> Limit(a) == a
    ensures 16 <= a <= 48 ==> a + 15 <= 2 * Limit(a) <= a + 16
    ensures 48 <= a ==> Limit(a) == 32
  {
  }

  /** init_error_limit; the table pointer becomes an offset of 255. */
  method InitErrorLimit() returns (table: array<int>)
    ensures fresh(table) && LimitTable(table[..])
  {
    table := new int[2 * MAX_ERROR + 1];
    var base := MAX_ERROR;
    var n, out := 0, 0;
    while n < STEPSIZE
      invariant 0 <= n <= STEPSIZE && out == n
      invariant forall e :: -n < e < n ==> table[base + e] == Limit(e)
    {
      table[base + n] := out;
      table[base - n] := -out;
      n, out := n + 1, out + 1;
    }
    while n < 3 * STEPSIZE
      invariant STEPSIZE <= n <= 3 * STEPSIZE && out == STEPSIZE + (n - STEPSIZE) / 2
      invariant forall e :: -n < e < n ==> table[base + e] == Limit(e)
    {
      table[base + n] := out;
      table[base - n] := -out;
      n := n + 1;
      out := out + if n % 2 == 1 then 0 else 1;
    }
    while n <= MAX_ERROR
      invariant 3 * STEPSIZE <= n <= MAX_ERROR + 1 && out == 2 * STEPSIZE
      invariant forall e :: -n < e < n ==> table[base + e] == Limit(e)
    {
      table[base + n] := out;
      table[base - n] := -out;
      n := n + 1;
    }
    forall p | 0 <= p < 2 * MAX_ERROR + 1 ensures table[p] == Limit(p - MAX_ERROR) {
      assert table[base + (p - MAX_ERROR)] == Limit(p - MAX_ERROR);
    }
  }

  ghost predicate LimitTable(table: seq<int>) {
    |table| == 2 * MAX_ERROR + 1 && forall p :: 0 <= p < |table| ==> table[p] == Limit(p - MAX_ERROR)
  }

  lemma Limits(table: seq<int>, e: int)
    requires LimitTable(table) && -MAX_ERROR <= e <= MAX_ERROR
    ensures |table| == 2 * MAX_ERROR + 1 && table[e + MAX_ERROR] == Limit(e)
        && -2 * STEPSIZE <= Limit(e) <= 2 * STEPSIZE
  {
    LimitShape(e, e);
  }

  // ---------------------------------------------------------------- the textbook

  type Component = k: nat | k < 3

  function Part(c: Color, k: Component): Sample {
    if k == 0 then c.c0 else if k == 1 then c.c1 else c.c2
  }

  ghost predicate IsImage(img: seq<seq<Color>>, w: nat) {
    forall r :: 0 <= r < |img| ==> |img[r]| == w
  }

  /** The colormap entry chosen for a colour: the first of those nearest to the centre of its cell. */
  ghost function Pick(m: Colormap, c: Color): (i: nat)
    ensures IsNearest(m, Center(CellOf(c)), i)
  {
    Choosable(m, c);
    var i :| IsNearest(m, Center(CellOf(c)), i);
    i
  }

  lemma PickInside(m: Colormap, c: Color)
    ensures Pick(m, c) < |m|
  {
  }

  lemma Choosable(m: Colormap, c: Color)
    ensures exists i: nat :: IsNearest(m, Center(CellOf(c)), i)
  {
    var i := NearestExists(m, Center(CellOf(c)), |m|);
  }

  /** The representation error of component k at column c of the last row; none outside the image. */
  ghost function Err(m: Colormap, img: seq<seq<Color>>, w: nat, k: Component, c: int): int
    requires IsImage(img, w)
    decreases |img|, 0, if Dir(|img| - 1) == 1 then c else w - 1 - c, 2
  {
    if img == [] || c < 0 || c >= w then 0
    else
      var v := Value(m, img, w, c);
      Part(v, k) - Part(m[Pick(m, v)], k)
  }

  /** The corrected colour, which is what is looked up. */
  ghost function Value(m: Colormap, img: seq<seq<Color>>, w: nat, c: int): Color
    requires IsImage(img, w) && img != [] && 0 <= c < w
    decreases |img|, 0, if Dir(|img| - 1) == 1 then c else w - 1 - c, 1
  {
    Color(Corrected(m, img, w, 0, c), Corrected(m, img, w, 1, c), Corrected(m, img, w, 2, c))
  }

  /** Seven sixteenths of the previous pixel's error and the shares from the row above, rounded to
      nearest and limited, are added to the sample, which is then clamped. */
  ghost function Corrected(m: Colormap, img: seq<seq<Color>>, w: nat, k: Component, c: int): Sample
    requires IsImage(img, w) && img != [] && 0 <= c < w
    decreases |img|, 0, if Dir(|img| - 1) == 1 then c else w - 1 - c, 0
  {
    var r := |img| - 1;
    var incoming := 7 * Err(m, img, w, k, c - Dir(r)) + Carried(m, img[..r], w, k, c);
    Clamp(Part(img[r][c], k) + Limit(Rounded(incoming)))
  }

  /** What column c receives from the last row of img. */
  ghost function Carried(m: Colormap, img: seq<seq<Color>>, w: nat, k: Component, c: int): int
    requires IsImage(img, w)
    decreases |img|, 1, 0, 0
  {
    var d := Dir(|img| - 1);
    5 * Err(m, img, w, k, c) + 3 * Err(m, img, w, k, c + d) + Err(m, img, w, k, c - d)
  }

  // ---------------------------------------------------------------- one row

  ghost function Errors(m: Colormap, img: seq<seq<Color>>, w: nat, k: Component): int -> int
    requires IsImage(img, w)
  {
    (c: int) => Err(m, img, w, k, c)
  }

  ghost function Received(m: Colormap, img: seq<seq<Color>>, w: nat, k: Component): int -> int
    requires IsImage(img, w)
  {
    (c: int) => Carried(m, img, w, k, c)
  }

  /** No error exceeds the sample range. */
  lemma ErrorsFit(m: Colormap, img: seq<seq<Color>>, w: nat, k: Component)
    requires IsImage(img, w)
    ensures Bounded(Errors(m, img, w, k)) && ZeroOutside(Errors(m, img, w, k), w)
  {
    hide Pick, Value;
  }

  lemma HandedOn(m: Colormap, now: seq<seq<Color>>, w: nat, k: Component, odd: bool)
    requires IsImage(now, w) && now != [] && odd == (|now| % 2 == 0)
    ensures forall c :: Received(m, now, w, k)(c) == Spread(Errors(m, now, w, k), Turn(odd), c)
  {
    hide Err;
    assert Dir(|now| - 1) == Turn(odd);
  }

  /** The correction never exceeds the sample range before it is limited. */
  lemma DueBound(m: Colormap, now: seq<seq<Color>>, w: nat, k: Component, c: int)
    requires IsImage(now, w) && now != [] && 0 <= c < w
    ensures -MAX_ERROR <= Rounded(Due(m, now, w, k, c)) <= MAX_ERROR
  {
    hide Err;
    var r := |now| - 1;
    ErrorsFit(m, now, w, k);
    ErrorsFit(m, now[..r], w, k);
    assert -MAX_ERROR <= Errors(m, now, w, k)(c - Dir(r)) <= MAX_ERROR;
    SpreadBound(Errors(m, now[..r], w, k), Dir(r - 1), c);
  }

  /** What component k of column c of the last row receives, in sixteenths. */
  ghost function Due(m: Colormap, now: seq<seq<Color>>, w: nat, k: Component, c: int): int
    requires IsImage(now, w) && now != []
  {
    7 * Err(m, now, w, k, c - Dir(|now| - 1)) + Carried(m, now[..|now| - 1], w, k, c)
  }

  /** The correction is in the table, and what it corrects is the textbook's sample. */
  lemma CorrectedIs(m: Colormap, now: seq<seq<Color>>, w: nat, k: Component, c: int)
    requires IsImage(now, w) && now != [] && 0 <= c < w
    ensures var a := Rounded(Due(m, now, w, k, c));
      -MAX_ERROR <= a <= MAX_ERROR && Corrected(m, now, w, k, c) == Clamp(Part(now[|now| - 1][c], k) + Limit(a))
  {
    DueBound(m, now, w, k, c);
    hide Carried, Err, Clamp, Limit, Dir, Part, Rounded;
  }

  /** One component of one pixel, as the loop computes it. */
  method Correct(m: Colormap, limiter: array<int>, pixel: Color, incoming: int, k: Component,
      ghost now: seq<seq<Color>>, ghost w: nat, ghost c: int)
    returns (v: Sample)
    requires LimitTable(limiter[..]) && IsImage(now, w) && now != [] && 0 <= c < w
    requires pixel == now[|now| - 1][c] && incoming == Due(m, now, w, k, c)
    ensures v == Corrected(m, now, w, k, c)
  {
    hide Corrected, Due, IsImage, Clamp, Simple, Limit, Part, LimitTable;
    CorrectedIs(m, now, w, k, c);
    var cur := (incoming + 8) / 16;
    Limits(limiter[..], cur);
    cur := limiter[cur + MAX_ERROR];
    cur := cur + Part(pixel, k);
    SimpleClamps(cur);
    v := Simple(cur);
  }

  // ---------------------------------------------------------------- three components in one array

  /** The entries of component k. */
  ghost function View(errors: seq<int>, w: nat, k: Component): (v: seq<int>)
    requires |errors| == 3 * (w + 2)
    ensures |v| == w + 2
  {
    seq(w + 2, j requires 0 <= j < w + 2 => errors[3 * j + k])
  }

  lemma ViewOfThree(errors: seq<int>, w: nat, at: nat, x0: int, x1: int, x2: int)
    requires |errors| == 3 * (w + 2) && at < w + 2
    ensures var after := errors[3 * at := x0][3 * at + 1 := x1][3 * at + 2 := x2];
      && View(after, w, 0) == View(errors, w, 0)[at := x0]
      && View(after, w, 1) == View(errors, w, 1)[at := x1]
      && View(after, w, 2) == View(errors, w, 2)[at := x2]
  {
  }

  /** The running sums of the three components. */
  datatype Triple = Triple(s0: Sums, s1: Sums, s2: Sums)

  function Of(t: Triple, k: Component): Sums {
    if k == 0 then t.s0 else if k == 1 then t.s1 else t.s2
  }

  predicate Odd(now: seq<seq<Color>>) {
    |now| % 2 == 0
  }

  /** Component k when i pixels of the last row are done. */
  ghost predicate Going(m: Colormap, now: seq<seq<Color>>, w: nat, k: Component, errors: seq<int>, i: int, s: Sums)
    requires IsImage(now, w) && now != []
  {
    && Holds(Received(m, now[..|now| - 1], w, k), Errors(m, now, w, k), Odd(now), w, errors, i)
    && Running(Errors(m, now, w, k), Turn(Odd(now)), EntryIndex(Odd(now), w, i) - 1, s)
  }

  /** All three components. */
  ghost predicate AllGoing(m: Colormap, now: seq<seq<Color>>, w: nat, errors: seq<int>, i: int, t: Triple)
    requires IsImage(now, w) && now != []
  {
    |errors| == 3 * (w + 2) && forall k: Component :: Going(m, now, w, k, View(errors, w, k), i, Of(t, k))
  }

  lemma StepIncoming(m: Colormap, now: seq<seq<Color>>, w: nat, k: Component, errors: seq<int>, i: nat, s: Sums, c: int)
    requires IsImage(now, w) && now != [] && Going(m, now, w, k, errors, i, s) && i < w
    requires c == EntryIndex(Odd(now), w, i) - 1 + Turn(Odd(now))
    ensures 0 <= c < w && Pos(Odd(now), w, c) == i && |errors| == w + 2 && s.cur + errors[c + 1] == Due(m, now, w, k, c)
  {
    hide Holds, Running, Err, Carried;
    EntryAhead(Received(m, now[..|now| - 1], w, k), Errors(m, now, w, k), Odd(now), w, errors, i, s);
    assert Turn(Odd(now)) == Dir(|now| - 1);
  }

  /** What the three components of the next pixel receive, as the loop adds it up. */
  lemma AllIncoming(m: Colormap, now: seq<seq<Color>>, w: nat, errors: seq<int>, i: nat, t: Triple, c: int)
    requires IsImage(now, w) && now != [] && AllGoing(m, now, w, errors, i, t) && i < w
    requires c == EntryIndex(Odd(now), w, i) - 1 + Turn(Odd(now))
    ensures 0 <= c < w && Pos(Odd(now), w, c) == i && |errors| == 3 * (w + 2)
    ensures t.s0.cur + errors[3 * (c + 1)] == Due(m, now, w, 0, c)
    ensures t.s1.cur + errors[3 * (c + 1) + 1] == Due(m, now, w, 1, c)
    ensures t.s2.cur + errors[3 * (c + 1) + 2] == Due(m, now, w, 2, c)
  {
    hide Going, Due, IsImage, EntryIndex, Turn, Pos, Odd;
    StepIncoming(m, now, w, 0, View(errors, w, 0), i, Of(t, 0), c);
    StepIncoming(m, now, w, 1, View(errors, w, 1), i, Of(t, 1), c);
    StepIncoming(m, now, w, 2, View(errors, w, 2), i, Of(t, 2), c);
  }

  lemma StepGoing(m: Colormap, now: seq<seq<Color>>, w: nat, k: Component, errors: seq<int>, i: nat, s: Sums, e: int)
    requires IsImage(now, w) && now != [] && Going(m, now, w, k, errors, i, s) && i < w
    requires e == Errors(m, now, w, k)(EntryIndex(Odd(now), w, i) - 1 + Turn(Odd(now)))
    ensures var at := EntryIndex(Odd(now), w, i);
      && 0 <= at < |errors| && Going(m, now, w, k, errors[at := Wrap16(s.bpreverr + 3 * e)], i + 1,
          Sums(7 * e, e, s.belowerr + 5 * e))
  {
    var before := now[..|now| - 1];
    var odd, p := Odd(now), EntryIndex(Odd(now), w, i);
    assert IsImage(before, w) && EntryIndex(odd, w, i + 1) == p + Turn(odd);
    hide Errors, Received, Holds, Running, Bounded, ZeroOutside, Spread, Wrap16, EntryIndex, Turn, Odd, IsImage;
    ErrorsFit(m, now, w, k);
    PixelSpread(Received(m, before, w, k), Errors(m, now, w, k), odd, w, errors, i, s, e);
  }

  /** One pixel whose errors are e0, e1 and e2. */
  lemma AllMove(m: Colormap, now: seq<seq<Color>>, w: nat, errors: seq<int>, i: nat, t: Triple, e0: int, e1: int,
      e2: int)
    requires IsImage(now, w) && now != [] && AllGoing(m, now, w, errors, i, t) && i < w
    requires var c := EntryIndex(Odd(now), w, i) - 1 + Turn(Odd(now));
      e0 == Errors(m, now, w, 0)(c) && e1 == Errors(m, now, w, 1)(c) && e2 == Errors(m, now, w, 2)(c)
    ensures var at := EntryIndex(Odd(now), w, i);
      && 0 <= at < w + 2 && |errors| == 3 * (w + 2)
      && AllGoing(m, now, w,
           errors[3 * at := Wrap16(t.s0.bpreverr + 3 * e0)]
             [3 * at + 1 := Wrap16(t.s1.bpreverr + 3 * e1)][3 * at + 2 := Wrap16(t.s2.bpreverr + 3 * e2)],
           i + 1, Triple(Sums(7 * e0, e0, t.s0.belowerr + 5 * e0), Sums(7 * e1, e1, t.s1.belowerr + 5 * e1),
               Sums(7 * e2, e2, t.s2.belowerr + 5 * e2)))
  {
    hide Going, View, Errors, Wrap16, Turn, IsImage, Odd;
    var at := EntryIndex(Odd(now), w, i);
    StepGoing(m, now, w, 0, View(errors, w, 0), i, Of(t, 0), e0);
    StepGoing(m, now, w, 1, View(errors, w, 1), i, Of(t, 1), e1);
    StepGoing(m, now, w, 2, View(errors, w, 2), i, Of(t, 2), e2);
    ViewOfThree(errors, w, at, Wrap16(t.s0.bpreverr + 3 * e0), Wrap16(t.s1.bpreverr + 3 * e1),
        Wrap16(t.s2.bpreverr + 3 * e2));
  }

  // ---------------------------------------------------------------- between rows

  ghost predicate AllStored(m: Colormap, done: seq<seq<Color>>, w: nat, errors: seq<int>)
    requires IsImage(done, w)
  {
    |errors| == 3 * (w + 2) && forall k: Component :: Stored(Received(m, done, w, k), w, View(errors, w, k))
  }

  lemma NothingStored(m: Colormap, w: nat, errors: seq<int>)
    requires |errors| == 3 * (w + 2) && forall p :: 0 <= p < |errors| ==> errors[p] == 0
    ensures AllStored(m, [], w, errors)
  {
  }

  lemma AllStart(m: Colormap, now: seq<seq<Color>>, w: nat, errors: seq<int>)
    requires IsImage(now, w) && now != [] && AllStored(m, now[..|now| - 1], w, errors)
    ensures AllGoing(m, now, w, errors, 0, Triple(Sums(0, 0, 0), Sums(0, 0, 0), Sums(0, 0, 0)))
  {
    hide Errors, Received, View, Stored, Running, Holds, ZeroOutside, Bounded, Odd;
    forall k: Component ensures Going(m, now, w, k, View(errors, w, k), 0, Sums(0, 0, 0)) {
      ErrorsFit(m, now, w, k);
      RowStarts(Received(m, now[..|now| - 1], w, k), Errors(m, now, w, k), Odd(now), w, View(errors, w, k));
    }
  }

  /** One component of the cleanup. */
  lemma StepEnd(m: Colormap, now: seq<seq<Color>>, w: nat, k: Component, errors: seq<int>, s: Sums)
    requires IsImage(now, w) && now != [] && Going(m, now, w, k, errors, w, s)
    ensures var at := EntryIndex(Odd(now), w, w);
      0 <= at < |errors| == w + 2 && Stored(Received(m, now, w, k), w, errors[at := Wrap16(s.bpreverr)])
  {
    ErrorsFit(m, now, w, k);
    HandedOn(m, now, w, k, Odd(now));
    hide Errors, Received, Stored, Running, Holds, ZeroOutside, Bounded, Spread, Wrap16, EntryIndex, Turn, IsImage, Odd;
    RowEnds(Received(m, now[..|now| - 1], w, k), Errors(m, now, w, k), Received(m, now, w, k), Odd(now), w, errors, s);
  }

  lemma AllEnd(m: Colormap, now: seq<seq<Color>>, w: nat, errors: seq<int>, t: Triple)
    requires IsImage(now, w) && now != [] && AllGoing(m, now, w, errors, w, t)
    ensures var at := EntryIndex(Odd(now), w, w);
      && 0 <= at < w + 2 && |errors| == 3 * (w + 2)
      && AllStored(m, now, w, errors[3 * at := Wrap16(t.s0.bpreverr)]
        [3 * at + 1 := Wrap16(t.s1.bpreverr)][3 * at + 2 := Wrap16(t.s2.bpreverr)])
  {
    hide Going, Stored, View, Received, Wrap16, EntryIndex, IsImage, Odd;
    var at := EntryIndex(Odd(now), w, w);
    StepEnd(m, now, w, 0, View(errors, w, 0), Of(t, 0));
    StepEnd(m, now, w, 1, View(errors, w, 1), Of(t, 1));
    StepEnd(m, now, w, 2, View(errors, w, 2), Of(t, 2));
    ViewOfThree(errors, w, at, Wrap16(t.s0.bpreverr), Wrap16(t.s1.bpreverr), Wrap16(t.s2.bpreverr));
  }

  // ---------------------------------------------------------------- what is put out

  /** The pixels done so far have the entries picked for their corrected colours. */
  ghost predicate Emitted(m: Colormap, now: seq<seq<Color>>, w: nat, out: seq<nat>, i: int)
    requires IsImage(now, w) && now != []
  {
    |out| == w && forall j :: 0 <= j < w && Pos(Odd(now), w, j) < i ==> out[j] == Pick(m, Value(m, now, w, j))
  }

  lemma NoneEmitted(m: Colormap, now: seq<seq<Color>>, w: nat, out: seq<nat>)
    requires IsImage(now, w) && now != [] && |out| == w
    ensures Emitted(m, now, w, out, 0)
  {
    hide Pick, Value;
  }

  lemma EmitOne(m: Colormap, now: seq<seq<Color>>, w: nat, out: seq<nat>, i: nat, c: nat)
    requires IsImage(now, w) && now != [] && Emitted(m, now, w, out, i) && i < w && c < w && Pos(Odd(now), w, c) == i
    ensures |out| == w && Emitted(m, now, w, out[c := Pick(m, Value(m, now, w, c))], i + 1)
  {
    hide Pick, Value;
  }

  lemma AllEmitted(m: Colormap, now: seq<seq<Color>>, w: nat, out: seq<nat>)
    requires IsImage(now, w) && now != [] && Emitted(m, now, w, out, w)
    ensures |out| == w && forall c :: 0 <= c < w ==> IsNearest(m, Center(CellOf(Value(m, now, w, c))), out[c])
  {
    hide Value, IsNearest;
    forall c | 0 <= c < w ensures IsNearest(m, Center(CellOf(Value(m, now, w, c))), out[c]) {
      assert out[c] == Pick(m, Value(m, now, w, c));
    }
  }

  lemma ValueIs(m: Colormap, img: seq<seq<Color>>, w: nat, c: int, v: Color)
    requires IsImage(img, w) && img != [] && 0 <= c < w
    requires v.c0 == Corrected(m, img, w, 0, c) && v.c1 == Corrected(m, img, w, 1, c)
        && v.c2 == Corrected(m, img, w, 2, c)
    ensures v == Value(m, img, w, c)
  {
    hide Corrected;
  }

  function Difference(a: int, b: int): int {
    a - b
  }

  lemma ErrAt(m: Colormap, now: seq<seq<Color>>, w: nat, k: Component, c: nat)
    requires IsImage(now, w) && now != [] && c < w
    ensures var v := Value(m, now, w, c); Errors(m, now, w, k)(c) == Part(v, k) - Part(m[Pick(m, v)], k)
  {
    hide Value, Pick;
  }

  // ---------------------------------------------------------------- the pass

  class FsMapper {
    const cq: ColorQuantizer
    const width: nat
    /** Three entries for every column, and for one column more on either side. */
    const fserrors: array<int>
    var errorLimiter: array?<int>
    var onOddRow: bool
    /** Rows seen since the start of the pass. */
    ghost var done: seq<seq<Color>>

    ghost predicate Shape()
      reads this
    {
      fserrors.Length == 3 * (width + 2) && (errorLimiter != null ==> errorLimiter != fserrors)
    }

    ghost predicate Valid()
      reads this, cq, cq.histogram, fserrors, errorLimiter
    {
      && Shape() && cq.Valid() && cq.phase.Mapping?
      && errorLimiter != null && LimitTable(errorLimiter[..])
      && IsImage(done, width) && onOddRow == (|done| % 2 == 1)
      && AllStored(cq.colormap, done, width, fserrors[..])
    }

    constructor (cq: ColorQuantizer, width: nat)
      ensures Shape() && this.cq == cq && this.width == width && errorLimiter == null && fresh(fserrors)
    {
      this.cq, this.width := cq, width;
      fserrors := new int[3 * (width + 2)];
      errorLimiter := null;
      onOddRow := false;
      done := [];
    }

    /** start_pass_2_quant when dithering; false is the error exit for an unusable colormap. */
    method StartPass() returns (ok: bool)
      requires Shape() && cq.Valid() && !cq.phase.Prescan?
      requires errorLimiter != null ==> LimitTable(errorLimiter[..])
      modifies this, cq, cq.histogram, fserrors
      ensures ok <==> InverseColormap.Usable(cq.colormap)
      ensures cq.colormap == old(cq.colormap) && (ok ==> Valid() && done == [])
    {
      ok := cq.StartPass(false);
      if !ok { return; }
      forall p | 0 <= p < fserrors.Length { fserrors[p] := 0; }
      if errorLimiter == null {
        errorLimiter := InitErrorLimit();
      }
      onOddRow := false;
      done := [];
      NothingStored(cq.colormap, width, fserrors[..]);
    }

    /** One row of pass2_fs_dither.  Whatever rows came before, in however many calls, and whatever the
        cache held, every pixel gets the nearest entry for its corrected colour, where the corrections
        are those of the two-dimensional diffusion of the whole image so far. */
    method MapRow(row: seq<Color>, output: array<nat>)
      requires Valid() && |row| == width && output.Length == width
      modifies this`onOddRow, this`done, cq.histogram, fserrors, output
      ensures Valid() && done == old(done) + [row]
      ensures forall c :: 0 <= c < width ==>
          IsNearest(cq.colormap, Center(CellOf(Value(cq.colormap, done, width, c))), output[c])
    {
      ghost var now := done + [row];
      assert IsImage(now, width) && now[..|now| - 1] == done;
      DitherRow(row, output, now);
      AllEmitted(cq.colormap, now, width, output[..]);
      onOddRow := !onOddRow;
      done := now;
    }

    /** Row is the last row of now, of which i pixels are done. */
    ghost predicate InRow(now: seq<seq<Color>>, row: seq<Color>, i: int, at: int, dir: int)
      reads this, cq
    {
      && Shape() && Usable(cq.colormap) && IsImage(now, width) && now != [] && row == now[|now| - 1]
      && 0 <= i <= width && at == EntryIndex(Odd(now), width, i) && dir == Turn(Odd(now))
    }

    /** The loops of pass2_fs_dither for one row. */
    method DitherRow(row: seq<Color>, output: array<nat>, ghost now: seq<seq<Color>>)
      requires Valid() && |row| == width && output.Length == width && IsImage(now, width)
      requires now != [] && now[..|now| - 1] == done && now[|now| - 1] == row
      modifies cq.histogram, fserrors, output
      ensures cq.Valid() && AllStored(cq.colormap, now, width, fserrors[..])
          && Emitted(cq.colormap, now, width, output[..], width)
    {
      var m: Colormap := cq.colormap;
      hide AllGoing, AllStored, Emitted, LimitTable, CacheOk, IsImage;
      var dir := if onOddRow then -1 else 1;
      var at := if onOddRow then width + 1 else 0;
      var t := Triple(Sums(0, 0, 0), Sums(0, 0, 0), Sums(0, 0, 0));
      AllStart(m, now, width, fserrors[..]);
      NoneEmitted(m, now, width, output[..]);
      at, t := DitherPixels(row, output, at, dir, t, now);
      Unload(row, at, t, now, dir);
    }

    /** The loop over the pixels of a row. */
    method DitherPixels(row: seq<Color>, output: array<nat>, start: int, dir: int, t0: Triple,
        ghost now: seq<seq<Color>>)
      returns (at: int, t: Triple)
      requires InRow(now, row, 0, start, dir) && output.Length == width
      requires cq.Valid() && cq.phase.Mapping? && errorLimiter != null && LimitTable(errorLimiter[..])
      requires AllGoing(cq.colormap, now, width, fserrors[..], 0, t0) && Emitted(cq.colormap, now, width, output[..], 0)
      modifies cq.histogram, fserrors, output
      ensures cq.Valid() && InRow(now, row, width, at, dir)
      ensures AllGoing(cq.colormap, now, width, fserrors[..], width, t)
          && Emitted(cq.colormap, now, width, output[..], width)
    {
      hide AllGoing, Emitted, LimitTable, CacheOk, IsImage;
      at, t := start, t0;
      var i := 0;
      while i < width
        invariant InRow(now, row, i, at, dir) && cq.Valid()
        invariant AllGoing(cq.colormap, now, width, fserrors[..], i, t)
        invariant Emitted(cq.colormap, now, width, output[..], i)
      {
        t := DitherPixel(row, output, at, dir, t, now, i);
        at := at + dir;
        i := i + 1;
      }
    }

    /** One pixel. */
    method DitherPixel(row: seq<Color>, output: array<nat>, at: int, dir: int, t: Triple, ghost now: seq<seq<Color>>,
        ghost i: int)
      returns (t': Triple)
      requires InRow(now, row, i, at, dir) && i < width && output.Length == width
      requires cq.Valid() && cq.phase.Mapping? && errorLimiter != null && LimitTable(errorLimiter[..])
      requires AllGoing(cq.colormap, now, width, fserrors[..], i, t) && Emitted(cq.colormap, now, width, output[..], i)
      modifies cq.histogram, fserrors, output
      ensures cq.Valid() && AllGoing(cq.colormap, now, width, fserrors[..], i + 1, t')
      ensures Emitted(cq.colormap, now, width, output[..], i + 1)
    {
      hide AllGoing, Emitted, LimitTable, Value, Pick, IsNearest, Center, CellOf;
      ghost var o0 := output[..];
      var m: Colormap, c := cq.colormap, at - 1 + dir;
      var v := CorrectPixel(row, at, dir, t, now, i);
      var pixcode := cq.Lookup(v);
      NearestUnique(m, Center(CellOf(v)), pixcode, Pick(m, v));
      EmitOne(m, now, width, o0, i, c);
      output[c] := pixcode;
      assert output[..] == o0[c := pixcode];
      t' := PassOnAll(row, at, dir, t, v, pixcode, now, i);
    }

    /** Adds the limited corrections to the three samples of a pixel. */
    method CorrectPixel(row: seq<Color>, at: int, dir: int, t: Triple, ghost now: seq<seq<Color>>, ghost i: int)
      returns (v: Color)
      requires InRow(now, row, i, at, dir) && i < width && errorLimiter != null && LimitTable(errorLimiter[..])
      requires AllGoing(cq.colormap, now, width, fserrors[..], i, t)
      ensures 0 <= at - 1 + dir < width && Pos(Odd(now), width, at - 1 + dir) == i
      ensures v == Value(cq.colormap, now, width, at - 1 + dir)
    {
      var m: Colormap, c := cq.colormap, at - 1 + dir;
      AllIncoming(m, now, width, fserrors[..], i, t, c);
      assert fserrors.Length == 3 * (width + 2) && 3 * (at + dir) == 3 * (c + 1) && |row| == width;
      hide *;
      var in0, in1, in2 := t.s0.cur + fserrors[3 * (at + dir)], t.s1.cur + fserrors[3 * (at + dir) + 1],
          t.s2.cur + fserrors[3 * (at + dir) + 2];
      var v0 := Correct(m, errorLimiter, row[c], in0, 0, now, width, c);
      var v1 := Correct(m, errorLimiter, row[c], in1, 1, now, width, c);
      var v2 := Correct(m, errorLimiter, row[c], in2, 2, now, width, c);
      v := Color(v0, v1, v2);
      ValueIs(m, now, width, c, v);
    }

    /** Hands on the errors of a pixel whose corrected colour v got entry pixcode. */
    method PassOnAll(row: seq<Color>, at: int, dir: int, t: Triple, v: Color, pixcode: nat, ghost now: seq<seq<Color>>,
        ghost i: int)
      returns (t': Triple)
      requires InRow(now, row, i, at, dir) && i < width && 0 <= at - 1 + dir < width
      requires v == Value(cq.colormap, now, width, at - 1 + dir) && pixcode == Pick(cq.colormap, v)
      requires AllGoing(cq.colormap, now, width, fserrors[..], i, t)
      modifies fserrors
      ensures AllGoing(cq.colormap, now, width, fserrors[..], i + 1, t')
    {
      hide AllGoing, Errors, Value, Pick, IsNearest, Wrap16, Center, CellOf;
      ghost var c, errs := at - 1 + dir, fserrors[..];
      var m: Colormap := cq.colormap;
      ErrAt(m, now, width, 0, c);
      ErrAt(m, now, width, 1, c);
      ErrAt(m, now, width, 2, c);
      PickInside(m, v);
      var cur0, cur1, cur2 := Difference(v.c0, m[pixcode].c0), Difference(v.c1, m[pixcode].c1),
          Difference(v.c2, m[pixcode].c2);
      AllMove(m, now, width, errs, i, t, cur0, cur1, cur2);
      var s0 := PassOn(fserrors, 3 * at, t.s0, cur0);
      var s1 := PassOn(fserrors, 3 * at + 1, t.s1, cur1);
      var s2 := PassOn(fserrors, 3 * at + 2, t.s2, cur2);
      t' := Triple(s0, s1, s2);
    }

    /** The cleanup after the last pixel. */
    method Unload(row: seq<Color>, at: int, t: Triple, ghost now: seq<seq<Color>>, ghost dir: int)
      requires InRow(now, row, width, at, dir) && AllGoing(cq.colormap, now, width, fserrors[..], width, t)
      modifies fserrors
      ensures AllStored(cq.colormap, now, width, fserrors[..])
    {
      AllEnd(cq.colormap, now, width, fserrors[..], t);
      hide AllGoing, AllStored, Wrap16, IsImage;
      ghost var e0 := fserrors[..];
      fserrors[3 * at] := Wrap16(t.s0.bpreverr);
      fserrors[3 * at + 1] := Wrap16(t.s1.bpreverr);
      fserrors[3 * at + 2] := Wrap16(t.s2.bpreverr);
      assert fserrors[..]
          == e0[3 * at := Wrap16(t.s0.bpreverr)]
            [3 * at + 1 := Wrap16(t.s1.bpreverr)][3 * at + 2 := Wrap16(t.s2.bpreverr)];
    }
  }
}
