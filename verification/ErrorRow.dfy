/** One row of Floyd-Steinberg error storage, rewritten in place while a row of pixels is scanned.
    The errors of a row are given as a function of the column, zero outside the image. */
module ErrorRow {
  import opened Bits

  const MAX_ERROR := 255

  /** Rows are scanned left to right and right to left in turn. */
  function Dir(r: int): int {
    if r % 2 == 0 then 1 else -1
  }

  /** What column c of the next row receives, in sixteenths: five from above, three from the pixel
      ahead in scan order, one from the pixel behind. */
  ghost function Spread(err: int -> int, d: int, c: int): int {
    5 * err(c) + 3 * err(c + d) + err(c - d)
  }

  ghost predicate Bounded(err: int -> int) {
    forall c :: -MAX_ERROR <= err(c) <= MAX_ERROR
  }

  ghost predicate ZeroOutside(err: int -> int, w: nat) {
    forall c :: c < 0 || c >= w ==> err(c) == 0
  }

  /** No stored error exceeds nine times the sample range. */
  lemma SpreadBound(err: int -> int, d: int, c: int)
    requires Bounded(err)
    ensures -9 * MAX_ERROR <= Spread(err, d, c) <= 9 * MAX_ERROR
  {
    assert -MAX_ERROR <= err(c) <= MAX_ERROR && -MAX_ERROR <= err(c + d) <= MAX_ERROR
        && -MAX_ERROR <= err(c - d) <= MAX_ERROR;
  }

  /** The shares of a single error e at column at: besides seven sixteenths for the next pixel of the row, five
      go to the pixel below, three to the one below the pixel just left, one to the one below the next, and
      nothing goes anywhere else. */
  lemma Shares(err: int -> int, e: int, at: int, d: int, c: int)
    requires (d == 1 || d == -1) && err(at) == e && forall x :: x != at ==> err(x) == 0
    ensures Spread(err, d, c) == if c == at then 5 * e else if c == at - d then 3 * e else if c == at + d then e else 0
  {
  }

  function Total(f: int -> int, lo: int, n: nat): int {
    if n == 0 then 0 else Total(f, lo, n - 1) + f(lo + n - 1)
  }

  /** What the columns of the next row receive. */
  ghost function HandedDown(err: int -> int, d: int): int -> int {
    (c: int) => Spread(err, d, c)
  }

  lemma {:induction false} SpreadTotal(err: int -> int, d: int, lo: int, n: nat)
    ensures Total(HandedDown(err, d), lo, n)
      == 5 * Total(err, lo, n) + 3 * Total(err, lo + d, n) + Total(err, lo - d, n)
  {
    if n > 0 {
      SpreadTotal(err, d, lo, n - 1);
      assert lo + d + n - 1 == lo + n - 1 + d && lo - d + n - 1 == lo + n - 1 - d;
      assert HandedDown(err, d)(lo + n - 1) == Spread(err, d, lo + n - 1);
    }
  }

  lemma {:induction false} FirstApart(f: int -> int, lo: int, n: nat)
    requires n > 0
    ensures Total(f, lo, n) == f(lo) + Total(f, lo + 1, n - 1)
  {
    if n > 1 { FirstApart(f, lo, n - 1); }
  }

  /** A window around the image sees all of it. */
  lemma {:induction false} WindowTotal(err: int -> int, w: nat, lo: int, n: nat)
    requires ZeroOutside(err, w) && lo <= 0 && lo + n >= w
    ensures Total(err, lo, n) == Total(err, 0, w)
    decreases n
  {
    if lo < 0 && n > 0 {
      FirstApart(err, lo, n);
      WindowTotal(err, w, lo + 1, n - 1);
    } else if lo + n > w {
      WindowTotal(err, w, lo, n - 1);
    } else {
      assert lo == 0 && n == w;
    }
  }

  /** Conservation: with seven sixteenths for the next pixel of the row, all of the errors of a row are handed on,
      nine sixteenths to the next row and the columns on either side of it. */
  lemma NothingIsLost(err: int -> int, w: nat, d: int)
    requires ZeroOutside(err, w) && (d == 1 || d == -1)
    ensures Total(HandedDown(err, d), -1, w + 2) == 9 * Total(err, 0, w)
  {
    hide *;
    SpreadTotal(err, d, -1, w + 2);
    WindowTotal(err, w, -1, w + 2);
    WindowTotal(err, w, -1 + d, w + 2);
    WindowTotal(err, w, -1 - d, w + 2);
  }

  /** Sixteenths to whole numbers, rounded to nearest. */
  function Rounded(sixteenths: int): int {
    (sixteenths + 8) / 16
  }

  /** Place of a column in scan order. */
  function Pos(odd: bool, w: nat, c: int): int {
    if odd then w - 1 - c else c
  }

  /** Direction of a row. */
  function Turn(odd: bool): int {
    if odd then -1 else 1
  }

  /** Between rows: every entry holds what its column receives from the rows above. */
  ghost predicate Stored(above: int -> int, w: nat, errors: seq<int>) {
    |errors| == w + 2 && forall j :: 0 <= j < w ==> errors[j + 1] == above(j)
  }

  /** While a row is scanned: for columns not reached yet, what they receive from above; for columns
      already left behind, what they hand on from the current row. */
  ghost predicate Holds(above: int -> int, err: int -> int, odd: bool, w: nat, errors: seq<int>, i: int) {
    && |errors| == w + 2
    && (forall j :: 0 <= j < w && Pos(odd, w, j) >= i ==> errors[j + 1] == above(j))
    && (forall j :: 0 <= j < w && Pos(odd, w, j) < i - 1 ==> errors[j + 1] == Spread(err, Turn(odd), j))
  }

  /** The running sums of the loop: seven sixteenths for the next pixel, the error that will count
      once below, and what is due to the entry just left. */
  datatype Sums = Sums(cur: int, belowerr: int, bpreverr: int)

  /** The sums when the error pointer is at the entry of column c. */
  ghost predicate Running(err: int -> int, d: int, c: int, s: Sums) {
    s.cur == 7 * err(c) && s.belowerr == err(c) && s.bpreverr == 5 * err(c) + err(c - d)
  }

  /** Index of the entry the error pointer is at after i columns. */
  function EntryIndex(odd: bool, w: nat, i: int): int {
    if odd then w + 1 - i else i
  }

  lemma RowStarts(above: int -> int, err: int -> int, odd: bool, w: nat, errors: seq<int>)
    requires Stored(above, w, errors) && ZeroOutside(err, w)
    ensures Holds(above, err, odd, w, errors, 0) && Running(err, Turn(odd), EntryIndex(odd, w, 0) - 1, Sums(0, 0, 0))
  {
    hide Spread;
  }

  /** What the next pixel receives: seven sixteenths of the last error, and its entry. */
  lemma EntryAhead(above: int -> int, err: int -> int, odd: bool, w: nat, errors: seq<int>, i: nat, s: Sums)
    requires Holds(above, err, odd, w, errors, i) && i < w && Running(err, Turn(odd), EntryIndex(odd, w, i) - 1, s)
    ensures var j := EntryIndex(odd, w, i) - 1 + Turn(odd);
      0 <= j < w && |errors| == w + 2 && s.cur + errors[j + 1] == 7 * err(j - Turn(odd)) + above(j)
          && Pos(odd, w, j) == i
  {
    hide Spread;
    assert errors[EntryIndex(odd, w, i) + Turn(odd)] == above(EntryIndex(odd, w, i) - 1 + Turn(odd));
  }

  /** One pixel with error e: the entry left behind becomes final, and the sums move on.  Entries are
      16-bit, which loses nothing. */
  lemma PixelSpread(above: int -> int, err: int -> int, odd: bool, w: nat, errors: seq<int>, i: nat, s: Sums, e: int)
    requires Holds(above, err, odd, w, errors, i) && i < w && Bounded(err)
    requires var c := EntryIndex(odd, w, i) - 1; Running(err, Turn(odd), c, s) && e == err(c + Turn(odd))
    ensures var at := EntryIndex(odd, w, i);
      && 0 <= at < w + 2 && |errors| == w + 2
      && Holds(above, err, odd, w, errors[at := Wrap16(s.bpreverr + 3 * e)], i + 1)
      && Running(err, Turn(odd), at - 1 + Turn(odd), Sums(7 * e, e, s.belowerr + 5 * e))
  {
    hide Wrap16;
    var c := EntryIndex(odd, w, i) - 1;
    SpreadBound(err, Turn(odd), c);
    assert s.bpreverr + 3 * e == Spread(err, Turn(odd), c);
    assert c + Turn(odd) - Turn(odd) == c;
    hide Spread;
  }

  /** The error fractions of one pixel: the old sums complete the entry at the error pointer, and
      the pixel's own error starts new ones. */
  method PassOn(errors: array<int>, at: nat, s: Sums, e: int) returns (s': Sums)
    requires at < errors.Length
    modifies errors
    ensures errors[..] == old(errors[..])[at := Wrap16(s.bpreverr + 3 * e)]
    ensures s' == Sums(7 * e, e, s.belowerr + 5 * e)
  {
    hide Wrap16;
    var cur := e;
    var bnexterr := cur;
    var delta := cur * 2;
    cur := cur + delta;
    errors[at] := Wrap16(s.bpreverr + cur);
    cur := cur + delta;
    var bpreverr := s.belowerr + cur;
    var belowerr := bnexterr;
    cur := cur + delta;
    s' := Sums(cur, belowerr, bpreverr);
  }

  /** The cleanup after the last pixel completes the row. */
  lemma RowEnds(above: int -> int, err: int -> int, next: int -> int, odd: bool, w: nat, errors: seq<int>, s: Sums)
    requires Holds(above, err, odd, w, errors, w) && Bounded(err) && ZeroOutside(err, w)
    requires Running(err, Turn(odd), EntryIndex(odd, w, w) - 1, s) && forall c :: next(c) == Spread(err, Turn(odd), c)
    ensures var at := EntryIndex(odd, w, w);
      && 0 <= at < w + 2 && |errors| == w + 2
      && Stored(next, w, errors[at := Wrap16(s.bpreverr)])
  {
    hide Wrap16;
    var c := EntryIndex(odd, w, w) - 1;
    SpreadBound(err, Turn(odd), c);
    assert err(c + Turn(odd)) == 0;
    assert s.bpreverr == Spread(err, Turn(odd), c);
    hide Spread;
  }
}
