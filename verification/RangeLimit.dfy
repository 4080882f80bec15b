/** The range-limiting table: clamping by table lookup, plain and after masking. */
module RangeLimit {
  import opened NearestColor

  const MAXJSAMPLE := 255
  const CENTERJSAMPLE := 128

  function Clamp(x: int): Sample {
    if x < 0 then 0 else if x > MAXJSAMPLE then MAXJSAMPLE else x
  }

  const TABLE_SIZE := 1408
  const SIMPLE_BASE := 256
  const IDCT_BASE := 384

  /** What prepare_range_limit_table leaves at offset k of its allocation. */
  function Entry(k: nat): Sample
  {
    if k < 256 then 0
    else if k < 512 then k - 256
    else if k < 896 then MAXJSAMPLE
    else if k < 1280 then 0
    else if k < TABLE_SIZE then k - 1280
    else 0
  }

  /** prepare_range_limit_table; table pointers become offsets. */
  method PrepareRangeLimitTable() returns (table: array<Sample>)
    ensures fresh(table) && table.Length == TABLE_SIZE
    ensures forall k :: 0 <= k < TABLE_SIZE ==> table[k] == Entry(k)
  {
    table := new Sample[TABLE_SIZE];
    var base := MAXJSAMPLE + 1;
    forall k | 0 <= k < MAXJSAMPLE + 1 { table[base - (MAXJSAMPLE + 1) + k] := 0; }
    for i := 0 to MAXJSAMPLE + 1
      invariant forall k :: 0 <= k < base + i ==> table[k] == Entry(k)
    {
      table[base + i] := i;
    }
    base := base + CENTERJSAMPLE;
    for i := CENTERJSAMPLE to 2 * (MAXJSAMPLE + 1)
      invariant forall k :: 0 <= k < base + i ==> table[k] == Entry(k)
    {
      table[base + i] := MAXJSAMPLE;
    }
    var half := base + 2 * (MAXJSAMPLE + 1);
    forall k | 0 <= k < 2 * (MAXJSAMPLE + 1) - CENTERJSAMPLE { table[half + k] := 0; }
    assert forall k :: 0 <= k < 1280 ==> table[k] == Entry(k);
    var tail := base + 4 * (MAXJSAMPLE + 1) - CENTERJSAMPLE;
    forall k | 0 <= k < CENTERJSAMPLE { table[tail + k] := table[SIMPLE_BASE + k]; }
  }

  /** range_limit[x] of the quantizers and upsamplers. */
  function Simple(x: int): Sample
    requires -SIMPLE_BASE <= x < TABLE_SIZE - SIMPLE_BASE
  {
    Entry(x + SIMPLE_BASE)
  }

  /** The plain table clamps everything that can reach it. */
  lemma SimpleClamps(x: int)
    requires -SIMPLE_BASE <= x < 640
    ensures Simple(x) == Clamp(x)
  {
  }

  const RANGE_SIZE := 1024

  /** range_limit[x & RANGE_MASK] after the inverse transform: masking keeps ten bits. */
  function AfterIdct(x: int): Sample {
    Entry(IDCT_BASE + x % RANGE_SIZE)
  }

  /** After the inverse transform the lookup adds the centre and clamps, within 512 either side,
      and never leaves the table for any input at all. */
  lemma AfterIdctClamps(x: int)
    ensures 0 <= IDCT_BASE + x % RANGE_SIZE < TABLE_SIZE
    ensures -512 <= x < 512 ==> AfterIdct(x) == Clamp(x + CENTERJSAMPLE)
  {
    if -512 <= x < 0 { assert x % RANGE_SIZE == x + RANGE_SIZE; }
  }
}
