/** decompress_onepass: a resumable walk over the MCUs that sends every real block to the inverse
    transform once, at its own place, and no padding block at all. */
module McuWalk {
  import opened Bits
  import opened Rounding
  import opened ScanGeometry

  /** A block of a component, by row and column of its block grid. */
  datatype Block = Block(ci: nat, row: int, col: int)

  /** A block inside the image, of a component that is wanted. */
  ghost predicate Real(s: Scan, b: Block) {
    && b.ci < |s.comps| && s.comps[b.ci].needed
    && 0 <= b.row < s.comps[b.ci].heightInBlocks && 0 <= b.col < s.comps[b.ci].widthInBlocks
  }

  /** First block row of MCU row o within iMCU row r. */
  function BaseRow(c: Component, r: int, o: int): int {
    r * c.v + o * c.mcuHeight
  }

  /** The block comes in an MCU before MCU column m of MCU row o of iMCU row r. */
  ghost predicate Before(c: Component, b: Block, r: int, o: int, m: int) {
    b.row < BaseRow(c, r, o) || (b.row < BaseRow(c, r, o) + c.mcuHeight && b.col < m * c.mcuWidth)
  }

  /** Exactly the real blocks before that MCU have been sent. */
  ghost predicate SentBefore(s: Scan, sent: set<Block>, r: int, o: int, m: int) {
    forall b :: b in sent <==> Real(s, b) && Before(s.comps[b.ci], b, r, o, m)
  }

  /** The block lies in that MCU, in a part already gone through: components before k, or rows
      before y of component k, or columns before x of its row y. */
  ghost predicate InPart(s: Scan, b: Block, r: int, o: int, m: int, k: nat, y: int, x: int)
    requires b.ci < |s.comps|
  {
    var c := s.comps[b.ci];
    var row, col := b.row - BaseRow(c, r, o), b.col - m * c.mcuWidth;
    && 0 <= row < c.mcuHeight && 0 <= col < c.mcuWidth
    && (b.ci < k || (b.ci == k && (row < y || (row == y && col < x))))
  }

  ghost predicate SentPart(s: Scan, sent: set<Block>, r: int, o: int, m: int, k: nat, y: int, x: int) {
    forall b :: b in sent <==> Real(s, b) && (Before(s.comps[b.ci], b, r, o, m) || InPart(s, b, r, o, m, k, y, x))
  }

  /** MCU rows in iMCU row r (start_iMCU_row). */
  function McuRows(s: Scan, r: int): int
    requires |s.comps| >= 1
  {
    if |s.comps| > 1 then 1 else if r < s.totalIMcuRows - 1 then s.comps[0].v else s.comps[0].lastRowHeight
  }

  // ---------------------------------------------------------------- where blocks are

  /** Rows of MCUs in the whole of an iMCU row that is not the last. */
  function RowsOfMcus(s: Scan): int
    requires |s.comps| >= 1
  {
    if s.interleaved then 1 else s.comps[0].v
  }

  /** How many MCUs come before MCU column m of MCU row o of iMCU row r, in the order of the scan. */
  function McuCount(s: Scan, r: int, o: int, m: int): int
    requires |s.comps| >= 1
  {
    (r * RowsOfMcus(s) + o) * s.mcusPerRow + m
  }

  /** The number of the MCU that holds a block (sections A.2.2 and A.2.3). */
  ghost function McuOf(s: Scan, b: Block): int
    requires b.ci < |s.comps| && s.comps[b.ci].mcuHeight > 0 && s.comps[b.ci].mcuWidth > 0
  {
    b.row / s.comps[b.ci].mcuHeight * s.mcusPerRow + b.col / s.comps[b.ci].mcuWidth
  }

  /** Blocks of an MCU that belong to components before k. */
  function FirstOf(s: Scan, k: nat): int
    requires k <= |s.comps|
  {
    if k == 0 then 0 else FirstOf(s, k - 1) + s.comps[k - 1].mcuWidth * s.comps[k - 1].mcuHeight
  }

  /** The index of a block in its MCU's buffer: component by component, row by row. */
  ghost function IndexInMcu(s: Scan, b: Block): int
    requires b.ci < |s.comps| && s.comps[b.ci].mcuHeight > 0 && s.comps[b.ci].mcuWidth > 0
  {
    var c := s.comps[b.ci];
    FirstOf(s, b.ci) + b.row % c.mcuHeight * c.mcuWidth + b.col % c.mcuWidth
  }

  // ---------------------------------------------------------------- steps of the walk

  lemma RowBounds(s: Scan, k: nat, r: int, o: int)
    requires ScanOk(s) && k < |s.comps| && 0 <= r < s.totalIMcuRows && 0 <= o < McuRows(s, r)
    ensures 0 <= BaseRow(s.comps[k], r, o) && BaseRow(s.comps[k], r, o + 1)
        == BaseRow(s.comps[k], r, o) + s.comps[k].mcuHeight
    ensures s.interleaved ==> o == 0
  {
    var c := s.comps[k];
    assert CompOk(c, s.mcusPerRow, s.totalIMcuRows, s.interleaved);
    assert (o + 1) * c.mcuHeight == o * c.mcuHeight + c.mcuHeight;
    assert r * c.v >= 0 && o * c.mcuHeight >= 0;
  }

  /** The bottom test of the source: row y of the MCU's blocks is inside the image. */
  lemma RowIsReal(s: Scan, k: nat, r: int, o: int, y: int)
    requires ScanOk(s) && k < |s.comps| && 0 <= r < s.totalIMcuRows && 0 <= o < McuRows(s, r)
        && 0 <= y < s.comps[k].mcuHeight
    ensures BaseRow(s.comps[k], r, o) + y < s.comps[k].heightInBlocks
        <==> r < s.totalIMcuRows - 1 || o + y < s.comps[k].lastRowHeight
  {
    var c := s.comps[k];
    assert CompOk(c, s.mcusPerRow, s.totalIMcuRows, s.interleaved);
    if r < s.totalIMcuRows - 1 { ProductMono(r + 1, s.totalIMcuRows - 1, c.v); NextMultiple(r, c.v); }
  }

  lemma NextMultiple(r: int, v: int)
    ensures (r + 1) * v == r * v + v
  {
  }

  /** The useful width of the source: column x of the MCU's blocks is inside the image. */
  lemma ColIsReal(c: Component, m: int, n: int, inter: bool, mcu: int, x: int)
    requires CompOk(c, m, n, inter) && 0 <= mcu < m && 0 <= x < c.mcuWidth
    ensures mcu * c.mcuWidth >= 0
    ensures mcu * c.mcuWidth + x < c.widthInBlocks <==> mcu < m - 1 || x < c.lastColWidth
  {
    NextMultiple(mcu, c.mcuWidth);
    if mcu < m - 1 { ProductMono(mcu + 1, m - 1, c.mcuWidth); }
  }

  /** An MCU gone through is an MCU before the next. */
  lemma McuDone(s: Scan, sent: set<Block>, r: int, o: int, m: int)
    requires ScanOk(s) && SentPart(s, sent, r, o, m, |s.comps|, 0, 0)
    ensures SentBefore(s, sent, r, o, m + 1)
  {
    forall b ensures b in sent <==> Real(s, b) && Before(s.comps[b.ci], b, r, o, m + 1) {
      if b.ci < |s.comps| {
        assert CompOk(s.comps[b.ci], s.mcusPerRow, s.totalIMcuRows, s.interleaved);
        OneMcu(s, b, r, o, m);
      }
    }
  }

  lemma OneMcu(s: Scan, b: Block, r: int, o: int, m: int)
    requires b.ci < |s.comps| && s.comps[b.ci].mcuWidth >= 1 && s.comps[b.ci].mcuHeight >= 1
    ensures Before(s.comps[b.ci], b, r, o, m + 1)
        <==> Before(s.comps[b.ci], b, r, o, m) || InPart(s, b, r, o, m, |s.comps|, 0, 0)
  {
    hide BaseRow;
    NextMultiple(m, s.comps[b.ci].mcuWidth);
  }

  lemma McuStart(s: Scan, sent: set<Block>, r: int, o: int, m: int)
    requires SentBefore(s, sent, r, o, m)
    ensures SentPart(s, sent, r, o, m, 0, 0, 0)
  {
  }

  /** A row of MCUs done is the next one begun. */
  lemma RowDone(s: Scan, sent: set<Block>, r: int, o: int)
    requires ScanOk(s) && 0 <= r < s.totalIMcuRows && 0 <= o < McuRows(s, r) && SentBefore(s, sent, r, o, s.mcusPerRow)
    ensures SentBefore(s, sent, r, o + 1, 0)
  {
    forall b ensures b in sent <==> Real(s, b) && Before(s.comps[b.ci], b, r, o + 1, 0) {
      if b.ci < |s.comps| {
        RowBounds(s, b.ci, r, o);
        assert CompOk(s.comps[b.ci], s.mcusPerRow, s.totalIMcuRows, s.interleaved);
      }
    }
  }

  /** An iMCU row done is the next one begun, or everything. */
  lemma IMcuDone(s: Scan, sent: set<Block>, r: int)
    requires ScanOk(s) && 0 <= r < s.totalIMcuRows && SentBefore(s, sent, r, McuRows(s, r), 0)
    ensures SentBefore(s, sent, r + 1, 0, 0)
    ensures r + 1 == s.totalIMcuRows ==> forall b :: b in sent <==> Real(s, b)
  {
    forall b ensures b in sent <==> Real(s, b) && Before(s.comps[b.ci], b, r + 1, 0, 0) {
      if b.ci < |s.comps| { LastBase(s, b.ci, r); }
    }
    if r + 1 == s.totalIMcuRows {
      forall b ensures b in sent <==> Real(s, b) {
        if b.ci < |s.comps| { LastBase(s, b.ci, r); }
      }
    }
  }

  lemma LastBase(s: Scan, k: nat, r: int)
    requires ScanOk(s) && k < |s.comps| && 0 <= r < s.totalIMcuRows
    ensures var c := s.comps[k];
      && BaseRow(c, r + 1, 0) == r * c.v + c.v
      && (r + 1 < s.totalIMcuRows ==> BaseRow(c, r, McuRows(s, r)) == BaseRow(c, r + 1, 0))
      && (r + 1 == s.totalIMcuRows ==>
          c.heightInBlocks <= BaseRow(c, r, McuRows(s, r)) && c.heightInBlocks <= BaseRow(c, r + 1, 0))
      && BaseRow(c, r, McuRows(s, r)) <= BaseRow(c, r + 1, 0)
  {
    var c := s.comps[k];
    assert CompOk(c, s.mcusPerRow, s.totalIMcuRows, s.interleaved);
    assert (r + 1) * c.v == r * c.v + c.v;
  }

  /** An unwanted component contributes nothing. */
  lemma SkipComponent(s: Scan, sent: set<Block>, r: int, o: int, m: int, k: nat)
    requires SentPart(s, sent, r, o, m, k, 0, 0) && k < |s.comps| && !s.comps[k].needed
    ensures SentPart(s, sent, r, o, m, k + 1, 0, 0)
  {
  }

  lemma ComponentDone(s: Scan, sent: set<Block>, r: int, o: int, m: int, k: nat)
    requires k < |s.comps| && SentPart(s, sent, r, o, m, k, s.comps[k].mcuHeight, 0)
    ensures SentPart(s, sent, r, o, m, k + 1, 0, 0)
  {
  }

  /** The rest of a row of blocks is padding. */
  lemma LineDone(s: Scan, sent: set<Block>, r: int, o: int, m: int, k: nat, y: int, x: int)
    requires k < |s.comps| && SentPart(s, sent, r, o, m, k, y, x)
    requires var c := s.comps[k];
        BaseRow(c, r, o) + y >= c.heightInBlocks || m * c.mcuWidth + x >= c.widthInBlocks || x >= c.mcuWidth
    ensures SentPart(s, sent, r, o, m, k, y + 1, 0)
  {
  }

  datatype Status = Suspended | RowCompleted | ScanCompleted

  class CoefController {
    const scan: Scan
    var inputIMcuRow: int
    var mcuCtr: int
    var mcuVertOffset: int
    var mcuRowsPerIMcuRow: int
    /** Blocks sent to the inverse transform so far. */
    ghost var sent: set<Block>
    /** MCUs decoded so far; the buffer holds the last of them. */
    ghost var decoded: int

    ghost predicate Valid()
      reads this
    {
      && ScanOk(scan) && 0 <= inputIMcuRow < scan.totalIMcuRows
      && mcuRowsPerIMcuRow == McuRows(scan, inputIMcuRow)
      && 0 <= mcuVertOffset <= mcuRowsPerIMcuRow && 0 <= mcuCtr <= scan.mcusPerRow
      && (mcuVertOffset == mcuRowsPerIMcuRow ==> mcuCtr == 0)
      && SentBefore(scan, sent, inputIMcuRow, mcuVertOffset, mcuCtr)
      && decoded == McuCount(scan, inputIMcuRow, mcuVertOffset, mcuCtr)
    }

    /** start_input_pass. */
    constructor (scan: Scan)
      requires ScanOk(scan)
      ensures Valid() && this.scan == scan && sent == {} && decoded == 0
    {
      this.scan := scan;
      inputIMcuRow, mcuCtr, mcuVertOffset := 0, 0, 0;
      mcuRowsPerIMcuRow := McuRows(scan, 0);
      sent, decoded := {}, 0;
    }

    /** The block whose samples start at row outRow and column outCol of component k's part of the
        output for this iMCU row. */
    ghost function Target(k: nat, outRow: int, outCol: int): Block
      requires k < |scan.comps|
      reads this
    {
      Block(k, inputIMcuRow * scan.comps[k].v + outRow / DCTSIZE, outCol / DCTSIZE)
    }

    /** Block blkn of the MCU buffer goes through the inverse transform to the given place of component
        k's output.  The block of that place is real, has not been sent before, and is the one that
        the buffer holds there. */
    method InverseDct(k: nat, blkn: int, outRow: int, outCol: int)
      requires ScanOk(scan) && k < |scan.comps| && outRow % DCTSIZE == 0 && outCol % DCTSIZE == 0
      requires var b := Target(k, outRow, outCol); Real(scan, b) && b !in sent
      requires var c := scan.comps[k]; c.mcuHeight > 0 && c.mcuWidth > 0
      requires var b := Target(k, outRow, outCol); McuOf(scan, b) == decoded - 1 && blkn == IndexInMcu(scan, b)
      modifies this`sent
      ensures sent == old(sent) + {Target(k, outRow, outCol)}
    {
      sent := sent + {Target(k, outRow, outCol)};
    }

    /** MCU column mcu of MCU row yoffset is in the buffer. */
    ghost predicate Buffered(yoffset: int, mcu: int)
      reads this
    {
      && ScanOk(scan) && 0 <= inputIMcuRow < scan.totalIMcuRows
      && 0 <= yoffset < McuRows(scan, inputIMcuRow) && 0 <= mcu < scan.mcusPerRow
      && decoded == McuCount(scan, inputIMcuRow, yoffset, mcu) + 1
    }

    /** A row of blocks of one component of the MCU. */
    method SendLine(k: nat, yoffset: int, mcu: int, y: int, useful: int, blkn: int, outRow: int, startCol: int)
      requires Buffered(yoffset, mcu) && k < |scan.comps| && scan.comps[k].needed
      requires var c := scan.comps[k];
        && useful == Useful(scan, c, mcu)
        && 0 <= y < c.mcuHeight && BaseRow(c, inputIMcuRow, yoffset) + y < c.heightInBlocks
        && blkn == FirstOf(scan, k) + y * c.mcuWidth
        && outRow == yoffset * DCTSIZE + y * DCTSIZE && startCol == mcu * (c.mcuWidth * DCTSIZE)
      requires SentPart(scan, sent, inputIMcuRow, yoffset, mcu, k, y, 0)
      modifies this`sent
      ensures SentPart(scan, sent, inputIMcuRow, yoffset, mcu, k, y + 1, 0)
    {
      assert ScanOk(scan) && 0 <= inputIMcuRow < scan.totalIMcuRows && 0 <= yoffset < McuRows(scan, inputIMcuRow)
        && 0 <= mcu < scan.mcusPerRow && decoded == McuCount(scan, inputIMcuRow, yoffset, mcu) + 1;
      assert CompOk(scan.comps[k], scan.mcusPerRow, scan.totalIMcuRows, scan.interleaved);
      assert scan.comps[k].mcuWidth >= 1 && scan.comps[k].mcuHeight >= 1;
      hide *;
      var outputCol := startCol;
      var x := 0;
      while x < useful
        invariant 0 <= x && outputCol == startCol + x * DCTSIZE
        invariant SentPart(scan, sent, inputIMcuRow, yoffset, mcu, k, y, x)
      {
        InsideLine(scan, k, inputIMcuRow, yoffset, mcu, y, x);
        NextBlock(scan, sent, inputIMcuRow, yoffset, mcu, k, y, x);
        PlaceInOutput(scan, k, inputIMcuRow, yoffset, mcu, y, x, outRow, outputCol);
        TargetIs(k, yoffset, mcu, y, x, outRow, outputCol);
        InverseDct(k, blkn + x, outRow, outputCol);
        outputCol := outputCol + DCTSIZE;
        x := x + 1;
      }
      LineEnds(scan, k, mcu, x);
      LineDone(scan, sent, inputIMcuRow, yoffset, mcu, k, y, x);
    }

    lemma TargetIs(k: nat, yoffset: int, mcu: int, y: int, x: int, outRow: int, outCol: int)
      requires k < |scan.comps| && BaseRow(scan.comps[k], inputIMcuRow, yoffset) + y >= 0
          && mcu * scan.comps[k].mcuWidth + x >= 0
      requires Block(k, inputIMcuRow * scan.comps[k].v + outRow / DCTSIZE, outCol / DCTSIZE)
          == BlockAt(scan, k, inputIMcuRow, yoffset, mcu, y, x)
      ensures Target(k, outRow, outCol) == BlockAt(scan, k, inputIMcuRow, yoffset, mcu, y, x)
    {
      hide BlockAt;
    }

    /** All blocks of one component of the MCU; first is the number of its first block. */
    method SendComponent(k: nat, yoffset: int, mcu: int, first: int)
      requires Buffered(yoffset, mcu) && k < |scan.comps| && scan.comps[k].needed && first == FirstOf(scan, k)
      requires SentPart(scan, sent, inputIMcuRow, yoffset, mcu, k, 0, 0)
      modifies this`sent
      ensures SentPart(scan, sent, inputIMcuRow, yoffset, mcu, k + 1, 0, 0)
    {
      var c := scan.comps[k];
      assert ScanOk(scan) && 0 <= inputIMcuRow < scan.totalIMcuRows && 0 <= yoffset < McuRows(scan, inputIMcuRow);
      assert CompOk(c, scan.mcusPerRow, scan.totalIMcuRows, scan.interleaved);
      var h := c.mcuHeight;
      assert h >= 1;
      hide *;
      var useful := Useful(scan, c, mcu);
      var outputRow := yoffset * DCTSIZE;
      var startCol := mcu * (c.mcuWidth * DCTSIZE);
      var blkn := first;
      var y := 0;
      while y < h
        invariant 0 <= y <= h && blkn == first + y * c.mcuWidth && outputRow == yoffset * DCTSIZE + y * DCTSIZE
        invariant SentPart(scan, sent, inputIMcuRow, yoffset, mcu, k, y, 0)
      {
        RowIsReal(scan, k, inputIMcuRow, yoffset, y);
        if inputIMcuRow < scan.totalIMcuRows - 1 || yoffset + y < c.lastRowHeight {
          SendLine(k, yoffset, mcu, y, useful, blkn, outputRow, startCol);
        } else {
          LineDone(scan, sent, inputIMcuRow, yoffset, mcu, k, y, 0);
        }
        NextMultiple(y, c.mcuWidth);
        blkn := blkn + c.mcuWidth;
        outputRow := outputRow + DCTSIZE;
        y := y + 1;
      }
      ComponentDone(scan, sent, inputIMcuRow, yoffset, mcu, k);
    }

    /** The loop over the components of a decoded MCU. */
    method SendMcu(yoffset: int, mcu: int)
      requires Buffered(yoffset, mcu) && SentBefore(scan, sent, inputIMcuRow, yoffset, mcu)
      modifies this`sent
      ensures SentBefore(scan, sent, inputIMcuRow, yoffset, mcu + 1)
    {
      assert ScanOk(scan);
      hide *;
      McuStart(scan, sent, inputIMcuRow, yoffset, mcu);
      var blkn := 0;
      var k := 0;
      FirstStep(scan, 0);
      while k < |scan.comps|
        invariant 0 <= k <= |scan.comps| && blkn == FirstOf(scan, k)
        invariant SentPart(scan, sent, inputIMcuRow, yoffset, mcu, k, 0, 0)
      {
        if scan.comps[k].needed {
          SendComponent(k, yoffset, mcu, blkn);
        } else {
          SkipComponent(scan, sent, inputIMcuRow, yoffset, mcu, k);
        }
        blkn := blkn + scan.comps[k].mcuWidth * scan.comps[k].mcuHeight;
        k := k + 1;
        FirstStep(scan, k);
      }
      McuDone(scan, sent, inputIMcuRow, yoffset, mcu);
    }

    /** The entropy decoder delivers the next MCU of the scan. */
    method DecodeMcu()
      modifies this`decoded
      ensures decoded == old(decoded) + 1
    {
      decoded := decoded + 1;
    }

    /** decompress_onepass.  supply is how many MCUs the entropy decoder delivers before it suspends.
        When the scan is completed, the blocks sent are exactly the real ones; before that they are
        those of the MCUs decoded so far, however the calls were cut. */
    method DecompressOnepass(supply: nat) returns (status: Status)
      requires Valid()
      modifies this
      ensures !status.ScanCompleted? ==> Valid()
      ensures status.Suspended? ==> inputIMcuRow == old(inputIMcuRow) && decoded == old(decoded) + supply
      ensures decoded <= old(decoded) + supply
      ensures status.RowCompleted? ==> inputIMcuRow == old(inputIMcuRow) + 1 && mcuCtr == 0 && mcuVertOffset == 0
      ensures status.ScanCompleted? ==> forall b :: b in sent <==> Real(scan, b)
    {
      assert |scan.comps| >= 1 && scan.mcusPerRow >= 1;
      hide Real, Before, SentBefore, ScanOk, McuRows, CompOk, McuCount;
      var left: int := supply;
      var yoffset := mcuVertOffset;
      while yoffset < mcuRowsPerIMcuRow
        invariant inputIMcuRow == old(inputIMcuRow) && mcuRowsPerIMcuRow == old(mcuRowsPerIMcuRow)
        invariant 0 <= yoffset <= mcuRowsPerIMcuRow && 0 <= mcuCtr <= scan.mcusPerRow && 0 <= left
        invariant SentBefore(scan, sent, inputIMcuRow, yoffset, mcuCtr)
            && (yoffset == mcuRowsPerIMcuRow ==> mcuCtr == 0)
        invariant decoded == McuCount(scan, inputIMcuRow, yoffset, mcuCtr) == old(decoded) + supply - left
      {
        var mcu := mcuCtr;
        while mcu < scan.mcusPerRow
          invariant inputIMcuRow == old(inputIMcuRow) && mcuRowsPerIMcuRow == old(mcuRowsPerIMcuRow)
          invariant 0 <= mcu <= scan.mcusPerRow && 0 <= left && SentBefore(scan, sent, inputIMcuRow, yoffset, mcu)
          invariant decoded == McuCount(scan, inputIMcuRow, yoffset, mcu) == old(decoded) + supply - left
        {
          if left == 0 {
            mcuVertOffset := yoffset;
            mcuCtr := mcu;
            return Suspended;
          }
          left := left - 1;
          DecodeMcu();
          SendMcu(yoffset, mcu);
          CountMcu(scan, inputIMcuRow, yoffset, mcu);
          mcu := mcu + 1;
        }
        RowDone(scan, sent, inputIMcuRow, yoffset);
        CountRow(scan, inputIMcuRow, yoffset);
        mcuCtr := 0;
        yoffset := yoffset + 1;
      }
      IMcuDone(scan, sent, inputIMcuRow);
      RowsAddUp(scan, inputIMcuRow);
      inputIMcuRow := inputIMcuRow + 1;
      if inputIMcuRow < scan.totalIMcuRows {
        StartIMcuRow();
        return RowCompleted;
      }
      status := ScanCompleted;
    }

    /** start_iMCU_row. */
    method StartIMcuRow()
      requires ScanOk(scan) && 0 <= inputIMcuRow < scan.totalIMcuRows && SentBefore(scan, sent, inputIMcuRow, 0, 0)
      requires decoded == McuCount(scan, inputIMcuRow, 0, 0)
      modifies this`mcuRowsPerIMcuRow, this`mcuCtr, this`mcuVertOffset
      ensures Valid() && mcuCtr == 0 && mcuVertOffset == 0
    {
      assert CompOk(scan.comps[0], scan.mcusPerRow, scan.totalIMcuRows, scan.interleaved);
      mcuRowsPerIMcuRow := McuRows(scan, inputIMcuRow);
      mcuCtr := 0;
      mcuVertOffset := 0;
    }
  }

  /** The block at row y and column x of the MCU's blocks of a component. */
  ghost function BlockAt(s: Scan, k: nat, r: int, o: int, m: int, y: int, x: int): Block
    requires k < |s.comps| && BaseRow(s.comps[k], r, o) + y >= 0 && m * s.comps[k].mcuWidth + x >= 0
  {
    Block(k, BaseRow(s.comps[k], r, o) + y, m * s.comps[k].mcuWidth + x)
  }

  function Useful(s: Scan, c: Component, mcu: int): int {
    if mcu < s.mcusPerRow - 1 then c.mcuWidth else c.lastColWidth
  }

  lemma InsideLine(s: Scan, k: nat, r: int, o: int, m: int, y: int, x: int)
    requires ScanOk(s) && k < |s.comps| && 0 <= r < s.totalIMcuRows && 0 <= o < McuRows(s, r) && 0 <= m < s.mcusPerRow
    requires 0 <= y < s.comps[k].mcuHeight && BaseRow(s.comps[k], r, o) + y < s.comps[k].heightInBlocks
    requires 0 <= x < Useful(s, s.comps[k], m)
    ensures var c := s.comps[k];
      && x < c.mcuWidth && 0 <= BaseRow(c, r, o) + y && 0 <= m * c.mcuWidth + x < c.widthInBlocks
      && (BaseRow(c, r, o) + y) % c.mcuHeight == y && (m * c.mcuWidth + x) % c.mcuWidth == x
    ensures var c := s.comps[k]; var b := BlockAt(s, k, r, o, m, y, x);
        b.ci == k && b.row % c.mcuHeight == y && b.col % c.mcuWidth == x
  {
    var c := s.comps[k];
    assert CompOk(c, s.mcusPerRow, s.totalIMcuRows, s.interleaved);
    NextMultiple(s.mcusPerRow - 1, c.mcuWidth);
    assert x < c.mcuWidth;
    RowBounds(s, k, r, o);
    ColIsReal(c, s.mcusPerRow, s.totalIMcuRows, s.interleaved, m, x);
    PlaceInMcu(s, k, r, o, m, y, x);
    hide BaseRow;
  }

  lemma LineEnds(s: Scan, k: nat, m: int, x: int)
    requires ScanOk(s) && k < |s.comps| && 0 <= m < s.mcusPerRow && x >= Useful(s, s.comps[k], m)
    ensures m * s.comps[k].mcuWidth + x >= s.comps[k].widthInBlocks || x >= s.comps[k].mcuWidth
  {
    assert CompOk(s.comps[k], s.mcusPerRow, s.totalIMcuRows, s.interleaved);
  }

  lemma NextBlock(s: Scan, sent: set<Block>, r: int, o: int, m: int, k: nat, y: int, x: int)
    requires k < |s.comps| && SentPart(s, sent, r, o, m, k, y, x) && s.comps[k].needed
    requires var c := s.comps[k];
      && 0 <= y < c.mcuHeight && 0 <= x < c.mcuWidth
      && 0 <= BaseRow(c, r, o) + y < c.heightInBlocks && 0 <= m * c.mcuWidth + x < c.widthInBlocks
    ensures var b := BlockAt(s, k, r, o, m, y, x);
      Real(s, b) && b !in sent && SentPart(s, sent + {b}, r, o, m, k, y, x + 1)
  {
  }

  /** A block's place within its MCU can be read off its place in the component. */
  lemma PlaceInMcu(s: Scan, k: nat, r: int, o: int, m: int, y: int, x: int)
    requires ScanOk(s) && k < |s.comps| && 0 <= r < s.totalIMcuRows && 0 <= o < McuRows(s, r)
    requires var c := s.comps[k]; 0 <= y < c.mcuHeight && 0 <= x < c.mcuWidth
    ensures var c := s.comps[k]; (BaseRow(c, r, o) + y) % c.mcuHeight == y && (m * c.mcuWidth + x) % c.mcuWidth == x
  {
    var c := s.comps[k];
    assert CompOk(c, s.mcusPerRow, s.totalIMcuRows, s.interleaved);
    QuotientIs(m * c.mcuWidth + x, c.mcuWidth, m, x);
    if s.interleaved {
      QuotientIs(BaseRow(c, r, o) + y, c.v, r, y);
    }
  }

  lemma FirstStep(s: Scan, k: nat)
    requires k <= |s.comps|
    ensures FirstOf(s, k) == if k == 0 then 0
        else FirstOf(s, k - 1) + s.comps[k - 1].mcuWidth * s.comps[k - 1].mcuHeight
  {
  }

  lemma CountMcu(s: Scan, r: int, o: int, m: int)
    requires |s.comps| >= 1
    ensures McuCount(s, r, o, m + 1) == McuCount(s, r, o, m) + 1
  {
    hide RowsOfMcus;
  }

  lemma CountRow(s: Scan, r: int, o: int)
    requires |s.comps| >= 1
    ensures McuCount(s, r, o + 1, 0) == McuCount(s, r, o, s.mcusPerRow)
  {
    hide RowsOfMcus;
    NextMultiple(r * RowsOfMcus(s) + o, s.mcusPerRow);
  }

  /** The rows of MCUs of all but the last iMCU row are complete. */
  lemma RowsAddUp(s: Scan, r: int)
    requires ScanOk(s) && 0 <= r < s.totalIMcuRows
    ensures r + 1 < s.totalIMcuRows ==> McuCount(s, r, McuRows(s, r), 0) == McuCount(s, r + 1, 0, 0)
  {
    NextMultiple(r, RowsOfMcus(s));
  }

  /** The samples of a block are put at its own place, and the buffer holds it where it is taken from. */
  lemma PlaceInOutput(s: Scan, k: nat, r: int, o: int, m: int, y: int, x: int, outRow: int, outCol: int)
    requires ScanOk(s) && k < |s.comps| && 0 <= r < s.totalIMcuRows && 0 <= o < McuRows(s, r)
    requires BaseRow(s.comps[k], r, o) + y >= 0 && m * s.comps[k].mcuWidth + x >= 0
    requires s.comps[k].mcuHeight > 0 && s.comps[k].mcuWidth > 0
    requires var c := s.comps[k]; 0 <= y < c.mcuHeight && 0 <= x < c.mcuWidth
    requires outRow == o * DCTSIZE + y * DCTSIZE && outCol == m * (s.comps[k].mcuWidth * DCTSIZE) + x * DCTSIZE
    ensures outRow % DCTSIZE == 0 && outCol % DCTSIZE == 0
    ensures var b := BlockAt(s, k, r, o, m, y, x);
      && Block(k, r * s.comps[k].v + outRow / DCTSIZE, outCol / DCTSIZE) == b
      && McuOf(s, b) == McuCount(s, r, o, m)
      && IndexInMcu(s, b) == FirstOf(s, k) + y * s.comps[k].mcuWidth + x
  {
    var c := s.comps[k];
    assert CompOk(c, s.mcusPerRow, s.totalIMcuRows, s.interleaved);
    RowBounds(s, k, r, o);
    PlaceInMcu(s, k, r, o, m, y, x);
    ProductAssoc(m, c.mcuWidth, DCTSIZE);
    assert outCol == (m * c.mcuWidth + x) * DCTSIZE;
    McuRowOf(s, k, r, o, m, y, x);
    assert BaseRow(c, r, o) + y == r * c.v + o + y by {
      if s.interleaved { assert o == 0; } else { assert c.mcuHeight == 1; }
    }
    hide FirstOf, ScanOk, CompOk, McuRows;
  }

  lemma McuRowOf(s: Scan, k: nat, r: int, o: int, m: int, y: int, x: int)
    requires ScanOk(s) && k < |s.comps| && 0 <= r < s.totalIMcuRows && 0 <= o < McuRows(s, r)
    requires var c := s.comps[k]; 0 <= y < c.mcuHeight && 0 <= x < c.mcuWidth
    ensures var c := s.comps[k];
      (BaseRow(c, r, o) + y) / c.mcuHeight == r * RowsOfMcus(s) + o && (m * c.mcuWidth + x) / c.mcuWidth == m
  {
    var c := s.comps[k];
    assert CompOk(c, s.mcusPerRow, s.totalIMcuRows, s.interleaved);
    QuotientIs(m * c.mcuWidth + x, c.mcuWidth, m, x);
    if s.interleaved {
      QuotientIs(BaseRow(c, r, o) + y, c.v, r, y);
    } else {
      assert c == s.comps[0] && c.mcuHeight == 1;
    }
  }
}
