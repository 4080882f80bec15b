/** The control routines of the two upsamplers for row groups of two rows.  merged_2v_upsample makes
    two rows at a time and keeps a spare row when the caller has room for one only; sep_upsample
    keeps a group of upsampled rows.  Both hand out every output row once, in order, and the rows
    are the same (SameRow). */
module MergedControl {
  import opened NearestColor
  import opened RangeLimit
  import opened ColorConvert
  import opened Upsampling

  /** Output rows that a caller provides. */
  method NewRows(n: nat, length: nat) returns (buf: seq<array<Sample>>)
    ensures |buf| == n && forall k :: 0 <= k < n ==> fresh(buf[k]) && buf[k].Length == length
    ensures forall k, l :: 0 <= k < l < n ==> buf[k] != buf[l]
  {
    buf := [];
    for i := 0 to n
      invariant |buf| == i && forall k :: 0 <= k < i ==> fresh(buf[k]) && buf[k].Length == length
      invariant forall k, l :: 0 <= k < l < i ==> buf[k] != buf[l]
    {
      var row := new Sample[length];
      buf := buf + [row];
    }
  }

  class MergedUpsampler {
    const tables: Tables
    const width: nat
    const spareRow: array<Sample>
    var spareFull: bool
    const outputHeight: nat
    var rowsToGo: nat
    /** The whole image, and the rows handed out and row groups consumed so far. */
    ghost const image: seq<RowGroup>
    ghost var emitted: nat
    ghost var consumed: nat

    /** jinit_merged_upsampler for two-row groups. */
    constructor (width: nat, outputHeight: nat, ghost image: seq<RowGroup>)
      requires outputHeight <= 2 * |image| && forall k :: 0 <= k < |image| ==> GroupOk(image[k], 2, width)
      ensures Valid() && emitted == 0 && this.width == width && this.outputHeight == outputHeight && this.image == image
      ensures fresh(spareRow) && fresh(tables) && fresh(tables.crR) && fresh(tables.cbB) && fresh(tables.crG)
          && fresh(tables.cbG)
    {
      this.width, this.outputHeight, this.image := width, outputHeight, image;
      tables := new Tables();
      spareRow := new Sample[3 * width];
      spareFull, rowsToGo := false, outputHeight;
      emitted, consumed := 0, 0;
    }

    ghost predicate Shape()
      reads tables, tables.crR, tables.cbB, tables.crG, tables.cbG
    {
      && tables.Valid() && spareRow.Length >= 3 * width && outputHeight <= 2 * |image|
      && forall k :: 0 <= k < |image| ==> GroupOk(image[k], 2, width)
    }

    ghost predicate Valid()
      reads this, spareRow, tables, tables.crR, tables.cbB, tables.crG, tables.cbG
    {
      && Shape() && emitted + rowsToGo == outputHeight
      && (rowsToGo > 0 ==> consumed == emitted / 2 && (spareFull <==> emitted % 2 == 1))
      && (rowsToGo > 0 && spareFull ==> BoxRow(spareRow, image[consumed], 2, width, 1))
    }

    /** start_pass_merged_upsample. */
    method StartPass()
      requires Shape()
      modifies this
      ensures Valid() && emitted == 0 && consumed == 0
    {
      spareFull := false;
      rowsToGo := outputHeight;
      emitted, consumed := 0, 0;
    }

    /** Row r of the image, box-upsampled and converted. */
    ghost predicate IsImageRow(out: array<Sample>, r: int)
      reads out
    {
      0 <= r < 2 * |image| && GroupOk(image[r / 2], 2, width) && BoxRow(out, image[r / 2], 2, width, r % 2)
    }

    /** jcopy_sample_rows of the spare row. */
    method CopySpare(out: array<Sample>)
      requires Valid() && rowsToGo > 0 && spareFull && out != spareRow && out.Length >= 3 * width
      modifies out
      ensures Valid() && IsImageRow(out, emitted)
    {
      for k := 0 to 3 * width
        invariant forall j :: 0 <= j < k ==> out[j] == spareRow[j]
      {
        out[k] := spareRow[k];
      }
      CopiedRow(out, spareRow, image[consumed], width);
    }

    /** merged_2v_upsample.  The caller has room for a row and rows are still to go; g is the row
        group the input counter points at. */
    method Upsample(g: RowGroup, outputBuf: seq<array<Sample>>, outRowCtr: nat, outRowsAvail: nat)
      returns (next: nat, groupDone: bool)
      requires Valid() && rowsToGo > 0 && outRowCtr < outRowsAvail <= |outputBuf|
      requires g == image[consumed] && spareRow !in outputBuf
      requires forall k :: 0 <= k < |outputBuf| ==> outputBuf[k].Length >= 3 * width
      requires forall k, l :: 0 <= k < l < |outputBuf| ==> outputBuf[k] != outputBuf[l]
      modifies this, spareRow, outputBuf
      ensures Valid() && outRowCtr < next <= outRowsAvail && emitted == old(emitted) + (next - outRowCtr)
      ensures IsImageRow(outputBuf[outRowCtr], old(emitted))
          && (next == outRowCtr + 2 ==> IsImageRow(outputBuf[outRowCtr + 1], old(emitted) + 1))
      ensures next <= outRowCtr + 2 && consumed == old(consumed) + (if groupDone then 1 else 0)
    {
      hide BoxRow, GroupOk;
      var numRows;
      if spareFull {
        CopySpare(outputBuf[outRowCtr]);
        numRows := 1;
        spareFull := false;
      } else {
        numRows := 2;
        if numRows > rowsToGo { numRows := rowsToGo; }
        if numRows > outRowsAvail - outRowCtr { numRows := outRowsAvail - outRowCtr; }
        if numRows > 1 {
          H2v2Merged(tables, g, outputBuf[outRowCtr], outputBuf[outRowCtr + 1], width);
        } else {
          spareFull := true;
          H2v2Merged(tables, g, outputBuf[outRowCtr], spareRow, width);
        }
      }
      next := outRowCtr + numRows;
      rowsToGo := rowsToGo - numRows;
      groupDone := !spareFull;
      emitted := emitted + numRows;
      consumed := consumed + (if groupDone then 1 else 0);
    }

    /** A pass, call after call, each with room for at least one row: the rows of the image come out once and in
        order, and all of them after at most as many calls. */
    method Run(groups: seq<RowGroup>, rooms: seq<nat>) returns (rows: seq<array<Sample>>)
      requires Shape() && groups == image && forall k :: 0 <= k < |rooms| ==> rooms[k] > 0
      modifies this, spareRow
      ensures Valid() && |rows| == emitted <= outputHeight && (|rows| == outputHeight || |rows| >= |rooms|)
      ensures forall k :: 0 <= k < |rows| ==> IsImageRow(rows[k], k)
    {
      hide BoxRow, GroupOk;
      StartPass();
      rows := [];
      var i, ctr := 0, 0;
      while i < |rooms| && rowsToGo > 0
        invariant 0 <= i <= |rooms| && Valid() && ctr == consumed && |rows| == emitted
        invariant |rows| == outputHeight || |rows| >= i
        invariant forall k :: 0 <= k < |rows| ==> fresh(rows[k]) && IsImageRow(rows[k], k)
      {
        var buf := NewRows(rooms[i], 3 * width);
        var next, groupDone := Upsample(groups[ctr], buf, 0, rooms[i]);
        rows := rows + buf[..next];
        if groupDone { ctr := ctr + 1; }
        i := i + 1;
      }
    }
  }

  lemma CopiedRow(a: array<Sample>, b: array<Sample>, g: RowGroup, width: nat)
    requires GroupOk(g, 2, width) && a.Length >= 3 * width && b.Length >= 3 * width && BoxRow(b, g, 2, width, 1)
    requires forall j :: 0 <= j < 3 * width ==> a[j] == b[j]
    ensures BoxRow(a, g, 2, width, 1)
  {
    hide Convert;
    forall col | 0 <= col < width ensures HoldsPixel(a, col, BoxPixel(g, 2, width, 1, col)) {
      assert HoldsPixel(b, col, BoxPixel(g, 2, width, 1, col));
    }
  }

  /** The chrominance rows of the conversion buffer, both copies of the doubled input row. */
  ghost predicate Doubled(row0: array<Sample>, row1: array<Sample>, input: seq<Sample>, width: nat)
    requires 2 * |input| >= width
    reads row0, row1
  {
    row0.Length >= width && row1.Length >= width && forall col :: 0 <= col < width ==>
        row0[col] == row1[col] == input[col / 2]
  }

  class SeparateUpsampler {
    const tables: Tables
    const width: nat
    const cb0: array<Sample>
    const cb1: array<Sample>
    const cr0: array<Sample>
    const cr1: array<Sample>
    const outputHeight: nat
    var nextRowOut: nat
    var rowsToGo: nat
    ghost const image: seq<RowGroup>
    ghost var emitted: nat
    ghost var consumed: nat

    constructor (width: nat, outputHeight: nat, ghost image: seq<RowGroup>)
      requires outputHeight <= 2 * |image| && forall k :: 0 <= k < |image| ==> GroupOk(image[k], 2, width)
      ensures Valid() && emitted == 0 && this.width == width && this.outputHeight == outputHeight && this.image == image
      ensures fresh(cb0) && fresh(cb1) && fresh(cr0) && fresh(cr1)
      ensures fresh(tables) && fresh(tables.crR) && fresh(tables.cbB) && fresh(tables.crG) && fresh(tables.cbG)
    {
      this.width, this.outputHeight, this.image := width, outputHeight, image;
      tables := new Tables();
      cb0, cb1, cr0, cr1 := new Sample[width + 1], new Sample[width + 1], new Sample[width + 1], new Sample[width + 1];
      nextRowOut, rowsToGo := 2, outputHeight;
      emitted, consumed := 0, 0;
    }

    ghost predicate Shape()
      reads tables, tables.crR, tables.cbB, tables.crG, tables.cbG
    {
      && tables.Valid() && outputHeight <= 2 * |image|
      && cb0.Length == cb1.Length == cr0.Length == cr1.Length == width + 1
      && cb0 != cb1 && cr0 != cr1 && cb0 != cr0 && cb0 != cr1 && cb1 != cr0 && cb1 != cr1
      && forall k :: 0 <= k < |image| ==> GroupOk(image[k], 2, width)
    }

    ghost predicate Valid()
      reads this, cb0, cb1, cr0, cr1, tables, tables.crR, tables.cbB, tables.crG, tables.cbG
    {
      && Shape() && emitted + rowsToGo == outputHeight
      && (rowsToGo > 0 ==> 1 <= nextRowOut <= 2 && consumed == emitted / 2 && (nextRowOut == 1 <==> emitted % 2 == 1))
      && (rowsToGo > 0 && nextRowOut == 1 ==> BufferHolds(image[consumed]))
    }

    ghost predicate BufferHolds(g: RowGroup)
      requires GroupOk(g, 2, width)
      reads cb0, cb1, cr0, cr1
    {
      Doubled(cb0, cb1, g.cb, width) && Doubled(cr0, cr1, g.cr, width)
    }

    ghost predicate IsImageRow(out: array<Sample>, r: int)
      reads out
    {
      0 <= r < 2 * |image| && GroupOk(image[r / 2], 2, width) && BoxRow(out, image[r / 2], 2, width, r % 2)
    }

    /** start_pass_upsample. */
    method StartPass()
      requires Shape()
      modifies this
      ensures Valid() && emitted == 0 && consumed == 0
    {
      nextRowOut := 2;
      rowsToGo := outputHeight;
      emitted, consumed := 0, 0;
    }

    /** Upsamples the chrominance of one row group into the conversion buffer. */
    method FillBuffer(g: RowGroup)
      requires Shape() && GroupOk(g, 2, width)
      modifies cb0, cb1, cr0, cr1
      ensures Shape() && BufferHolds(g)
    {
      DoubleBoth(g.cb, cb0, cb1, width);
      BufferDoubled(cb0, cb1, g.cb, width);
      hide Doubled;
      DoubleBoth(g.cr, cr0, cr1, width);
      BufferDoubled(cr0, cr1, g.cr, width);
    }

    /** color_convert for row r of the conversion buffer. */
    method ConvertRow(g: RowGroup, r: nat, out: array<Sample>)
      requires Shape() && GroupOk(g, 2, width) && BufferHolds(g) && r < 2 && out.Length >= 3 * width
      requires out != cb0 && out != cb1 && out != cr0 && out != cr1
      modifies out
      ensures Shape() && BufferHolds(g) && BoxRow(out, g, 2, width, r)
    {
      hide Convert;
      var cb := if r == 0 then cb0 else cb1;
      var cr := if r == 0 then cr0 else cr1;
      YccRgbConvert(tables, g.y[r], cb[..], cr[..], out, width);
    }

    /** One or two rows of the conversion buffer. */
    method ConvertRows(g: RowGroup, r: nat, numRows: nat, outputBuf: seq<array<Sample>>, at: nat)
      requires Shape() && GroupOk(g, 2, width) && BufferHolds(g) && 1 <= numRows && r + numRows <= 2
      requires at + numRows <= |outputBuf|
      requires cb0 !in outputBuf && cb1 !in outputBuf && cr0 !in outputBuf && cr1 !in outputBuf
      requires forall k :: 0 <= k < |outputBuf| ==> outputBuf[k].Length >= 3 * width
      requires forall k, l :: 0 <= k < l < |outputBuf| ==> outputBuf[k] != outputBuf[l]
      modifies outputBuf
      ensures Shape() && BufferHolds(g) && BoxRow(outputBuf[at], g, 2, width, r)
      ensures numRows > 1 ==> BoxRow(outputBuf[at + 1], g, 2, width, r + 1)
    {
      hide BoxRow, Doubled;
      ConvertRow(g, r, outputBuf[at]);
      if numRows > 1 {
        ConvertRow(g, r + 1, outputBuf[at + 1]);
      }
    }

    /** sep_upsample. */
    method Upsample(g: RowGroup, outputBuf: seq<array<Sample>>, outRowCtr: nat, outRowsAvail: nat)
      returns (next: nat, groupDone: bool)
      requires Valid() && rowsToGo > 0 && outRowCtr < outRowsAvail <= |outputBuf|
      requires g == image[consumed] && cb0 !in outputBuf && cb1 !in outputBuf && cr0 !in outputBuf && cr1 !in outputBuf
      requires forall k :: 0 <= k < |outputBuf| ==> outputBuf[k].Length >= 3 * width
      requires forall k, l :: 0 <= k < l < |outputBuf| ==> outputBuf[k] != outputBuf[l]
      modifies this, cb0, cb1, cr0, cr1, outputBuf
      ensures Valid() && outRowCtr < next <= outRowsAvail && emitted == old(emitted) + (next - outRowCtr)
      ensures IsImageRow(outputBuf[outRowCtr], old(emitted))
          && (next == outRowCtr + 2 ==> IsImageRow(outputBuf[outRowCtr + 1], old(emitted) + 1))
      ensures next <= outRowCtr + 2 && consumed == old(consumed) + (if groupDone then 1 else 0)
    {
      hide BoxRow, Doubled, GroupOk, BufferHolds;
      if nextRowOut >= 2 {
        FillBuffer(g);
        nextRowOut := 0;
      }
      var numRows := 2 - nextRowOut;
      if numRows > rowsToGo { numRows := rowsToGo; }
      if numRows > outRowsAvail - outRowCtr { numRows := outRowsAvail - outRowCtr; }
      ConvertRows(g, nextRowOut, numRows, outputBuf, outRowCtr);
      next := outRowCtr + numRows;
      rowsToGo := rowsToGo - numRows;
      nextRowOut := nextRowOut + numRows;
      groupDone := nextRowOut >= 2;
      emitted := emitted + numRows;
      consumed := consumed + (if groupDone then 1 else 0);
    }

    /** A pass, call after call, each with room for at least one row: the rows of the image come out once and in
        order, and all of them after at most as many calls. */
    method Run(groups: seq<RowGroup>, rooms: seq<nat>) returns (rows: seq<array<Sample>>)
      requires Shape() && groups == image && forall k :: 0 <= k < |rooms| ==> rooms[k] > 0
      modifies this, cb0, cb1, cr0, cr1
      ensures Valid() && |rows| == emitted <= outputHeight && (|rows| == outputHeight || |rows| >= |rooms|)
      ensures forall k :: 0 <= k < |rows| ==> IsImageRow(rows[k], k)
    {
      hide BoxRow, GroupOk, Doubled, BufferHolds;
      StartPass();
      rows := [];
      var i, ctr := 0, 0;
      while i < |rooms| && rowsToGo > 0
        invariant 0 <= i <= |rooms| && Valid() && ctr == consumed && |rows| == emitted
        invariant |rows| == outputHeight || |rows| >= i
        invariant forall k :: 0 <= k < |rows| ==> fresh(rows[k]) && IsImageRow(rows[k], k)
      {
        var buf := NewRows(rooms[i], 3 * width);
        var next, groupDone := Upsample(groups[ctr], buf, 0, rooms[i]);
        rows := rows + buf[..next];
        if groupDone { ctr := ctr + 1; }
        i := i + 1;
      }
    }
  }

  lemma BufferDoubled(row0: array<Sample>, row1: array<Sample>, input: seq<Sample>, width: nat)
    requires 2 * |input| >= width && row0.Length >= width && row1.Length >= width
    requires forall col :: 0 <= col < width ==> row0[col] == row1[col] == input[col / 2]
    ensures Doubled(row0, row1, input, width)
  {
  }
}
