/**
 The hex editor's data layout: the bytes shown (modelled by their count),
 grouped `groupSize` bytes to a group and `groupsPerRow` groups to a row, the
 row counts derived from them, and the cursor whose maximum position they set.
 */
module HexData {
  import opened Wrappers
  import opened Arithmetic
  import opened HexCursor

  datatype Data = Data(
    size: nat,
    groupsPerRow: int,
    groupSize: int,
    bytesPerRow: int,
    rowsNumber: int,
    fullRowsNumber: int,
    cursor: Cursor)

  /** The layout before any data or geometry is set. */
  const Defaults := Data(0, 1, 1, 1, 1, 1, HexCursor.Initial)

  function NibblesPerGroup(d: Data): int
  {
    d.groupSize * 2
  }

  /** The geometry the editor sets up: positive sizes, two cursor positions per byte and one more per row. */
  predicate Configured(d: Data)
  {
    && d.groupsPerRow >= 1 && d.groupSize >= 1
    && d.bytesPerRow == d.groupsPerRow * d.groupSize
    && d.cursor.positionsInGroup == NibblesPerGroup(d)
    && d.cursor.positionsInRow == d.cursor.positionsInGroup * d.groupsPerRow + 1
  }

  /** The row counts agree with the data size. */
  predicate Counted(d: Data)
    requires d.bytesPerRow >= 1
  {
    && d.rowsNumber == (if d.size > d.groupSize then (d.size + d.bytesPerRow - 1) / d.bytesPerRow else 1)
    && d.fullRowsNumber == d.size / d.bytesPerRow
  }

  function UpdateFullRowsNumber(d: Data): (r: Data)
    requires d.bytesPerRow >= 1
    ensures r == d.(fullRowsNumber := r.fullRowsNumber)
    ensures r.fullRowsNumber * d.bytesPerRow <= d.size < (r.fullRowsNumber + 1) * d.bytesPerRow
  {
    d.(fullRowsNumber := d.size / d.bytesPerRow)
  }

  /**
   The rows needed to show the data, rounded up, but a single row while the
   data fits in one group; then the full rows.
   */
  function UpdateRowsNumber(d: Data): (r: Data)
    requires d.bytesPerRow >= 1
    ensures r == d.(rowsNumber := r.rowsNumber, fullRowsNumber := r.fullRowsNumber) && Counted(r)
    ensures d.size > d.groupSize ==> (r.rowsNumber - 1) * d.bytesPerRow < d.size <= r.rowsNumber * d.bytesPerRow
    ensures d.size <= d.groupSize ==> r.rowsNumber == 1
  {
    var rows := if d.size > d.groupSize then (d.size + d.bytesPerRow - 1) / d.bytesPerRow else 1;
    UpdateFullRowsNumber(d.(rowsNumber := rows))
  }

  /** Beyond one group of data, the rows are the full rows plus one exactly when the last row is partial. */
  lemma RowsSplit(d: Data)
    requires d.bytesPerRow >= 1 && Counted(d) && d.size > d.groupSize
    ensures d.rowsNumber == d.fullRowsNumber + (if NonFullRowBytes(d) == 0 then 0 else 1)
  {
    var bpr, full, rem := d.bytesPerRow, d.size / d.bytesPerRow, d.size % d.bytesPerRow;
    if rem == 0 {
      DivUnique(d.size + bpr - 1, bpr, full, bpr - 1);
    } else {
      DivUnique(d.size + bpr - 1, bpr, full + 1, rem - 1);
    }
  }

  function UpdateBytesPerRow(d: Data): (r: Data)
    requires d.groupsPerRow >= 1 && d.groupSize >= 1
    ensures r == d.(bytesPerRow := r.bytesPerRow, fullRowsNumber := r.fullRowsNumber)
    ensures r.bytesPerRow == d.groupsPerRow * d.groupSize && r.fullRowsNumber == d.size / r.bytesPerRow
  {
    UpdateFullRowsNumber(d.(bytesPerRow := d.groupsPerRow * d.groupSize))
  }

  /** The bytes in the last, partial row; zero when every row is full. */
  function NonFullRowBytes(d: Data): (n: nat)
    requires d.bytesPerRow >= 1
    ensures n < d.bytesPerRow
    ensures d.fullRowsNumber == d.size / d.bytesPerRow ==> d.size == d.fullRowsNumber * d.bytesPerRow + n
  {
    d.size % d.bytesPerRow
  }

  /** The groups of the partial row, counting a partly filled group. */
  function NonFullRowGroups(d: Data): (g: int)
    requires d.bytesPerRow >= 1 && d.groupSize >= 1
    ensures var rem := NonFullRowBytes(d);
      && (g - 1) * d.groupSize < rem <= g * d.groupSize
      && g >= 0
  {
    var rem, gs := NonFullRowBytes(d), d.groupSize;
    var g := (rem + gs - 1) / gs;
    assert rem + gs - 1 == g * gs + (rem + gs - 1) % gs;
    g
  }

  /** In a configured layout the partial row has fewer groups than a full row, and none when every row is full. */
  lemma NonFullRowGroupsBound(d: Data)
    requires Configured(d)
    ensures 0 <= NonFullRowGroups(d) <= d.groupsPerRow
    ensures NonFullRowGroups(d) == 0 <==> NonFullRowBytes(d) == 0
  {
    var g := NonFullRowGroups(d);
    if g > d.groupsPerRow {
      MulMonotone(d.groupsPerRow, g - 1, d.groupSize);
    }
  }

  /**
   The cursor's maximum: every position of the full rows, then, when there is
   a partial row, two positions per byte and one more.
   */
  function UpdateCursorData(d: Data): (r: Data)
    requires d.bytesPerRow >= 1
    ensures r == d.(cursor := r.cursor)
    ensures r.cursor.maxPosition >= 0 ==> InRange(r.cursor)
  {
    var full := d.fullRowsNumber * d.cursor.positionsInRow;
    var m := if d.rowsNumber > d.fullRowsNumber then full + NonFullRowBytes(d) * 2 + 1 else full;
    d.(cursor := WithMaxPosition(d.cursor, m))
  }

  /** Replacing the data: the rows are recounted and the cursor kept within the new maximum. */
  function UpdateDataBytes(d: Data, size: nat): (r: Data)
    requires d.bytesPerRow >= 1
    ensures r == d.(size := size, rowsNumber := r.rowsNumber, fullRowsNumber := r.fullRowsNumber, cursor := r.cursor)
    ensures Counted(r)
  {
    UpdateCursorData(UpdateRowsNumber(d.(size := size)))
  }

  /**
   Choosing the groups per row and optionally the group size. The cursor's
   group takes the new size's nibbles; without a new size it keeps the group it
   had. The cursor's maximum is left as it was.
   */
  function SetGroupsPerRow(d: Data, groupsPerRow: int, groupSize: Option<int>): (r: Data)
    requires groupsPerRow >= 1 && (groupSize.Some? ==> groupSize.value >= 1) && (groupSize.None? ==> d.groupSize >= 1)
    ensures r.groupsPerRow == groupsPerRow && r.groupSize == (if groupSize.Some? then groupSize.value else d.groupSize)
    ensures r.cursor == d.cursor.(positionsInRow := r.cursor.positionsInRow, positionsInGroup := r.cursor.positionsInGroup)
    ensures r.size == d.size && r.bytesPerRow >= 1 && Counted(r)
  {
    var d := d.(groupsPerRow := groupsPerRow);
    var d := if groupSize.Some? then
        var sized := d.(groupSize := groupSize.value);
        sized.(cursor := sized.cursor.(positionsInGroup := NibblesPerGroup(sized)))
      else d;
    var d := d.(cursor := d.cursor.(positionsInRow := d.cursor.positionsInGroup * groupsPerRow + 1));
    UpdateRowsNumber(UpdateBytesPerRow(d))
  }

  /** Setting a group size configures the layout: byte-sized cursor groups, `groupsPerRow` of them to a row. */
  lemma SetGroupsPerRowConfigures(d: Data, groupsPerRow: int, groupSize: int)
    requires groupsPerRow >= 1 && groupSize >= 1
    ensures var r := SetGroupsPerRow(d, groupsPerRow, Some(groupSize));
      && Configured(r) && ByteGroups(r.cursor) && GroupsPerRow(r.cursor) == groupsPerRow
      && r.bytesPerRow == groupsPerRow * groupSize
  {
    var r := SetGroupsPerRow(d, groupsPerRow, Some(groupSize));
    var pig := 2 * groupSize;
    assert r.cursor.positionsInRow - 1 == groupsPerRow * pig;
    DivUnique(r.cursor.positionsInRow - 1, pig, groupsPerRow, 0);
    assert r.bytesPerRow >= 1 by {
      MulMonotone(1, groupsPerRow, groupSize);
    }
  }

  /** Without a group size the layout stays configured when the cursor's group already matched the bytes. */
  lemma SetGroupsPerRowKeeps(d: Data, groupsPerRow: int)
    requires groupsPerRow >= 1 && Configured(d)
    ensures Configured(SetGroupsPerRow(d, groupsPerRow, None))
  {
  }

  /** The column count in bytes chooses the groups per row that fit it. */
  function SetColumnBytesCount(d: Data, bytesCount: int, groupSize: int): (r: Data)
    requires groupSize >= 1 && bytesCount >= groupSize
    ensures Configured(r) && r.bytesPerRow <= bytesCount < r.bytesPerRow + groupSize
    ensures r.groupSize == groupSize && r.groupsPerRow == bytesCount / groupSize
    ensures r.size == d.size && r.cursor.position == d.cursor.position && r.cursor.anchor == d.cursor.anchor
    ensures r.cursor.maxPosition == d.cursor.maxPosition
  {
    var groupsPerRow := bytesCount / groupSize;
    SetGroupsPerRowConfigures(d, groupsPerRow, groupSize);
    ColumnFits(bytesCount, groupSize);
    SetGroupsPerRow(d, groupsPerRow, Some(groupSize))
  }

  lemma ColumnFits(bytesCount: int, groupSize: int)
    requires groupSize >= 1 && bytesCount >= groupSize
    ensures var g := bytesCount / groupSize;
      g >= 1 && g * groupSize <= bytesCount < g * groupSize + groupSize
  {
    var g := bytesCount / groupSize;
    assert bytesCount == g * groupSize + bytesCount % groupSize;
  }

  /** The position right after the last byte, in that byte's row; zero when there is no data. */
  function EndPosition(d: Data): int
    requires Configured(d)
  {
    if d.size == 0 then 0
    else
      var last := d.size - 1;
      (last / d.bytesPerRow) * d.cursor.positionsInRow + 2 * (last % d.bytesPerRow + 1)
  }

  /**
   The cursor's maximum is one past the position right after the last byte:
   the first position of the next row when every row is full, one past the
   end of the partial row's bytes otherwise.
   */
  lemma MaxPositionPastEnd(d: Data)
    requires Configured(d) && Counted(d)
    ensures UpdateCursorData(d).cursor.maxPosition == EndPosition(d) + 1
  {
    var full, pir, rem := d.fullRowsNumber, d.cursor.positionsInRow, NonFullRowBytes(d);
    var m := UpdateCursorData(d).cursor.maxPosition;
    assert m == if d.rowsNumber > full then full * pir + rem * 2 + 1 else full * pir;
    RowsExceedIff(d);
    if d.size == 0 {
      assert full == 0 && rem == 0;
    } else {
      EndPositionCases(d);
    }
  }

  /** The row count exceeds the full rows exactly when a partial row holds bytes, or there are none at all. */
  lemma RowsExceedIff(d: Data)
    requires Configured(d) && Counted(d)
    ensures d.rowsNumber > d.fullRowsNumber <==> NonFullRowBytes(d) != 0 || d.size == 0
  {
    var bpr := d.bytesPerRow;
    if d.size > d.groupSize {
      RowsSplit(d);
    } else if d.size < bpr {
      DivUnique(d.size, bpr, 0, d.size);
    } else {
      MulMonotone(1, d.groupsPerRow, d.groupSize);
      DivUnique(d.size, bpr, 1, 0);
    }
  }

  lemma EndPositionCases(d: Data)
    requires Configured(d) && Counted(d) && d.size > 0
    ensures var full, pir, rem := d.fullRowsNumber, d.cursor.positionsInRow, NonFullRowBytes(d);
      EndPosition(d) == if rem == 0 then full * pir - 1 else full * pir + 2 * rem
  {
    var bpr, pir := d.bytesPerRow, d.cursor.positionsInRow;
    var full, rem := d.fullRowsNumber, NonFullRowBytes(d);
    assert pir == 2 * bpr + 1;
    var last := d.size - 1;
    if rem == 0 {
      DivUnique(last, bpr, full - 1, bpr - 1);
      assert (full - 1) * pir + 2 * bpr == full * pir - 1;
    } else {
      DivUnique(last, bpr, full, rem - 1);
    }
  }

  /** With a partial row the maximum sits inside that row at an odd offset, off every byte boundary. */
  lemma PartialRowMaximum(d: Data)
    requires Configured(d) && Counted(d) && d.rowsNumber > d.fullRowsNumber
    ensures var m := UpdateCursorData(d).cursor.maxPosition;
      m / d.cursor.positionsInRow == d.fullRowsNumber && !OnByteBoundary(UpdateCursorData(d).cursor, m)
  {
    var c := UpdateCursorData(d).cursor;
    var rem := NonFullRowBytes(d);
    var m := c.maxPosition;
    assert d.cursor.positionsInRow == 2 * d.bytesPerRow + 1;
    DivUnique(m, c.positionsInRow, d.fullRowsNumber, 2 * rem + 1);
  }

  /**
   Two one-byte groups per row holding a single byte: the maximum is 3, an odd
   offset. With the cursor parked there, extending the selection one step left
   snaps the anchor forwards to 4, past the maximum. The corrected move keeps
   it at 3.
   */
  lemma AnchorLeavesRange()
    ensures var d := UpdateDataBytes(SetGroupsPerRow(Defaults, 2, Some(1)), 1);
      var parked := MoveToAsWritten(d.cursor, 3, true);
      && d.cursor.maxPosition == 3 && parked.position == 3 && parked.anchor == 3
      && MoveToAsWritten(parked, 2, false).anchor == 4
      && MoveTo(parked, 2, false).anchor == 3
  {
    var d := UpdateDataBytes(SetGroupsPerRow(Defaults, 2, Some(1)), 1);
    OneByteLayout(d);
    ParkedExtends(MoveToAsWritten(d.cursor, 3, true));
  }

  /** The same layout reached by keys: Ctrl+End parks the cursor on 3, Shift+Left then moves the anchor to 4. */
  lemma MoveByLeavesRange()
    ensures var d := UpdateDataBytes(SetGroupsPerRow(Defaults, 2, Some(1)), 1);
      var parked := MoveToAsWritten(d.cursor, d.cursor.maxPosition, true);
      && d.cursor.maxPosition == 3 && parked.position == 3 && parked.anchor == 3
      && MoveBy(parked, -1, false).anchor == 4
      && MoveByCorrected(parked, -1, false).anchor == 3
  {
    var d := UpdateDataBytes(SetGroupsPerRow(Defaults, 2, Some(1)), 1);
    OneByteLayout(d);
    ParkedExtends(MoveToAsWritten(d.cursor, d.cursor.maxPosition, true));
  }

  lemma OneByteLayout(d: Data)
    requires d == UpdateDataBytes(SetGroupsPerRow(Defaults, 2, Some(1)), 1)
    ensures d.cursor == Cursor(0, 0, 3, 5, 2)
  {
    var s := SetGroupsPerRow(Defaults, 2, Some(1));
    assert s.cursor == Cursor(0, 0, 0, 5, 2) && s.bytesPerRow == 2;
  }

  lemma ParkedExtends(c: Cursor)
    requires c == Cursor(3, 3, 3, 5, 2)
    ensures MoveToAsWritten(c, 2, false).anchor == 4 && MoveTo(c, 2, false).anchor == 3
  {
    assert PositionToGrid(c, 3) == Grid(0, 1, 1);
    assert PositionToGrid(c, 2) == Grid(0, 1, 0);
  }
}
