/**
 The cursor cases of the hex editor's unit tests, worked through the model.
 Each cursor is the one the test configures: two positions per byte of a
 group, one more per row, and the maximum the test computes.
 */
module CursorExamples {
  import opened HexCursor

  /** Assigning a position clamps it into [0, 4]. */
  lemma ClampExamples(c: Cursor)
    requires c == Cursor(0, 0, 4, 1, 1)
    ensures WithPosition(c, 5).position == 4 && WithPosition(c, -1).position == 0
  {
  }

  /** Four groups of four bytes, 56 bytes: rows of 33 positions, the last cut at 115. */
  lemma RowPositionsExamples(c: Cursor)
    requires c == Cursor(0, 0, 115, 33, 8)
    ensures RowPositions(c, 0) == (0, 32) && RowPositions(c, 1) == (33, 65)
    ensures RowPositions(c, 2) == (66, 98) && RowPositions(c, 3) == (99, 115)
  {
  }

  /** Four groups of two bytes: 16 is the row's end position, 17 starts the next row. */
  lemma PositionToGridExamples(c: Cursor)
    requires c == Cursor(0, 0, 0, 17, 4)
    ensures PositionToGrid(c, 0) == Grid(0, 0, 0) && PositionToGrid(c, 1) == Grid(0, 0, 1)
    ensures PositionToGrid(c, 3) == Grid(0, 0, 3) && PositionToGrid(c, 4) == Grid(0, 1, 0)
    ensures PositionToGrid(c, 16) == Grid(0, 3, 4) && PositionToGrid(c, 17) == Grid(1, 0, 0)
  {
  }

  /** Three groups of four bytes. */
  lemma GridToPositionExamples(c: Cursor)
    requires c == Cursor(0, 0, 0, 25, 8)
    ensures GridToPosition(c, Grid(0, 2, 4)) == 20 && GridToPosition(c, Grid(2, 1, 3)) == 61
  {
  }

  /** Sixteen one-byte groups, sixteen bytes, the cursor at 20 of 33. */
  lemma CanMoveByExamples(c: Cursor)
    requires c == Cursor(20, 0, 33, 33, 2)
    ensures CanMoveBy(c, 1) && CanMoveBy(c, -1) && CanMoveBy(c, 13) && !CanMoveBy(c, 14)
    ensures CanMoveBy(c, -20) && !CanMoveBy(c, -21)
  {
  }

  /** Eight groups of two bytes, 32 bytes: moving with the anchor clamps to [0, 66] and selects nothing. */
  lemma MoveWithAnchorExamples(c: Cursor)
    requires c.maxPosition == 66 && c.positionsInRow == 33 && c.positionsInGroup == 4
    ensures var m := MoveToAsWritten(c, -1, true); m.position == 0 && m.anchor == 0
    ensures var m := MoveToAsWritten(c, 0, true); m.position == 0 && m.anchor == 0
    ensures var m := MoveToAsWritten(c, 5, true); m.position == 5 && m.anchor == 5
    ensures var m := MoveToAsWritten(c, 65, true); m.position == 65 && m.anchor == 65
    ensures var m := MoveToAsWritten(c, 66, true); m.position == 66 && m.anchor == 66
    ensures var m := MoveToAsWritten(c, 67, true); m.position == 66 && m.anchor == 66
  {
  }

  /**
   Five groups of three bytes, 40 bytes: starting a selection from an odd
   anchor snaps the anchor against the direction of travel, from an even one it stays.
   */
  lemma SelectionExamples(c: Cursor)
    requires c.maxPosition == 82 && c.positionsInRow == 31 && c.positionsInGroup == 6
    ensures var s := MoveToAsWritten(MoveToAsWritten(c, 1, true), 0, false); s.position == 0 && s.anchor == 2
    ensures var s := MoveToAsWritten(MoveToAsWritten(c, 1, true), 2, false); s.position == 2 && s.anchor == 0
    ensures var s := MoveToAsWritten(MoveToAsWritten(c, 2, true), 0, false); s.position == 0 && s.anchor == 2
    ensures var s := MoveToAsWritten(MoveToAsWritten(c, 2, true), 2, false); s.position == 2 && s.anchor == 2
    ensures var s := MoveToAsWritten(MoveToAsWritten(c, 3, true), 0, false); s.position == 0 && s.anchor == 4
    ensures var s := MoveToAsWritten(MoveToAsWritten(c, 29, true), 30, false); s.position == 30 && s.anchor == 28
  {
    Select1To0();
    Select1To2();
    Select2To0();
    Select2To2();
    Select3To0();
    Select29To30();
  }

  lemma Select1To0()
    ensures MoveToAsWritten(Cursor(1, 1, 82, 31, 6), 0, false) == Cursor(0, 2, 82, 31, 6)
  {
    var c := Cursor(1, 1, 82, 31, 6);
    assert ByteGroups(c) && OnByteBoundary(c, 0);
    MoveToAsWrittenSelects(c, 0);
  }

  lemma Select1To2()
    ensures MoveToAsWritten(Cursor(1, 1, 82, 31, 6), 2, false) == Cursor(2, 0, 82, 31, 6)
  {
    var c := Cursor(1, 1, 82, 31, 6);
    assert ByteGroups(c) && OnByteBoundary(c, 2);
    MoveToAsWrittenSelects(c, 2);
  }

  lemma Select2To0()
    ensures MoveToAsWritten(Cursor(2, 2, 82, 31, 6), 0, false) == Cursor(0, 2, 82, 31, 6)
  {
    var c := Cursor(2, 2, 82, 31, 6);
    assert ByteGroups(c) && OnByteBoundary(c, 0);
    MoveToAsWrittenSelects(c, 0);
  }

  lemma Select2To2()
    ensures MoveToAsWritten(Cursor(2, 2, 82, 31, 6), 2, false) == Cursor(2, 2, 82, 31, 6)
  {
    var c := Cursor(2, 2, 82, 31, 6);
    assert ByteGroups(c) && OnByteBoundary(c, 2);
    MoveToAsWrittenSelects(c, 2);
  }

  lemma Select3To0()
    ensures MoveToAsWritten(Cursor(3, 3, 82, 31, 6), 0, false) == Cursor(0, 4, 82, 31, 6)
  {
    var c := Cursor(3, 3, 82, 31, 6);
    assert ByteGroups(c) && OnByteBoundary(c, 0);
    MoveToAsWrittenSelects(c, 0);
  }

  lemma Select29To30()
    ensures MoveToAsWritten(Cursor(29, 29, 82, 31, 6), 30, false) == Cursor(30, 28, 82, 31, 6)
  {
    var c := Cursor(29, 29, 82, 31, 6);
    assert ByteGroups(c) && OnByteBoundary(c, 30);
    MoveToAsWrittenSelects(c, 30);
  }
}
