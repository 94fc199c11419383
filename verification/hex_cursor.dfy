/**
 The hex editor's text cursor: a position and a selection anchor inside
 [0, max position], laid out on a grid of rows, groups and nibbles. A row
 holds `positionsInRow` positions: `positionsInGroup` nibble positions for each
 group, then one position past the row's last nibble.

 Python's `//` and `%` floor; every divisor here is positive, where flooring
 and Dafny's Euclidean division agree.
 */
module HexCursor {
  import opened Arithmetic

  datatype Cursor = Cursor(position: int, anchor: int, maxPosition: int, positionsInRow: int, positionsInGroup: int)

  /** A new cursor: at zero, with nothing to move to, one position per row and per group. */
  const Initial := Cursor(0, 0, 0, 1, 1)

  /** A grid coordinate: the row, the group within the row, the nibble within the group. */
  datatype Grid = Grid(row: int, group: int, nibble: int)

  /** The grid conversions divide by both sizes. */
  predicate Sized(c: Cursor)
  {
    c.positionsInRow >= 1 && c.positionsInGroup >= 1
  }

  /** A row is a whole number of groups plus its end position, the layout the editor configures. */
  predicate Regular(c: Cursor)
  {
    Sized(c) && (c.positionsInRow - 1) % c.positionsInGroup == 0
  }

  function GroupsPerRow(c: Cursor): int
    requires Sized(c)
  {
    (c.positionsInRow - 1) / c.positionsInGroup
  }

  /** A regular layout whose groups hold whole bytes, two nibbles each. */
  predicate ByteGroups(c: Cursor)
  {
    Regular(c) && c.positionsInGroup % 2 == 0
  }

  /** Position and anchor both lie in [0, max position]. */
  predicate InRange(c: Cursor)
  {
    0 <= c.position <= c.maxPosition && 0 <= c.anchor <= c.maxPosition
  }

  function UpperClamped(c: Cursor, p: int): (r: int)
    ensures r <= p && r <= c.maxPosition && (r == p || r == c.maxPosition)
  {
    if p <= c.maxPosition then p else c.maxPosition
  }

  /** `p` brought into [0, max position]; zero when the range is empty. */
  function Clamped(c: Cursor, p: int): (r: int)
    ensures c.maxPosition >= 0 ==> 0 <= r <= c.maxPosition
    ensures 0 <= p <= c.maxPosition ==> r == p
    ensures p < 0 || c.maxPosition < 0 ==> r == 0
    ensures p > c.maxPosition >= 0 ==> r == c.maxPosition
  {
    var u := UpperClamped(c, p);
    if u > 0 then u else 0
  }

  /** Clamping picks the point of [0, max position] nearest to `p`. */
  lemma ClampedNearest(c: Cursor, p: int, q: int)
    requires 0 <= q <= c.maxPosition
    ensures var r := Clamped(c, p); Distance(r, p) <= Distance(q, p)
  {
  }

  function Distance(a: int, b: int): nat
  {
    if a <= b then b - a else a - b
  }

  /** Assigning the position clamps it and changes nothing else. */
  function WithPosition(c: Cursor, p: int): (r: Cursor)
    ensures r == c.(position := r.position)
    ensures c.maxPosition >= 0 ==> 0 <= r.position <= c.maxPosition
    ensures 0 <= p <= c.maxPosition ==> r.position == p
  {
    c.(position := Clamped(c, p))
  }

  /** Assigning the maximum re-clamps both the position and the anchor. */
  function WithMaxPosition(c: Cursor, m: int): (r: Cursor)
    ensures r.maxPosition == m && r.positionsInRow == c.positionsInRow && r.positionsInGroup == c.positionsInGroup
    ensures m >= 0 ==> InRange(r)
    ensures 0 <= c.position <= m ==> r.position == c.position
    ensures 0 <= c.anchor <= m ==> r.anchor == c.anchor
  {
    var d := c.(maxPosition := m);
    var d := WithPosition(d, Clamped(d, d.position));
    d.(anchor := Clamped(d, d.anchor))
  }

  function MaxPositionInRow(c: Cursor): int
  {
    c.positionsInRow - 1
  }

  function CurrentRow(c: Cursor): int
    requires Sized(c)
  {
    c.position / c.positionsInRow
  }

  /** The first and last positions of a row, each cut at the maximum. */
  function RowPositions(c: Cursor, row: int): (int, int)
  {
    var start := UpperClamped(c, row * c.positionsInRow);
    (start, UpperClamped(c, start + c.positionsInRow - 1))
  }

  /**
   A row the maximum does not cut spans exactly its `positionsInRow` positions;
   a row past the maximum collapses onto it.
   */
  lemma RowPositionsSpan(c: Cursor, row: int)
    requires Sized(c)
    ensures var pir := c.positionsInRow;
      && (row * pir + pir - 1 <= c.maxPosition ==> RowPositions(c, row) == (row * pir, row * pir + pir - 1))
      && (row * pir <= c.maxPosition < row * pir + pir - 1 ==> RowPositions(c, row) == (row * pir, c.maxPosition))
      && (row * pir > c.maxPosition ==> RowPositions(c, row) == (c.maxPosition, c.maxPosition))
  {
  }

  /** Every position between a row's bounds belongs to that row. */
  lemma RowPositionsBelong(c: Cursor, row: int, p: int)
    requires Sized(c) && row * c.positionsInRow <= c.maxPosition
    requires RowPositions(c, row).0 <= p <= RowPositions(c, row).1
    ensures p / c.positionsInRow == row
  {
    DivUnique(p, c.positionsInRow, row, p - row * c.positionsInRow);
  }

  /** The cursor lies within the bounds of its current row. */
  lemma CurrentRowContains(c: Cursor)
    requires Sized(c) && InRange(c)
    ensures RowPositions(c, CurrentRow(c)).0 <= c.position <= RowPositions(c, CurrentRow(c)).1
  {
    var pir := c.positionsInRow;
    var row := CurrentRow(c);
    assert c.position == row * pir + c.position % pir;
  }

  /**
   The grid coordinate of a position. The position past a row's last nibble
   is reported as one past the last nibble of the previous group.
   */
  function PositionToGrid(c: Cursor, p: int): Grid
    requires Sized(c)
  {
    var row := p / c.positionsInRow;
    var inRow := p % c.positionsInRow;
    var group := inRow / c.positionsInGroup;
    if inRow != MaxPositionInRow(c) then Grid(row, group, inRow % c.positionsInGroup)
    else Grid(row, group - 1, c.positionsInGroup)
  }

  function GridToPosition(c: Cursor, g: Grid): int
  {
    g.row * c.positionsInRow + g.group * c.positionsInGroup + g.nibble
  }

  /**
   Converting to the grid and back returns the position, except for the end
   position of a row whose length is not a whole number of groups plus one.
   */
  lemma {:induction false} GridRoundTrip(c: Cursor, p: int)
    requires Sized(c)
    ensures GridToPosition(c, PositionToGrid(c, p)) == p <==> (p % c.positionsInRow != MaxPositionInRow(c) || Regular(c))
  {
    var pir, pig := c.positionsInRow, c.positionsInGroup;
    var row, inRow := p / pir, p % pir;
    assert p == row * pir + inRow;
    var group := inRow / pig;
    if inRow != MaxPositionInRow(c) {
      assert inRow == group * pig + inRow % pig;
    } else {
      var last := pir - 1;
      assert GridToPosition(c, PositionToGrid(c, p)) == row * pir + (last / pig) * pig by {
        assert (group - 1) * pig + pig == group * pig;
      }
      assert last == (last / pig) * pig + last % pig;
    }
  }

  /** The coordinates the grid uses: a nibble of one of the row's groups, or the row's end position. */
  predicate Canonical(c: Cursor, g: Grid)
    requires Sized(c)
  {
    || (0 <= g.group < GroupsPerRow(c) && 0 <= g.nibble < c.positionsInGroup)
    || (g.group == GroupsPerRow(c) - 1 && g.nibble == c.positionsInGroup)
  }

  /** In a regular layout every position has a canonical coordinate, whose nibble is past the group only at the row's end. */
  lemma GridCanonical(c: Cursor, p: int)
    requires Regular(c)
    ensures Canonical(c, PositionToGrid(c, p))
    ensures PositionToGrid(c, p).nibble == c.positionsInGroup <==> p % c.positionsInRow == MaxPositionInRow(c)
  {
    var pir, pig := c.positionsInRow, c.positionsInGroup;
    var k := GroupsPerRow(c);
    var inRow := p % pir;
    assert pir - 1 == k * pig;
    if inRow != MaxPositionInRow(c) {
      var group := inRow / pig;
      assert inRow == group * pig + inRow % pig;
      if group >= k {
        MulMonotone(k, group, pig);
      }
    } else {
      DivUnique(pir - 1, pig, k, 0);
    }
  }

  /** In a regular layout a canonical coordinate converts to a position and back unchanged. */
  lemma GridInverse(c: Cursor, g: Grid)
    requires Regular(c) && Canonical(c, g)
    ensures PositionToGrid(c, GridToPosition(c, g)) == g
  {
    var pir, pig := c.positionsInRow, c.positionsInGroup;
    var k := GroupsPerRow(c);
    assert pir - 1 == k * pig;
    var x := g.group * pig + g.nibble;
    var p := GridToPosition(c, g);
    if g.nibble == pig {
      assert x == k * pig by {
        assert (k - 1) * pig + pig == k * pig;
      }
      DivUnique(p, pir, g.row, x);
      DivUnique(pir - 1, pig, k, 0);
    } else {
      assert x < k * pig by {
        MulMonotone(g.group + 1, k, pig);
        assert (g.group + 1) * pig == g.group * pig + pig;
      }
      assert 0 <= x;
      DivUnique(p, pir, g.row, x);
      DivUnique(x, pig, g.group, g.nibble);
    }
  }

  /** Moving the nibble of a position's coordinate by `e` moves the position by `e`. */
  lemma NibbleShift(c: Cursor, p: int, e: int)
    requires Regular(c)
    ensures var g := PositionToGrid(c, p); GridToPosition(c, g.(nibble := g.nibble + e)) == p + e
  {
    GridRoundTrip(c, p);
  }

  /** A position on a byte boundary: an even offset within its row. */
  predicate OnByteBoundary(c: Cursor, p: int)
    requires Sized(c)
  {
    (p % c.positionsInRow) % 2 == 0
  }

  /** With byte-sized groups, a position's nibble is odd exactly when the position is not on a byte boundary. */
  lemma NibbleParity(c: Cursor, p: int)
    requires ByteGroups(c)
    ensures PositionToGrid(c, p).nibble % 2 != 0 <==> !OnByteBoundary(c, p)
  {
    var pir, pig := c.positionsInRow, c.positionsInGroup;
    var inRow := p % pir;
    var h := pig / 2;
    assert pig == 2 * h;
    if inRow != MaxPositionInRow(c) {
      var group := inRow / pig;
      assert inRow == 2 * (group * h) + inRow % pig;
    } else {
      var k := GroupsPerRow(c);
      assert inRow == 2 * (k * h);
    }
  }

  /** From a position off a byte boundary, one step either way lands on one, in the same row. */
  lemma StepToBoundary(c: Cursor, p: int, d: int)
    requires ByteGroups(c) && !OnByteBoundary(c, p) && (d == 1 || d == -1)
    ensures OnByteBoundary(c, p + d) && (p + d) / c.positionsInRow == p / c.positionsInRow
  {
    var pir, pig := c.positionsInRow, c.positionsInGroup;
    var k := GroupsPerRow(c);
    assert pir - 1 == k * pig;
    assert (pir - 1) % 2 == 0 by {
      assert pir - 1 == 2 * (k * (pig / 2));
    }
    var inRow := p % pir;
    assert 1 <= inRow <= pir - 2;
    DivUnique(p + d, pir, p / pir, inRow + d);
  }

  /**
   The anchor snapped to a byte boundary against the direction of travel `d`,
   as a move that starts a selection does it.
   */
  function SnappedAnchor(c: Cursor, a: int, d: int): int
    requires Sized(c)
  {
    var g := PositionToGrid(c, a);
    var nibble := if g.nibble % 2 != 0 then g.nibble - d else g.nibble;
    GridToPosition(c, g.(nibble := nibble))
  }

  /** The target snapped to a byte boundary along the direction of travel `d`. */
  function SnappedTarget(c: Cursor, q: int, d: int): int
    requires Sized(c)
  {
    var g := PositionToGrid(c, q);
    if g.nibble % 2 != 0 then GridToPosition(c, g.(nibble := g.nibble + d)) else q
  }

  /**
   With byte-sized groups the grid snapping is plain arithmetic: a position off
   a byte boundary steps one position, the anchor backwards and the target forwards.
   */
  lemma SnapArithmetic(c: Cursor, q: int, d: int)
    requires ByteGroups(c)
    ensures SnappedAnchor(c, q, d) == if OnByteBoundary(c, q) then q else q - d
    ensures SnappedTarget(c, q, d) == if OnByteBoundary(c, q) then q else q + d
  {
    NibbleParity(c, q);
    NibbleShift(c, q, -d);
    NibbleShift(c, q, d);
    NibbleShift(c, q, 0);
  }

  /**
   The move as the editor performs it. Moving with the anchor drops any
   selection. Moving without it extends a selection byte by byte: the target
   snaps to a byte boundary along the direction of travel and, when nothing was
   selected, the anchor snaps against it. The snapped anchor is not clamped.
   */
  function MoveToAsWritten(c: Cursor, p: int, moveAnchor: bool): (r: Cursor)
    requires Sized(c)
    ensures r.maxPosition == c.maxPosition && r.positionsInRow == c.positionsInRow && r.positionsInGroup == c.positionsInGroup
    ensures c.maxPosition >= 0 ==> 0 <= r.position <= c.maxPosition
    ensures moveAnchor ==> r.anchor == r.position == Clamped(c, p)
    ensures !moveAnchor && c.position != c.anchor ==> r.anchor == c.anchor
  {
    var target := Clamped(c, p);
    if moveAnchor then
      var moved := WithPosition(c, target);
      moved.(anchor := moved.position)
    else
      var d := if target > c.position then 1 else -1;
      var anchor := if c.position == c.anchor then SnappedAnchor(c, c.anchor, d) else c.anchor;
      WithPosition(c.(anchor := anchor), SnappedTarget(c, target, d))
  }

  /** The move with the snapped anchor clamped like every other assignment to it. */
  function MoveTo(c: Cursor, p: int, moveAnchor: bool): (r: Cursor)
    requires Sized(c)
    ensures r.maxPosition == c.maxPosition && r.positionsInRow == c.positionsInRow && r.positionsInGroup == c.positionsInGroup
    ensures c.maxPosition >= 0 && 0 <= c.anchor <= c.maxPosition ==> InRange(r)
    ensures moveAnchor ==> r.anchor == r.position == Clamped(c, p)
    ensures !moveAnchor && c.position != c.anchor && 0 <= c.anchor <= c.maxPosition ==> r.anchor == c.anchor
  {
    var moved := MoveToAsWritten(c, p, moveAnchor);
    moved.(anchor := Clamped(c, moved.anchor))
  }

  /** The corrected move differs from the written one only where the written one leaves the anchor out of range. */
  lemma MoveToAgrees(c: Cursor, p: int, moveAnchor: bool)
    requires Sized(c) && c.maxPosition >= 0
    ensures var w := MoveToAsWritten(c, p, moveAnchor);
      0 <= w.anchor <= c.maxPosition <==> MoveTo(c, p, moveAnchor) == w
  {
    var w := MoveToAsWritten(c, p, moveAnchor);
    assert MoveTo(c, p, moveAnchor) == w.(anchor := Clamped(c, w.anchor));
  }

  /**
   Extending a selection: the cursor lands on a byte boundary one step along
   the direction of travel (or on the maximum), and a selection that starts here
   anchors on the byte boundary one step behind.
   */
  lemma MoveToSelects(c: Cursor, p: int)
    requires ByteGroups(c) && InRange(c)
    ensures var r, target := MoveTo(c, p, false), Clamped(c, p);
      var d := if target > c.position then 1 else -1;
      && r.position == Clamped(c, if OnByteBoundary(c, target) then target else target + d)
      && (OnByteBoundary(c, r.position) || r.position == c.maxPosition)
      && (c.position == c.anchor ==>
        && r.anchor == Clamped(c, if OnByteBoundary(c, c.anchor) then c.anchor else c.anchor - d)
        && (OnByteBoundary(c, r.anchor) || r.anchor == c.maxPosition))
      && (c.position != c.anchor ==> r.anchor == c.anchor)
  {
    var target := Clamped(c, p);
    var d := if target > c.position then 1 else -1;
    MoveToUnfolds(c, p);
    SnappedPosition(c, target, d);
    if c.position == c.anchor {
      SnappedStart(c, d);
    }
  }

  /** The move that extends a selection, with its two snaps named. */
  lemma MoveToUnfolds(c: Cursor, p: int)
    requires Sized(c) && InRange(c)
    ensures var r, target := MoveTo(c, p, false), Clamped(c, p);
      var d := if target > c.position then 1 else -1;
      && r.position == Clamped(c, SnappedTarget(c, target, d))
      && r.anchor == (if c.position == c.anchor then Clamped(c, SnappedAnchor(c, c.anchor, d)) else c.anchor)
  {
  }

  lemma SnappedPosition(c: Cursor, target: int, d: int)
    requires ByteGroups(c) && (d == 1 || d == -1)
    ensures var q := Clamped(c, SnappedTarget(c, target, d));
      && q == Clamped(c, if OnByteBoundary(c, target) then target else target + d)
      && (OnByteBoundary(c, q) || q == c.maxPosition)
  {
    SnapArithmetic(c, target, d);
    if !OnByteBoundary(c, target) {
      StepToBoundary(c, target, d);
    }
    ClampedBoundary(c, if OnByteBoundary(c, target) then target else target + d);
  }

  lemma SnappedStart(c: Cursor, d: int)
    requires ByteGroups(c) && InRange(c) && (d == 1 || d == -1)
    ensures var a := Clamped(c, SnappedAnchor(c, c.anchor, d));
      && a == Clamped(c, if OnByteBoundary(c, c.anchor) then c.anchor else c.anchor - d)
      && (OnByteBoundary(c, a) || a == c.maxPosition)
  {
    SnapArithmetic(c, c.anchor, d);
    if !OnByteBoundary(c, c.anchor) {
      StepToBoundary(c, c.anchor, -d);
    }
    ClampedBoundary(c, if OnByteBoundary(c, c.anchor) then c.anchor else c.anchor - d);
  }

  /** Clamping a byte boundary lands on a byte boundary, unless it lands on the maximum. */
  lemma ClampedBoundary(c: Cursor, q: int)
    requires Sized(c) && OnByteBoundary(c, q)
    ensures OnByteBoundary(c, Clamped(c, q)) || Clamped(c, q) == c.maxPosition
  {
    assert OnByteBoundary(c, 0);
  }

  predicate HasSelection(c: Cursor)
  {
    c.position != c.anchor
  }

  /** A move by `shift` stays inside [0, max position]. */
  predicate CanMoveBy(c: Cursor, shift: int)
  {
    0 <= c.position + shift <= c.maxPosition
  }

  /**
   Moving by a shift, through the move as the editor performs it: Shift with
   an arrow key extends the selection this way, so the snapped anchor is not
   clamped here either.
   */
  function MoveBy(c: Cursor, shift: int, moveAnchor: bool): (r: Cursor)
    requires Sized(c)
    ensures r.maxPosition == c.maxPosition && r.positionsInRow == c.positionsInRow && r.positionsInGroup == c.positionsInGroup
    ensures c.maxPosition >= 0 ==> 0 <= r.position <= c.maxPosition
    ensures moveAnchor ==> !HasSelection(r)
    ensures CanMoveBy(c, shift) && moveAnchor ==> r.position == c.position + shift
    ensures !moveAnchor && HasSelection(c) ==> r.anchor == c.anchor
  {
    MoveToAsWritten(c, c.position + shift, moveAnchor)
  }

  /**
   Extending a selection as the editor does: the cursor lands on a byte
   boundary one step along the direction of travel (or on the maximum); a
   selection that starts here anchors one step behind, without clamping.
   */
  lemma MoveToAsWrittenSelects(c: Cursor, p: int)
    requires ByteGroups(c) && 0 <= c.position <= c.maxPosition
    ensures var r, target := MoveToAsWritten(c, p, false), Clamped(c, p);
      var d := if target > c.position then 1 else -1;
      && r.position == Clamped(c, if OnByteBoundary(c, target) then target else target + d)
      && (OnByteBoundary(c, r.position) || r.position == c.maxPosition)
      && r.anchor == (if HasSelection(c) then c.anchor
        else if OnByteBoundary(c, c.anchor) then c.anchor else c.anchor - d)
  {
    var target := Clamped(c, p);
    var d := if target > c.position then 1 else -1;
    SnappedPosition(c, target, d);
    SnapArithmetic(c, c.anchor, d);
  }

  /** Extending a selection by a shift, as Shift with an arrow key does. */
  lemma MoveBySelects(c: Cursor, shift: int)
    requires ByteGroups(c) && 0 <= c.position <= c.maxPosition
    ensures var r, target := MoveBy(c, shift, false), Clamped(c, c.position + shift);
      var d := if target > c.position then 1 else -1;
      && r.position == Clamped(c, if OnByteBoundary(c, target) then target else target + d)
      && (OnByteBoundary(c, r.position) || r.position == c.maxPosition)
      && r.anchor == (if HasSelection(c) then c.anchor
        else if OnByteBoundary(c, c.anchor) then c.anchor else c.anchor - d)
  {
    MoveToAsWrittenSelects(c, c.position + shift);
  }

  /** Moving by a shift through the corrected move. */
  function MoveByCorrected(c: Cursor, shift: int, moveAnchor: bool): (r: Cursor)
    requires Sized(c)
    ensures r.position == MoveBy(c, shift, moveAnchor).position
    ensures c.maxPosition >= 0 && 0 <= c.anchor <= c.maxPosition ==> InRange(r)
    ensures moveAnchor ==> !HasSelection(r)
  {
    MoveTo(c, c.position + shift, moveAnchor)
  }

  /** The corrected move by a shift differs from the written one only where the written one leaves the anchor out of range. */
  lemma MoveByAgrees(c: Cursor, shift: int, moveAnchor: bool)
    requires Sized(c) && c.maxPosition >= 0
    ensures var w := MoveBy(c, shift, moveAnchor);
      0 <= w.anchor <= c.maxPosition <==> MoveByCorrected(c, shift, moveAnchor) == w
  {
    MoveToAgrees(c, c.position + shift, moveAnchor);
  }

  /** A move by `shift` is possible exactly when moving by it lands `shift` away, no clamping involved. */
  lemma CanMoveByIff(c: Cursor, shift: int)
    requires Sized(c) && c.maxPosition >= 0
    ensures CanMoveBy(c, shift) <==> MoveBy(c, shift, true).position == c.position + shift
  {
  }
}
