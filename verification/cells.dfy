/** The cell-state value type: the set of live cells of an unbounded integer
    plane, with the pure operations the rest of the model uses (union,
    translation by an offset, the cells inside a closed window). */
module Cells {

  /** An integer offset or cell coordinate; `x` grows to the right and `y`
      grows downwards, as in the plaintext pattern rows. */
  datatype IntOffset = IntOffset(x: int, y: int)

  type CellState = set<IntOffset>

  function Plus(a: IntOffset, b: IntOffset): IntOffset {
    IntOffset(a.x + b.x, a.y + b.y)
  }

  function Negate(a: IntOffset): IntOffset {
    IntOffset(-a.x, -a.y)
  }

  const Origin := IntOffset(0, 0)

  function Union(a: CellState, b: CellState): (r: CellState)
    ensures forall c :: c in r <==> c in a || c in b
  {
    a + b
  }

  /** `offsetBy`: every live cell moved by `d`. */
  function OffsetBy(s: CellState, d: IntOffset): (r: CellState)
    ensures forall c :: c in s ==> Plus(c, d) in r
  {
    set c | c in s :: Plus(c, d)
  }

  /** A cell is live after the move exactly when the cell it came from was. */
  lemma InOffsetBy(s: CellState, d: IntOffset, c: IntOffset)
    ensures c in OffsetBy(s, d) <==> Plus(c, Negate(d)) in s
  {
    if Plus(c, Negate(d)) in s {
      assert Plus(Plus(c, Negate(d)), d) == c;
    }
  }

  /** A rectangle of cells whose four edges are all included. */
  datatype IntRect = IntRect(left: int, top: int, right: int, bottom: int) {

    function Width(): int { right - left }

    function Height(): int { bottom - top }

    predicate Contains(c: IntOffset) {
      left <= c.x <= right && top <= c.y <= bottom
    }

    predicate ContainsRect(other: IntRect) {
      left <= other.left && top <= other.top && other.right <= right && other.bottom <= bottom
    }
  }

  /** `IntRect(offset, size)`: right and bottom are `offset + size`. */
  function RectFromOffsetAndSize(offset: IntOffset, width: int, height: int): (r: IntRect)
    ensures r.left == offset.x && r.top == offset.y
    ensures r.Width() == width && r.Height() == height
  {
    IntRect(offset.x, offset.y, offset.x + width, offset.y + height)
  }

  /** `getAliveCellsInWindow`: the live cells lying in the closed window. */
  function AliveCellsInWindow(s: CellState, window: IntRect): (r: CellState)
    ensures r <= s
    ensures forall c :: c in r <==> c in s && window.Contains(c)
  {
    set c | c in s && window.Contains(c)
  }

  lemma OffsetByOrigin(s: CellState)
    ensures OffsetBy(s, Origin) == s
  {
    var r := OffsetBy(s, Origin);
    forall c | c in r ensures c in s {
      InOffsetBy(s, Origin, c);
      assert Plus(c, Negate(Origin)) == c;
    }
    forall c | c in s ensures c in r {
      assert Plus(c, Origin) == c;
    }
  }

  /** Translation is a group action: two moves compose into one. */
  lemma OffsetByCompose(s: CellState, d1: IntOffset, d2: IntOffset)
    ensures OffsetBy(OffsetBy(s, d1), d2) == OffsetBy(s, Plus(d1, d2))
  {
    forall c ensures c in OffsetBy(OffsetBy(s, d1), d2) <==> c in OffsetBy(s, Plus(d1, d2)) {
      InOffsetBy(OffsetBy(s, d1), d2, c);
      InOffsetBy(s, d1, Plus(c, Negate(d2)));
      InOffsetBy(s, Plus(d1, d2), c);
      assert Plus(Plus(c, Negate(d2)), Negate(d1)) == Plus(c, Negate(Plus(d1, d2)));
    }
  }

  /** Moving back by the opposite offset restores the state. */
  lemma OffsetByInverse(s: CellState, d: IntOffset)
    ensures OffsetBy(OffsetBy(s, d), Negate(d)) == s
  {
    OffsetByCompose(s, d, Negate(d));
    assert Plus(d, Negate(d)) == Origin;
    OffsetByOrigin(s);
  }

  lemma OffsetByDistributesOverUnion(a: CellState, b: CellState, d: IntOffset)
    ensures OffsetBy(Union(a, b), d) == Union(OffsetBy(a, d), OffsetBy(b, d))
  {
    forall c ensures c in OffsetBy(Union(a, b), d) <==> c in Union(OffsetBy(a, d), OffsetBy(b, d)) {
      InOffsetBy(Union(a, b), d, c);
      InOffsetBy(a, d, c);
      InOffsetBy(b, d, c);
    }
  }

  /** Union is commutative, associative, and absorbs a subset. */
  lemma UnionLaws(a: CellState, b: CellState, c: CellState)
    ensures Union(a, b) == Union(b, a)
    ensures Union(Union(a, b), c) == Union(a, Union(b, c))
    ensures b <= a ==> Union(a, b) == a
  {
  }
}
