/** The watch face's picture of the time: four seven-segment digits and a
    colon drawn as live cells, plus the flat pixel buffer a window of cells
    is copied into for drawing. */
module WatchFace {
  import opened Wrappers
  import opened Cells

  // ----- plaintext patterns ---------------------------------------------------

  /** The live cells of a plaintext pattern placed at `offset`: an `O` in
      column `x` of row `y` is the cell `(x, y) + offset`. */
  function PatternCells(rows: seq<string>, offset: IntOffset): CellState {
    set y, x | 0 <= y < |rows| && 0 <= x < |rows[y]| && rows[y][x] == 'O' :: IntOffset(x + offset.x, y + offset.y)
  }

  /** A cell is live exactly when its row and column in the pattern hold an `O`. */
  lemma InPattern(rows: seq<string>, offset: IntOffset, c: IntOffset)
    ensures c in PatternCells(rows, offset) <==>
      var x, y := c.x - offset.x, c.y - offset.y;
      0 <= y < |rows| && 0 <= x < |rows[y]| && rows[y][x] == 'O'
  {
    var x, y := c.x - offset.x, c.y - offset.y;
    if 0 <= y < |rows| && 0 <= x < |rows[y]| && rows[y][x] == 'O' {
      assert IntOffset(x + offset.x, y + offset.y) == c;
    }
  }

  // ----- segments ---------------------------------------------------------------

  /** The seven segments of a digit, in the usual lettering: A top, B upper
      right, C lower right, D bottom, E lower left, F upper left, G middle. */
  datatype Segment = A | B | C | D | E | F | G

  const EmptyRow := ".........."
  const LeftBar := "OO........"
  const RightBar := "........OO"
  const TopEdge := "OO.OO.O.OO"
  const LowerEdge := "OO.O.OO.OO"

  function EmptyRows(n: nat): (r: seq<string>)
    ensures |r| == n && forall i :: 0 <= i < n ==> r[i] == EmptyRow
  {
    seq(n, _ => EmptyRow)
  }

  /** Each segment is an 18-row, 10-column plaintext pattern. */
  function SegmentRows(s: Segment): (r: seq<string>)
    ensures |r| == 18
    ensures forall y :: 0 <= y < 18 ==> |r[y]| == 10
  {
    match s
    case A => [TopEdge, LowerEdge] + EmptyRows(16)
    case B => [RightBar, RightBar, EmptyRow, EmptyRow, RightBar, RightBar, EmptyRow, EmptyRow, RightBar, RightBar] + EmptyRows(8)
    case C => EmptyRows(8) + [RightBar, RightBar, EmptyRow, EmptyRow, RightBar, RightBar, EmptyRow, EmptyRow, RightBar, RightBar]
    case D => EmptyRows(16) + [TopEdge, LowerEdge]
    case E => EmptyRows(8) + [LeftBar, LeftBar, EmptyRow, EmptyRow, LeftBar, LeftBar, EmptyRow, EmptyRow, LeftBar, LeftBar]
    case F => [LeftBar, LeftBar, EmptyRow, EmptyRow, LeftBar, LeftBar, EmptyRow, EmptyRow, LeftBar, LeftBar] + EmptyRows(8)
    case G => EmptyRows(8) + [LowerEdge, TopEdge] + EmptyRows(8)
  }

  function SegmentCells(s: Segment): CellState {
    PatternCells(SegmentRows(s), Origin)
  }

  /** A cell that lies in segment `s` and in no other segment. */
  function Witness(s: Segment): IntOffset {
    match s
    case A => IntOffset(3, 0)
    case B => IntOffset(8, 4)
    case C => IntOffset(8, 12)
    case D => IntOffset(3, 16)
    case E => IntOffset(0, 12)
    case F => IntOffset(0, 4)
    case G => IntOffset(3, 8)
  }

  lemma WitnessOnlyIn(s: Segment, t: Segment)
    ensures Witness(s) in SegmentCells(t) <==> s == t
  {
    InPattern(SegmentRows(t), Origin, Witness(s));
  }

  /** Every segment lies in the 10-column, 18-row digit box. */
  lemma SegmentInBox(s: Segment, c: IntOffset)
    requires c in SegmentCells(s)
    ensures DigitBox.Contains(c)
  {
    InPattern(SegmentRows(s), Origin, c);
  }

  const DigitBox := IntRect(0, 0, 9, 17)

  // ----- digits -----------------------------------------------------------------

  /** `GameOfLifeSegmentChar`: a numeral or a blank. */
  datatype SegmentChar = Zero | One | Two | Three | Four | Five | Six | Seven | Eight | Nine | Blank

  /** The cells of a character: the union of its lit segments. */
  function Glyph(ch: SegmentChar): CellState {
    var a, b, c, d, e, f, g := SegmentCells(A), SegmentCells(B), SegmentCells(C), SegmentCells(D), SegmentCells(E), SegmentCells(F), SegmentCells(G);
    match ch
    case Zero => a + b + c + d + e + f
    case One => b + c
    case Two => a + b + d + e + g
    case Three => a + b + c + d + g
    case Four => b + c + f + g
    case Five => a + c + d + f + g
    case Six => a + c + d + e + f + g
    case Seven => a + b + c
    case Eight => a + b + c + d + e + f + g
    case Nine => a + b + c + d + f + g
    case Blank => {}
  }

  /** The segments a character lights, as a seven-segment display table. */
  function LitSegments(ch: SegmentChar): set<Segment> {
    match ch
    case Zero => {A, B, C, D, E, F}
    case One => {B, C}
    case Two => {A, B, D, E, G}
    case Three => {A, B, C, D, G}
    case Four => {B, C, F, G}
    case Five => {A, C, D, F, G}
    case Six => {A, C, D, E, F, G}
    case Seven => {A, B, C}
    case Eight => {A, B, C, D, E, F, G}
    case Nine => {A, B, C, D, F, G}
    case Blank => {}
  }

  /** The glyph's cells are exactly those of the segments the table lights. */
  lemma GlyphIsLitSegments(ch: SegmentChar, c: IntOffset)
    ensures c in Glyph(ch) <==> exists s :: s in LitSegments(ch) && c in SegmentCells(s)
  {
    if c in Glyph(ch) {
      var s :| s in LitSegments(ch) && c in SegmentCells(s);
    }
  }

  /** The numeral a character shows; a blank shows none. */
  function Numeral(ch: SegmentChar): Option<int> {
    match ch
    case Zero => Some(0)
    case One => Some(1)
    case Two => Some(2)
    case Three => Some(3)
    case Four => Some(4)
    case Five => Some(5)
    case Six => Some(6)
    case Seven => Some(7)
    case Eight => Some(8)
    case Nine => Some(9)
    case Blank => None
  }

  /** `fromChar`: the character for a digit; anything outside 0..9 is
      rejected (the source throws). */
  function FromChar(digit: int): (r: Option<SegmentChar>)
    ensures r.Some? <==> 0 <= digit <= 9
    ensures r.Some? ==> Numeral(r.value) == Some(digit)
  {
    match digit
    case 0 => Some(Zero)
    case 1 => Some(One)
    case 2 => Some(Two)
    case 3 => Some(Three)
    case 4 => Some(Four)
    case 5 => Some(Five)
    case 6 => Some(Six)
    case 7 => Some(Seven)
    case 8 => Some(Eight)
    case 9 => Some(Nine)
    case _ => None
  }

  /** Every numeral comes back from its digit, so `fromChar` is onto the
      numerals and one-to-one. */
  lemma FromCharInverse(ch: SegmentChar)
    ensures ch != Blank ==> Numeral(ch).Some? && FromChar(Numeral(ch).value) == Some(ch)
    ensures ch == Blank <==> Numeral(ch).None?
  {
  }

  lemma FromCharInjective(d1: int, d2: int)
    requires FromChar(d1).Some? && FromChar(d1) == FromChar(d2)
    ensures d1 == d2
  {
  }

  lemma EightLightsAll(s: Segment)
    ensures s in LitSegments(Eight)
  {
  }

  /** A blank lights no cell. */
  lemma BlankIsEmpty(c: IntOffset)
    ensures c !in Glyph(Blank)
  {
    GlyphIsLitSegments(Blank, c);
  }

  /** An eight lights exactly the cells of all seven segments. */
  lemma EightIsAllSegments(c: IntOffset)
    ensures c in Glyph(Eight) <==> exists s :: c in SegmentCells(s)
  {
    GlyphIsLitSegments(Eight, c);
    if exists s :: c in SegmentCells(s) {
      var s :| c in SegmentCells(s);
      EightLightsAll(s);
    }
  }

  /** Every character's cells lie within an eight's. */
  lemma GlyphsWithinEight(ch: SegmentChar, c: IntOffset)
    requires c in Glyph(ch)
    ensures c in Glyph(Eight)
  {
    GlyphIsLitSegments(ch, c);
    var s :| s in LitSegments(ch) && c in SegmentCells(s);
    EightIsAllSegments(c);
  }

  lemma GlyphInBox(ch: SegmentChar, c: IntOffset)
    requires c in Glyph(ch)
    ensures DigitBox.Contains(c)
  {
    GlyphIsLitSegments(ch, c);
    var s :| s in LitSegments(ch) && c in SegmentCells(s);
    SegmentInBox(s, c);
  }

  /** A segment's witness cell is lit exactly when the character lights it. */
  lemma WitnessInGlyph(ch: SegmentChar, s: Segment)
    ensures Witness(s) in Glyph(ch) <==> s in LitSegments(ch)
  {
    GlyphIsLitSegments(ch, Witness(s));
    if Witness(s) in Glyph(ch) {
      var t :| t in LitSegments(ch) && Witness(s) in SegmentCells(t);
      WitnessOnlyIn(s, t);
    } else if s in LitSegments(ch) {
      WitnessOnlyIn(s, s);
    }
  }

  /** Different characters draw different cells. */
  lemma {:induction false} GlyphInjective(c1: SegmentChar, c2: SegmentChar)
    requires Glyph(c1) == Glyph(c2)
    ensures c1 == c2
  {
    forall s ensures s in LitSegments(c1) <==> s in LitSegments(c2) {
      WitnessInGlyph(c1, s);
      WitnessInGlyph(c2, s);
    }
    assert LitSegments(c1) == LitSegments(c2);
  }

  // ----- the time as four characters ------------------------------------------

  datatype TimeDigits = TimeDigits(first: SegmentChar, second: SegmentChar, third: SegmentChar, fourth: SegmentChar)

  /** The hour shown: the hour itself in 24-hour format; otherwise the hour
      on a 12-hour dial, where midnight and noon both show 12. */
  function DisplayHour(hour: int, use24HourFormat: bool): (h: int)
    requires 0 <= hour < 24
    ensures use24HourFormat ==> h == hour
    ensures !use24HourFormat ==> 1 <= h <= 12 && h % 12 == hour % 12
  {
    var clockHour := hour % 12;
    if use24HourFormat then hour else if clockHour == 0 then 12 else clockHour
  }

  /** The number the four characters spell, a blank counting as zero. */
  function Spelled(t: TimeDigits): int {
    var v := (ch: SegmentChar) => if Numeral(ch).Some? then Numeral(ch).value else 0;
    1000 * v(t.first) + 100 * v(t.second) + 10 * v(t.third) + v(t.fourth)
  }

  /** `createTimeDigits`: the characters of `hh:mm`. The tens of the hour is
      left blank on a 12-hour dial when it is zero; every other character is
      a numeral, and together they spell the displayed hour and the minute. */
  function CreateTimeDigits(hour: int, minute: int, use24HourFormat: bool): (t: TimeDigits)
    requires 0 <= hour < 24 && 0 <= minute < 60
    ensures Spelled(t) == 100 * DisplayHour(hour, use24HourFormat) + minute
    ensures t.first == Blank <==> !use24HourFormat && DisplayHour(hour, use24HourFormat) < 10
    ensures t.second != Blank && t.third != Blank && t.fourth != Blank
  {
    var displayHour := DisplayHour(hour, use24HourFormat);
    var hourTensPlace := displayHour / 10;
    var first := if hourTensPlace == 0 && !use24HourFormat then Blank else FromChar(hourTensPlace).value;
    TimeDigits(first, FromChar(displayHour % 10).value, FromChar(minute / 10).value, FromChar(minute % 10).value)
  }

  /** The displayed hours agree exactly when the hours do, up to twelve hours on a 12-hour dial. */
  lemma DisplayHourDetermines(h1: int, h2: int, use24HourFormat: bool)
    requires 0 <= h1 < 24 && 0 <= h2 < 24
    ensures DisplayHour(h1, use24HourFormat) == DisplayHour(h2, use24HourFormat)
            <==> if use24HourFormat then h1 == h2 else h1 % 12 == h2 % 12
  {
  }

  lemma SameDisplaySameDigits(h1: int, h2: int, minute: int, use24HourFormat: bool)
    requires 0 <= h1 < 24 && 0 <= h2 < 24 && 0 <= minute < 60
    requires DisplayHour(h1, use24HourFormat) == DisplayHour(h2, use24HourFormat)
    ensures CreateTimeDigits(h1, minute, use24HourFormat) == CreateTimeDigits(h2, minute, use24HourFormat)
  {
  }

  /** In 24-hour format the digits tell the time exactly; on a 12-hour dial
      they tell it up to twelve hours. */
  lemma TimeDigitsDetermineTime(h1: int, m1: int, h2: int, m2: int, use24HourFormat: bool)
    requires 0 <= h1 < 24 && 0 <= m1 < 60 && 0 <= h2 < 24 && 0 <= m2 < 60
    ensures CreateTimeDigits(h1, m1, use24HourFormat) == CreateTimeDigits(h2, m2, use24HourFormat)
            <==> m1 == m2 && (if use24HourFormat then h1 == h2 else h1 % 12 == h2 % 12)
  {
    var d1 := DisplayHour(h1, use24HourFormat);
    var d2 := DisplayHour(h2, use24HourFormat);
    DisplayHourDetermines(h1, h2, use24HourFormat);
    if CreateTimeDigits(h1, m1, use24HourFormat) == CreateTimeDigits(h2, m2, use24HourFormat) {
      assert 100 * d1 + m1 == 100 * d2 + m2;
    } else if m1 == m2 && d1 == d2 {
      SameDisplaySameDigits(h1, h2, m1, use24HourFormat);
    }
  }

  // ----- the time as cells ------------------------------------------------------

  const SecondDigitOffset := IntOffset(14, 0)
  const ThirdDigitOffset := IntOffset(32, 0)
  const FourthDigitOffset := IntOffset(46, 0)
  const ColonOffset := IntOffset(27, 6)
  const TimeOffset := IntOffset(8, 26)
  const ColonRows := ["OO", "OO", "..", "..", "OO", "OO"]

  /** The box the layout occupies before the final move. */
  const LayoutBox := IntRect(0, 0, 55, 17)

  /** The box the time occupies once moved into place. */
  const TimeBox := IntRect(8, 26, 63, 43)

  /** The time before the final move: the four glyphs side by side and the colon. */
  function TimeLayout(t: TimeDigits): CellState {
    Union(Union(Union(Union(Glyph(t.first), OffsetBy(Glyph(t.second), SecondDigitOffset)),
      OffsetBy(Glyph(t.third), ThirdDigitOffset)),
      OffsetBy(Glyph(t.fourth), FourthDigitOffset)),
      PatternCells(ColonRows, ColonOffset))
  }

  /** The deterministic part of `createTimeCellState`: the layout moved
      into place, inside the box (8, 26)-(63, 43) and so inside the window. */
  function TimeCells(t: TimeDigits): (r: CellState)
    ensures forall c :: c in r ==> TimeBox.Contains(c) && CellWindow.Contains(c)
  {
    LayoutInBox(t);
    MovedWithin(TimeLayout(t), TimeOffset, LayoutBox);
    OffsetBy(TimeLayout(t), TimeOffset)
  }

  /** Where the `k`-th character sits in the layout. */
  function SlotOffset(k: int): IntOffset
    requires 0 <= k < 4
  {
    [Origin, SecondDigitOffset, ThirdDigitOffset, FourthDigitOffset][k]
  }

  function DigitAt(t: TimeDigits, k: int): SegmentChar
    requires 0 <= k < 4
  {
    [t.first, t.second, t.third, t.fourth][k]
  }

  /** The digit box moved to a slot. */
  function SlotRect(o: IntOffset): IntRect {
    IntRect(o.x, o.y, o.x + DigitBox.right, o.y + DigitBox.bottom)
  }

  lemma MovedGlyphInSlot(ch: SegmentChar, o: IntOffset, c: IntOffset)
    requires c in OffsetBy(Glyph(ch), o)
    ensures SlotRect(o).Contains(c)
  {
    InOffsetBy(Glyph(ch), o, c);
    GlyphInBox(ch, Plus(c, Negate(o)));
  }

  lemma ColonCells(c: IntOffset)
    requires c in PatternCells(ColonRows, ColonOffset)
    ensures 27 <= c.x <= 28 && 6 <= c.y <= 11
  {
    InPattern(ColonRows, ColonOffset, c);
  }

  /** The moved glyph of the `k`-th character. */
  function Part(t: TimeDigits, k: int): CellState
    requires 0 <= k < 4
  {
    OffsetBy(Glyph(DigitAt(t, k)), SlotOffset(k))
  }

  lemma InLayout(t: TimeDigits, c: IntOffset)
    ensures c in TimeLayout(t) <==>
      c in Part(t, 0) || c in Part(t, 1) || c in Part(t, 2) || c in Part(t, 3) || c in PatternCells(ColonRows, ColonOffset)
  {
    OffsetByOrigin(Glyph(t.first));
    assert Part(t, 0) == Glyph(t.first);
    assert Part(t, 1) == OffsetBy(Glyph(t.second), SecondDigitOffset);
    assert Part(t, 2) == OffsetBy(Glyph(t.third), ThirdDigitOffset);
    assert Part(t, 3) == OffsetBy(Glyph(t.fourth), FourthDigitOffset);
  }

  /** No two slots share a column, and the colon sits in none of them. */
  lemma SlotsApart(j: int, k: int, c: IntOffset)
    requires 0 <= j < 4 && 0 <= k < 4 && j != k
    ensures !(SlotRect(SlotOffset(j)).Contains(c) && SlotRect(SlotOffset(k)).Contains(c))
    ensures !(27 <= c.x <= 28 && SlotRect(SlotOffset(k)).Contains(c))
  {
  }

  lemma PartInSlot(t: TimeDigits, j: int, c: IntOffset)
    requires 0 <= j < 4 && c in Part(t, j)
    ensures SlotRect(SlotOffset(j)).Contains(c)
  {
    MovedGlyphInSlot(DigitAt(t, j), SlotOffset(j), c);
  }

  lemma PartOnlyInOwnSlot(t: TimeDigits, j: int, k: int, c: IntOffset)
    requires 0 <= j < 4 && 0 <= k < 4 && c in Part(t, j) && SlotRect(SlotOffset(k)).Contains(c)
    ensures j == k
  {
    PartInSlot(t, j, c);
    if j != k {
      SlotsApart(j, k, c);
    }
  }

  /** Cut out of the layout, each slot holds exactly its character's glyph:
      the glyphs and the colon never overlap. */
  lemma {:induction false} LayoutSlot(t: TimeDigits, k: int)
    requires 0 <= k < 4
    ensures AliveCellsInWindow(TimeLayout(t), SlotRect(SlotOffset(k))) == Part(t, k)
  {
    var window := SlotRect(SlotOffset(k));
    forall c | c in Part(t, k) ensures c in TimeLayout(t) && window.Contains(c) {
      InLayout(t, c);
      PartInSlot(t, k, c);
    }
    forall c | c in TimeLayout(t) && window.Contains(c) ensures c in Part(t, k) {
      InLayout(t, c);
      if c in PatternCells(ColonRows, ColonOffset) {
        ColonCells(c);
      } else if c in Part(t, 0) {
        PartOnlyInOwnSlot(t, 0, k, c);
      } else if c in Part(t, 1) {
        PartOnlyInOwnSlot(t, 1, k, c);
      } else if c in Part(t, 2) {
        PartOnlyInOwnSlot(t, 2, k, c);
      } else {
        PartOnlyInOwnSlot(t, 3, k, c);
      }
    }
  }

  /** Reading a slot of the picture back gives the character drawn there. */
  function ReadSlot(cells: CellState, k: int): CellState
    requires 0 <= k < 4
  {
    OffsetBy(AliveCellsInWindow(cells, SlotRect(Plus(SlotOffset(k), TimeOffset))), Negate(Plus(SlotOffset(k), TimeOffset)))
  }

  lemma {:induction false} ReadSlotOfTimeCells(t: TimeDigits, k: int)
    requires 0 <= k < 4
    ensures ReadSlot(TimeCells(t), k) == Glyph(DigitAt(t, k))
  {
    var o := SlotOffset(k);
    var window := SlotRect(o);
    var moved := SlotRect(Plus(o, TimeOffset));
    LayoutSlot(t, k);
    assert AliveCellsInWindow(TimeCells(t), moved) == OffsetBy(AliveCellsInWindow(TimeLayout(t), window), TimeOffset) by {
      forall c ensures c in AliveCellsInWindow(TimeCells(t), moved) <==> c in OffsetBy(AliveCellsInWindow(TimeLayout(t), window), TimeOffset) {
        InOffsetBy(TimeLayout(t), TimeOffset, c);
        InOffsetBy(AliveCellsInWindow(TimeLayout(t), window), TimeOffset, c);
      }
    }
    assert Part(t, k) == OffsetBy(Glyph(DigitAt(t, k)), o);
    OffsetByCompose(Glyph(DigitAt(t, k)), o, TimeOffset);
    OffsetByInverse(Glyph(DigitAt(t, k)), Plus(o, TimeOffset));
  }

  /** Different digits give different pictures: the time can be read off the face. */
  lemma {:induction false} TimeCellsInjective(t1: TimeDigits, t2: TimeDigits)
    requires TimeCells(t1) == TimeCells(t2)
    ensures t1 == t2
  {
    forall k | 0 <= k < 4 ensures DigitAt(t1, k) == DigitAt(t2, k) {
      ReadSlotOfTimeCells(t1, k);
      ReadSlotOfTimeCells(t2, k);
      GlyphInjective(DigitAt(t1, k), DigitAt(t2, k));
    }
    assert DigitAt(t1, 0) == DigitAt(t2, 0) && DigitAt(t1, 1) == DigitAt(t2, 1);
    assert DigitAt(t1, 2) == DigitAt(t2, 2) && DigitAt(t1, 3) == DigitAt(t2, 3);
  }

  /** The whole layout lies inside its box. */
  lemma LayoutInBox(t: TimeDigits)
    ensures forall c :: c in TimeLayout(t) ==> LayoutBox.Contains(c)
  {
    forall c | c in TimeLayout(t) ensures LayoutBox.Contains(c) {
      InLayout(t, c);
      if c in PatternCells(ColonRows, ColonOffset) {
        ColonCells(c);
      } else if c in Part(t, 0) {
        PartInSlot(t, 0, c);
      } else if c in Part(t, 1) {
        PartInSlot(t, 1, c);
      } else if c in Part(t, 2) {
        PartInSlot(t, 2, c);
      } else {
        PartInSlot(t, 3, c);
      }
    }
  }

  /** A state inside a box, moved by `d`, lies inside the box moved by `d`. */
  lemma MovedWithin(s: CellState, d: IntOffset, box: IntRect)
    requires forall c :: c in s ==> box.Contains(c)
    ensures forall c :: c in OffsetBy(s, d) ==>
      IntRect(box.left + d.x, box.top + d.y, box.right + d.x, box.bottom + d.y).Contains(c)
  {
    forall c | c in OffsetBy(s, d)
      ensures IntRect(box.left + d.x, box.top + d.y, box.right + d.x, box.bottom + d.y).Contains(c)
    {
      InOffsetBy(s, d, c);
    }
  }

  // ----- random cells around the time -----------------------------------------

  /** The square the non-round pool is cut from. */
  const PoolRect := IntRect(-10, -10, 80, 80)

  /** `notRoundRandomPointPool`: the points of the pool square whose column
      and row both lie outside `0..69`, i.e. its four corners. */
  function NotRoundRandomPointPool(): (pool: set<IntOffset>)
    ensures forall p :: p in pool ==> PoolRect.Contains(p) && !(0 <= p.x <= 69) && !(0 <= p.y <= 69)
    ensures forall p :: p in pool ==> !CellWindow.Contains(p)
  {
    set x, y | PoolRect.left <= x <= PoolRect.right && PoolRect.top <= y <= PoolRect.bottom
                 && !(0 <= x <= 69) && !(0 <= y <= 69) :: IntOffset(x, y)
  }

  /** Every point of the pool square outside both ranges is in the pool. */
  lemma NotRoundPoolComplete(p: IntOffset)
    requires PoolRect.Contains(p) && !(0 <= p.x <= 69) && !(0 <= p.y <= 69)
    ensures p in NotRoundRandomPointPool()
  {
    assert p == IntOffset(p.x, p.y);
  }

  /** `createTimeCellState`: the time plus the pool points the random draw
      keeps. The draw is the parameter `keep`; the round pool, whose test is
      a floating-point distance, is the parameter `roundPool`. On a square
      face the random cells never show inside the window, so the visible
      cells are exactly the time. */
  function CreateTimeCellState(isRound: bool, t: TimeDigits, roundPool: set<IntOffset>, keep: IntOffset -> bool): (r: CellState)
    ensures TimeCells(t) <= r
    ensures r <= TimeCells(t) + (if isRound then roundPool else NotRoundRandomPointPool())
    ensures !isRound ==> AliveCellsInWindow(r, CellWindow) == TimeCells(t)
  {
    var pool := if isRound then roundPool else NotRoundRandomPointPool();
    var randomPoints := set p | p in pool && keep(p);
    var r := Union(TimeCells(t), randomPoints);
    r
  }

  // ----- the pixel buffer -------------------------------------------------------

  /** The window of cells drawn: `IntRect(IntOffset(0, 0), IntSize(69, 69))`,
      whose closed extent is 70 by 70 cells. */
  const CellWindow := IntRect(0, 0, 69, 69)

  lemma CellWindowFromSize()
    ensures CellWindow == RectFromOffsetAndSize(Origin, 69, 69)
  {
  }

  /** The buffer is one pixel per cell of the closed window. */
  function BufferSize(w: IntRect): int {
    (w.Width() + 1) * (w.Height() + 1)
  }

  /** A cell's pixel: rows run from the window's bottom edge upwards, as the
      texture's origin is its lower-left corner. */
  function BufferIndex(w: IntRect, c: IntOffset): (i: int)
    requires w.Contains(c)
    ensures 0 <= i < BufferSize(w)
  {
    var width := w.Width() + 1;
    var row := w.bottom - c.y;
    var column := c.x - w.left;
    assert 0 <= row <= w.Height() && 0 <= column < width;
    assert row * width <= w.Height() * width;
    (w.bottom - c.y) * width + c.x - w.left
  }

  /** The cell a pixel shows. */
  function CellAt(w: IntRect, i: int): IntOffset
    requires w.Width() >= 0
  {
    IntOffset(w.left + i % (w.Width() + 1), w.bottom - i / (w.Width() + 1))
  }

  /** Pixels and window cells correspond one to one. */
  lemma BufferIndexRoundTrip(w: IntRect, c: IntOffset)
    requires w.Contains(c)
    ensures CellAt(w, BufferIndex(w, c)) == c
  {
    var width := w.Width() + 1;
    var row := w.bottom - c.y;
    var column := c.x - w.left;
    var i := row * width + column;
    assert i / width == row && i % width == column by {
      DivModUnique(i, width, row, column);
    }
  }

  lemma CellAtRoundTrip(w: IntRect, i: int)
    requires w.Width() >= 0 && w.Height() >= 0 && 0 <= i < BufferSize(w)
    ensures w.Contains(CellAt(w, i)) && BufferIndex(w, CellAt(w, i)) == i
  {
    var width := w.Width() + 1;
    var q, r := i / width, i % width;
    assert i == q * width + r;
    if q > w.Height() {
      MulAtLeast(q - w.Height() - 1, width);
    }
  }

  lemma BufferIndexInjective(w: IntRect, c1: IntOffset, c2: IntOffset)
    requires w.Contains(c1) && w.Contains(c2) && BufferIndex(w, c1) == BufferIndex(w, c2)
    ensures c1 == c2
  {
    BufferIndexRoundTrip(w, c1);
    BufferIndexRoundTrip(w, c2);
  }

  lemma DivModUnique(i: int, d: int, q: int, r: int)
    requires d > 0 && 0 <= r < d && i == q * d + r
    ensures i / d == q && i % d == r
  {
    var q', r' := i / d, i % d;
    assert (q - q') * d == r' - r;
    if q > q' {
      MulAtLeast(q - q' - 1, d);
    } else if q < q' {
      MulAtLeast(q' - q - 1, d);
    }
  }

  /** Nonlinear step the solver does not find on its own inside the
      division proofs above. */
  lemma MulAtLeast(a: int, d: int)
    requires a >= 0 && d > 0
    ensures (a + 1) * d >= d
  {
  }

  /** The render loop over the window `w` (the renderer's is `CellWindow`):
      every live cell of the window lights its pixel, and no other pixel is lit. */
  method Render(cells: CellState, w: IntRect) returns (buffer: seq<bool>)
    requires w.Width() >= 0 && w.Height() >= 0
    ensures |buffer| == BufferSize(w)
    ensures forall i :: 0 <= i < |buffer| ==> (buffer[i] <==> CellAt(w, i) in cells)
  {
    var visible := AliveCellsInWindow(cells, w);
    buffer := seq(BufferSize(w), _ => false);
    var remaining := visible;
    while remaining != {}
      invariant remaining <= visible
      invariant |buffer| == BufferSize(w)
      invariant forall i :: 0 <= i < |buffer| ==> (buffer[i] <==> CellAt(w, i) in visible - remaining)
      decreases |remaining|
    {
      var c :| c in remaining;
      var index := BufferIndex(w, c);
      forall i | 0 <= i < |buffer| && i != index ensures CellAt(w, i) != c {
        CellAtRoundTrip(w, i);
      }
      BufferIndexRoundTrip(w, c);
      buffer := buffer[index := true];
      remaining := remaining - {c};
    }
    forall i | 0 <= i < |buffer| ensures buffer[i] <==> CellAt(w, i) in cells {
      CellAtRoundTrip(w, i);
      assert buffer[i] <==> CellAt(w, i) in visible;
    }
  }
}
