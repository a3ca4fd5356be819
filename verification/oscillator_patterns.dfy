/** The two checks every oscillator pattern passes: its period is the number
    of distinct states it cycles through, and its declared bounding box is
    the hull of the bounding boxes of those states. */
module OscillatorPatterns {
  import opened Wrappers
  import opened Cells

  // ----- distinct ---------------------------------------------------------------

  predicate NoDuplicates(s: seq<CellState>) {
    forall i, j :: 0 <= i < j < |s| ==> s[i] != s[j]
  }

  /** `distinct()`: the elements in order of first occurrence, each once.
      `seen` holds the elements already kept. */
  function DistinctAfter(s: seq<CellState>, seen: set<CellState>): (r: seq<CellState>)
    ensures NoDuplicates(r)
    ensures forall x :: x in r <==> x in s && x !in seen
    decreases |s|
  {
    if |s| == 0 then []
    else if s[0] in seen then DistinctAfter(s[1..], seen)
    else
      var rest := DistinctAfter(s[1..], seen + {s[0]});
      assert forall x :: x in rest ==> x != s[0];
      [s[0]] + rest
  }

  function Distinct(s: seq<CellState>): (r: seq<CellState>)
    ensures NoDuplicates(r)
    ensures forall x :: x in r <==> x in s
  {
    DistinctAfter(s, {})
  }

  /** A list without duplicates has as many elements as its set. */
  lemma {:induction false} NoDuplicatesCard(s: seq<CellState>)
    requires NoDuplicates(s)
    ensures |set x | x in s| == |s|
    decreases |s|
  {
    if |s| > 0 {
      var tail := s[1..];
      NoDuplicatesCard(tail);
      assert (set x | x in s) == (set x | x in tail) + {s[0]};
      assert s[0] !in (set x | x in tail);
    }
  }

  /** The number of distinct elements is the size of the list's set. */
  lemma DistinctSize(s: seq<CellState>)
    ensures |Distinct(s)| == |set x | x in s|
  {
    var r := Distinct(s);
    NoDuplicatesCard(r);
    assert (set x | x in r) == (set x | x in s);
  }

  /** Keeping first occurrences leaves a list without duplicates unchanged. */
  lemma {:induction false} DistinctAfterIdentity(s: seq<CellState>, seen: set<CellState>)
    requires NoDuplicates(s) && forall x :: x in s ==> x !in seen
    ensures DistinctAfter(s, seen) == s
    decreases |s|
  {
    if |s| > 0 {
      var tail := s[1..];
      assert forall x :: x in tail ==> x !in seen + {s[0]} by {
        forall x | x in tail ensures x !in seen + {s[0]} {
          var j :| 0 <= j < |tail| && tail[j] == x;
          assert s[j + 1] == x;
        }
      }
      DistinctAfterIdentity(tail, seen + {s[0]});
    }
  }

  /** `distinct()` keeps the length exactly when nothing repeats. */
  lemma DistinctKeepsLength(s: seq<CellState>)
    ensures |Distinct(s)| <= |s|
    ensures |Distinct(s)| == |s| <==> NoDuplicates(s)
    ensures NoDuplicates(s) ==> Distinct(s) == s
  {
    DistinctSize(s);
    SetCardAtMost(s);
    if NoDuplicates(s) {
      DistinctAfterIdentity(s, {});
    } else {
      var i, j :| 0 <= i < j < |s| && s[i] == s[j];
      RepeatShrinksSet(s, i, j);
    }
  }

  lemma {:induction false} SetCardAtMost(s: seq<CellState>)
    ensures |set x | x in s| <= |s|
    decreases |s|
  {
    if |s| > 0 {
      SetCardAtMost(s[1..]);
      assert (set x | x in s) == (set x | x in s[1..]) + {s[0]};
    }
  }

  /** A repeated element makes the set smaller than the list. */
  lemma RepeatShrinksSet(s: seq<CellState>, i: int, j: int)
    requires 0 <= i < j < |s| && s[i] == s[j]
    ensures |set x | x in s| < |s|
  {
    var without := s[..j] + s[j + 1..];
    assert (set x | x in s) == (set x | x in without) by {
      forall x | x in s ensures x in without {
        var k :| 0 <= k < |s| && s[k] == x;
        if k < j {
          assert without[k] == x;
        } else if k == j {
          assert without[i] == x;
        } else {
          assert without[k - 1] == x;
        }
      }
    }
    SetCardAtMost(without);
  }

  // ----- bounding boxes ---------------------------------------------------------

  /** One step of the hull fold: the first box as is, then the smallest box
      holding both. */
  function Combine(acc: Option<IntRect>, box: IntRect): (r: IntRect)
    ensures r.ContainsRect(box)
    ensures acc.Some? ==> r.ContainsRect(acc.value)
    ensures forall outer: IntRect :: outer.ContainsRect(box) && (acc.Some? ==> outer.ContainsRect(acc.value)) ==> outer.ContainsRect(r)
  {
    if acc.None? then box
    else
      IntRect(
        Min(box.left, acc.value.left),
        Min(box.top, acc.value.top),
        Max(box.right, acc.value.right),
        Max(box.bottom, acc.value.bottom))
  }

  function Min(a: int, b: int): int { if a <= b then a else b }

  function Max(a: int, b: int): int { if a >= b then a else b }

  /** The fold from `acc` over the remaining boxes. */
  function FoldHull(acc: Option<IntRect>, boxes: seq<IntRect>): (r: Option<IntRect>)
    ensures r.Some? <==> acc.Some? || |boxes| > 0
    ensures r.Some? && acc.Some? ==> r.value.ContainsRect(acc.value)
    ensures forall i :: 0 <= i < |boxes| ==> r.Some? && r.value.ContainsRect(boxes[i])
    decreases |boxes|
  {
    if |boxes| == 0 then acc
    else
      var r := FoldHull(Some(Combine(acc, boxes[0])), boxes[1..]);
      assert forall i :: 1 <= i < |boxes| ==> boxes[i] == boxes[1..][i - 1];
      r
  }

  /** The hull of the phases' boxes: none for no phases. */
  function Hull(boxes: seq<IntRect>): (r: Option<IntRect>)
    ensures r.Some? <==> |boxes| > 0
    ensures forall i :: 0 <= i < |boxes| ==> r.Some? && r.value.ContainsRect(boxes[i])
  {
    FoldHull(None, boxes)
  }

  /** The hull of a single box is that box. */
  lemma HullOfOne(box: IntRect)
    ensures Hull([box]) == Some(box)
  {
    assert [box][1..] == [];
    assert Hull([box]) == FoldHull(Some(Combine(None, box)), []);
  }

  /** No box holding the accumulated box and every remaining box is smaller
      than the fold's result: the hull is the least box holding them all. */
  lemma {:induction false} FoldHullIsLeast(acc: Option<IntRect>, boxes: seq<IntRect>, outer: IntRect)
    requires acc.Some? ==> outer.ContainsRect(acc.value)
    requires forall i :: 0 <= i < |boxes| ==> outer.ContainsRect(boxes[i])
    requires acc.Some? || |boxes| > 0
    ensures outer.ContainsRect(FoldHull(acc, boxes).value)
    decreases |boxes|
  {
    if |boxes| > 0 {
      var next := Some(Combine(acc, boxes[0]));
      assert outer.ContainsRect(boxes[0]);
      if |boxes| > 1 {
        forall i | 0 <= i < |boxes[1..]| ensures outer.ContainsRect(boxes[1..][i]) {
          assert boxes[1..][i] == boxes[i + 1];
        }
      }
      FoldHullIsLeast(next, boxes[1..], outer);
    }
  }

  lemma HullIsLeast(boxes: seq<IntRect>, outer: IntRect)
    requires |boxes| > 0
    requires forall i :: 0 <= i < |boxes| ==> outer.ContainsRect(boxes[i])
    ensures outer.ContainsRect(Hull(boxes).value)
  {
    FoldHullIsLeast(None, boxes, outer);
  }

  // ----- the two checks ---------------------------------------------------------

  /** An oscillator: its seed state, the other states of one period in
      order, the declared period and the declared bounding box. The bounding
      box of each state is given alongside the state, as the cell-state type
      computes it. */
  datatype OscillatorPattern = OscillatorPattern(
    seed: CellState,
    otherCellStates: seq<CellState>,
    period: int,
    boundingBox: IntRect)

  function RepeatingCellStates(p: OscillatorPattern): (r: seq<CellState>)
    ensures |r| == 1 + |p.otherCellStates| && r[0] == p.seed
    ensures r[1..] == p.otherCellStates
  {
    [p.seed] + p.otherCellStates
  }

  /** `list_of_states_are_distinct`: the period is the number of distinct
      states. A pattern passes only with a period between one and the number
      of listed states; when the period counts every listed state, it passes
      exactly when no state repeats, so the period listed is minimal. */
  function StatesAreDistinct(p: OscillatorPattern): (ok: bool)
    ensures ok ==> 1 <= p.period <= |RepeatingCellStates(p)|
    ensures p.period == |RepeatingCellStates(p)| ==> (ok <==> NoDuplicates(RepeatingCellStates(p)))
  {
    var states := RepeatingCellStates(p);
    DistinctKeepsLength(states);
    assert states[0] in Distinct(states);
    p.period == |Distinct(states)|
  }

  /** `bounding_box_is_minimal_and_correct`, given each state's box. */
  function BoundingBoxIsMinimalAndCorrect(p: OscillatorPattern, boxOf: CellState -> IntRect): (ok: bool)
    ensures ok ==> forall i :: 0 <= i < |RepeatingCellStates(p)| ==> p.boundingBox.ContainsRect(boxOf(RepeatingCellStates(p)[i]))
  {
    Hull(Boxes(RepeatingCellStates(p), boxOf)) == Some(p.boundingBox)
  }

  function Boxes(states: seq<CellState>, boxOf: CellState -> IntRect): (r: seq<IntRect>)
    ensures |r| == |states|
    ensures forall i :: 0 <= i < |r| ==> r[i] == boxOf(states[i])
  {
    seq(|states|, i requires 0 <= i < |states| => boxOf(states[i]))
  }

  /** A pattern passing the check declares a box that holds every phase's box
      and lies inside any other box that does. */
  lemma BoundingBoxCheckMeans(p: OscillatorPattern, boxOf: CellState -> IntRect, outer: IntRect)
    requires BoundingBoxIsMinimalAndCorrect(p, boxOf)
    ensures forall i :: 0 <= i < |RepeatingCellStates(p)| ==> p.boundingBox.ContainsRect(boxOf(RepeatingCellStates(p)[i]))
    ensures (forall i :: 0 <= i < |RepeatingCellStates(p)| ==> outer.ContainsRect(boxOf(RepeatingCellStates(p)[i])))
            ==> outer.ContainsRect(p.boundingBox)
  {
    var boxes := Boxes(RepeatingCellStates(p), boxOf);
    if forall i :: 0 <= i < |RepeatingCellStates(p)| ==> outer.ContainsRect(boxOf(RepeatingCellStates(p)[i])) {
      HullIsLeast(boxes, outer);
    }
  }
}
