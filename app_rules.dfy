/**
 * Two small rules of backend/app/main.py: the solved test of the
 * `validate-solution` endpoint and the horizon schedule of the auto-search
 * loop of `check_solvable`.
 */
module AppRules {
  import opened Wrappers
  import opened Walks
  import opened Rules

  // ---------------------------------------------------------------------------
  // validate_solution

  /**
   * The `boxes_on_goals` comprehension: the boxes, in order, that coincide
   * with some goal.  Each cell occurs in it as often as in `boxes` when it is
   * a goal and not at all otherwise, so its length counts box entries on
   * goals, repeated entries included.
   */
  function BoxesOnGoals(boxes: seq<Pos>, goals: seq<Pos>): (r: seq<Pos>)
    ensures OnGoalsOf(boxes, goals, r)
    ensures |r| <= |boxes|
    ensures forall b :: b in r <==> b in boxes && b in goals
    ensures forall b :: multiset(r)[b] == if b in goals then multiset(boxes)[b] else 0
    ensures |r| == |boxes| <==> forall i :: 0 <= i < |boxes| ==> boxes[i] in goals
    decreases |boxes|
  {
    if boxes == [] then []
    else
      var rest := BoxesOnGoals(boxes[1..], goals);
      var r := if boxes[0] in goals then [boxes[0]] + rest else rest;
      OnGoalsStep(boxes, goals, rest, r);
      r
  }

  /** The properties `BoxesOnGoals` promises, gathered for its inductive step. */
  ghost predicate OnGoalsOf(boxes: seq<Pos>, goals: seq<Pos>, r: seq<Pos>) {
    && |r| <= |boxes|
    && (forall b :: b in r <==> b in boxes && b in goals)
    && (forall b :: multiset(r)[b] == if b in goals then multiset(boxes)[b] else 0)
    && (|r| == |boxes| <==> forall i :: 0 <= i < |boxes| ==> boxes[i] in goals)
  }

  /** Filtering the first box in front of the filtered rest filters the whole list. */
  lemma OnGoalsStep(boxes: seq<Pos>, goals: seq<Pos>, rest: seq<Pos>, r: seq<Pos>)
    requires boxes != [] && OnGoalsOf(boxes[1..], goals, rest)
    requires r == if boxes[0] in goals then [boxes[0]] + rest else rest
    ensures OnGoalsOf(boxes, goals, r)
  {
    assert boxes == [boxes[0]] + boxes[1..];
    assert forall i :: 1 <= i < |boxes| ==> boxes[i] == boxes[1..][i - 1];
    assert multiset(boxes) == multiset{boxes[0]} + multiset(boxes[1..]);
    if boxes[0] in goals {
      assert multiset(r) == multiset{boxes[0]} + multiset(rest);
    }
  }

  /** The endpoint's answer: solved, boxes on goals, total goals. */
  datatype Validation = Validation(solved: bool, boxesOnGoals: nat, totalGoals: nat)

  /**
   * Solved when there is at least one box and every box stands on a goal
   * (goals may outnumber boxes); the count is the length of the
   * `boxes_on_goals` list, which never exceeds the number of boxes.
   */
  function ValidateSolution(boxes: seq<Pos>, goals: seq<Pos>): (v: Validation)
    ensures v.solved <==> |boxes| > 0 && forall i :: 0 <= i < |boxes| ==> boxes[i] in goals
    ensures v.boxesOnGoals <= |boxes|
    ensures v.boxesOnGoals == |BoxesOnGoals(boxes, goals)|
    ensures v.solved ==> v.boxesOnGoals == |boxes|
    ensures v.totalGoals == |goals|
  {
    var onGoals := BoxesOnGoals(boxes, goals);
    Validation(|boxes| > 0 && |onGoals| == |boxes|, |onGoals|, |goals|)
  }

  /** The endpoint agrees with the `solved()` test the move simulation uses. */
  lemma ValidateAgreesWithSolved(boxes: seq<Pos>, goals: seq<Pos>)
    ensures ValidateSolution(boxes, goals).solved <==> Solved(BoxSet(boxes), BoxSet(goals))
  {
    var v := ValidateSolution(boxes, goals);
    if Solved(BoxSet(boxes), BoxSet(goals)) {
      assert boxes[0] in BoxSet(boxes);
      forall i | 0 <= i < |boxes|
        ensures boxes[i] in goals
      {
        assert boxes[i] in BoxSet(boxes);
      }
    }
    if v.solved {
      assert boxes[0] in BoxSet(boxes);
    }
  }

  // ---------------------------------------------------------------------------
  // Horizon escalation

  /** The request's horizon, defaulting by mode: pushes in auto mode, moves otherwise. */
  function StartSteps(auto: bool, deep: bool, maxSteps: Option<int>): (r: int)
    ensures r >= 1
    ensures maxSteps.Some? && maxSteps.value >= 1 ==> r == maxSteps.value
    ensures maxSteps.Some? && maxSteps.value < 1 ==> r == 1
    ensures maxSteps.None? && auto ==> 10 <= r <= 15 && (deep <==> r == 15)
    ensures maxSteps.None? && !auto ==> 25 <= r <= 35 && (deep <==> r == 35)
  {
    var defaultMaxSteps := if auto then (if deep then 15 else 10) else (if deep then 35 else 25);
    var steps := if maxSteps.Some? then maxSteps.value else defaultMaxSteps;
    if steps < 1 then 1 else steps
  }

  /**
   * The next horizon after a failed round: five more below 50, ten more below
   * 100, and `int(steps * 1.25) + 1` from there, written over the integers.
   */
  function NextHorizon(steps: int): (r: int)
    ensures r >= steps + 5
    ensures steps < 50 ==> r == steps + 5
    ensures 50 <= steps < 100 ==> r == steps + 10
    ensures steps >= 100 ==> 4 * (r - 1) <= 5 * steps < 4 * r
  {
    if steps < 50 then steps + 5
    else if steps < 100 then steps + 10
    else steps * 5 / 4 + 1
  }

  /** The horizon after `k` failed rounds. */
  function Horizon(start: int, k: nat): int {
    if k == 0 then start else NextHorizon(Horizon(start, k - 1))
  }

  /** The schedule strictly increases and grows by at least five per round. */
  lemma {:induction false} HorizonIncreases(start: int, j: nat, k: nat)
    requires j <= k
    ensures Horizon(start, k) >= Horizon(start, j) + 5 * (k - j)
    ensures j < k ==> Horizon(start, j) < Horizon(start, k)
    decreases k
  {
    if j < k {
      HorizonIncreases(start, j, k - 1);
    }
  }
}
