/** The habit tracker's list: toggling today's mark on a habit and counting the marks.
    The habit page keeps its own record type, so the id-uniqueness predicate and the
    count mirror the project store's rather than sharing them. */
module Habits {

  /** A daily habit with its current streak and today's mark. */
  datatype Habit = Habit(id: int, title: string, streak: int, completed: bool)

  /** Ids never repeat within the list. */
  predicate UniqueHabitIds(hs: seq<Habit>) {
    forall j, k :: 0 <= j < k < |hs| ==> hs[j].id != hs[k].id
  }

  /** Flips today's mark on every habit carrying `id`; the list keeps its length and
      order, and every other field of every habit stays. */
  function ToggleHabit(hs: seq<Habit>, id: int): (r: seq<Habit>)
    ensures |r| == |hs|
    ensures forall k :: 0 <= k < |hs| ==> r[k].(completed := hs[k].completed) == hs[k]
    ensures forall k :: 0 <= k < |hs| ==> (r[k].completed != hs[k].completed <==> hs[k].id == id)
  {
    seq(|hs|, k requires 0 <= k < |hs| =>
      if hs[k].id == id then hs[k].(completed := !hs[k].completed) else hs[k])
  }

  /** Every habit carries today's mark. */
  predicate AllMarked(hs: seq<Habit>) {
    forall k :: 0 <= k < |hs| ==> hs[k].completed
  }

  /** No habit carries today's mark. */
  predicate NoneMarked(hs: seq<Habit>) {
    forall k :: 0 <= k < |hs| ==> !hs[k].completed
  }

  /** How many habits carry today's mark. */
  function TotalCompleted(hs: seq<Habit>): (n: nat)
    ensures n <= |hs|
    ensures n == |hs| <==> AllMarked(hs)
    ensures n == 0 <==> NoneMarked(hs)
  {
    if |hs| == 0 then 0
    else
      var front := hs[..|hs| - 1];
      assert forall k :: 0 <= k < |front| ==> front[k] == hs[k];
      TotalCompleted(front) + (if hs[|hs| - 1].completed then 1 else 0)
  }

  /** The positions of the marked habits. */
  function MarkedPositions(hs: seq<Habit>): set<int> {
    set k | 0 <= k < |hs| && hs[k].completed
  }

  /** The count is exactly the number of marked habits. */
  lemma {:induction false} TotalCompletedCountsMarks(hs: seq<Habit>)
    ensures TotalCompleted(hs) == |MarkedPositions(hs)|
    decreases |hs|
  {
    if |hs| > 0 {
      var last := |hs| - 1;
      var front := hs[..last];
      TotalCompletedCountsMarks(front);
      var tail := if hs[last].completed then {last} else {};
      assert MarkedPositions(hs) == MarkedPositions(front) + tail;
      assert last !in MarkedPositions(front);
    }
  }

  /** Toggling the same id twice gives the list back. */
  lemma ToggleHabitTwice(hs: seq<Habit>, id: int)
    ensures ToggleHabit(ToggleHabit(hs, id), id) == hs
  {
    var r2 := ToggleHabit(ToggleHabit(hs, id), id);
    assert forall k :: 0 <= k < |hs| ==> r2[k] == hs[k];
  }

  /** Toggling an id no habit carries changes nothing. */
  lemma ToggleAbsentHabit(hs: seq<Habit>, id: int)
    requires forall k :: 0 <= k < |hs| ==> hs[k].id != id
    ensures ToggleHabit(hs, id) == hs
  {
    var r := ToggleHabit(hs, id);
    assert forall k :: 0 <= k < |hs| ==> r[k] == hs[k];
  }

  /** Replacing one habit moves the count by the difference of the two marks. */
  lemma {:induction false} CountAfterReplace(hs: seq<Habit>, j: nat, h: Habit)
    requires j < |hs|
    ensures TotalCompleted(hs[j := h])
         == TotalCompleted(hs) - Mark(hs[j]) + Mark(h)
    decreases |hs|
  {
    var last := |hs| - 1;
    var r := hs[j := h];
    CountLast(hs);
    CountLast(r);
    if j < last {
      assert r[..last] == hs[..last][j := h];
      CountAfterReplace(hs[..last], j, h);
    } else {
      assert r[..last] == hs[..last];
    }
  }

  /** 1 for a marked habit, 0 otherwise. */
  function Mark(h: Habit): nat {
    if h.completed then 1 else 0
  }

  /** The count splits off the last habit. */
  lemma CountLast(hs: seq<Habit>)
    requires |hs| > 0
    ensures TotalCompleted(hs) == TotalCompleted(hs[..|hs| - 1]) + Mark(hs[|hs| - 1])
  {
  }

  /** With unique ids, toggling a present habit moves the completed count by exactly one,
      in the direction of its new mark. */
  lemma ToggleMovesTotalByOne(hs: seq<Habit>, id: int, j: nat)
    requires UniqueHabitIds(hs) && j < |hs| && hs[j].id == id
    ensures TotalCompleted(ToggleHabit(hs, id))
         == TotalCompleted(hs) + (if hs[j].completed then -1 else 1)
  {
    var h := hs[j].(completed := !hs[j].completed);
    var r := ToggleHabit(hs, id);
    assert r == hs[j := h] by {
      assert forall k :: 0 <= k < |hs| ==> r[k] == hs[j := h][k];
    }
    CountAfterReplace(hs, j, h);
  }
}
