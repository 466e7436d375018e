/** The list edits the store applies to one project's subtasks. */
module SubtaskLists {
  import opened Types
  import opened Progress

  /** Flips the check mark of the subtask at `i`, keeping its title. */
  function FlipAt(s: seq<Subtask>, i: nat): (r: seq<Subtask>)
    requires i < |s|
    ensures |r| == |s|
    ensures r[i].title == s[i].title && r[i].completed == !s[i].completed
    ensures forall k :: 0 <= k < |s| && k != i ==> r[k] == s[k]
  {
    s[i := s[i].(completed := !s[i].completed)]
  }

  /** Replaces the title of the subtask at `i`, keeping its check mark. */
  function RetitleAt(s: seq<Subtask>, i: nat, title: string): (r: seq<Subtask>)
    requires i < |s|
    ensures |r| == |s|
    ensures r[i].title == title && r[i].completed == s[i].completed
    ensures forall k :: 0 <= k < |s| && k != i ==> r[k] == s[k]
  {
    s[i := s[i].(title := title)]
  }

  /** Keeps every element whose position differs from `i`, in order: the
      index-filter of the source, written element by element. */
  function DropIndex<T>(s: seq<T>, i: int): (r: seq<T>)
    ensures 0 <= i < |s| ==> r == s[..i] + s[i + 1..]
    ensures !(0 <= i < |s|) ==> r == s
  {
    if |s| == 0 then []
    else
      var rest := DropIndex(s[1..], i - 1);
      if i == 0 then rest
      else
        assert 0 < i < |s| ==> [s[0]] + (s[1..][..i - 1] + s[1..][i..]) == s[..i] + s[i + 1..];
        [s[0]] + rest
  }

  /** Checks off every subtask, keeping count, order and titles. */
  function CompleteAll(s: seq<Subtask>): (r: seq<Subtask>)
    ensures |r| == |s|
    ensures forall k :: 0 <= k < |s| ==> r[k].title == s[k].title && r[k].completed
    ensures CompletedCount(r) == |r|
  {
    seq(|s|, k requires 0 <= k < |s| => s[k].(completed := true))
  }

  /** Flipping the same position twice gives the list back. */
  lemma FlipTwice(s: seq<Subtask>, i: nat)
    requires i < |s|
    ensures FlipAt(FlipAt(s, i), i) == s
  {
  }

  /** A flip moves the completed count by exactly one, in the direction of the new mark. */
  lemma FlipShiftsCount(s: seq<Subtask>, i: nat)
    requires i < |s|
    ensures CompletedCount(FlipAt(s, i)) == CompletedCount(s) + (if s[i].completed then -1 else 1)
  {
    var r := FlipAt(s, i);
    var front, back := s[..i], s[i + 1..];
    SpliceAt(s, i);
    SpliceAt(r, i);
    assert r[..i] == front && r[i + 1..] == back;
    CountAroundOne(front, s[i], back);
    CountAroundOne(front, r[i], back);
  }

  /** A list is its prefix, the element at `i` and its suffix. */
  lemma SpliceAt(s: seq<Subtask>, i: nat)
    requires i < |s|
    ensures s == (s[..i] + [s[i]]) + s[i + 1..]
  {
  }

  /** The count of a list split around one element. */
  lemma CountAroundOne(front: seq<Subtask>, x: Subtask, back: seq<Subtask>)
    ensures CompletedCount((front + [x]) + back)
         == CompletedCount(front) + (if x.completed then 1 else 0) + CompletedCount(back)
  {
    CountConcat(front + [x], back);
    CountConcat(front, [x]);
    assert [x][..0] == [];
  }

  /** Retitling leaves the count and hence the progress alone. */
  lemma RetitleKeepsProgress(s: seq<Subtask>, i: nat, title: string)
    requires i < |s|
    ensures CompletedCount(RetitleAt(s, i, title)) == CompletedCount(s)
    ensures CalculateProgress(RetitleAt(s, i, title)) == CalculateProgress(s)
  {
    SameFlagsSameCount(RetitleAt(s, i, title), s);
  }

  /** Dropping an in-range subtask removes its mark from the count. */
  lemma DropShiftsCount(s: seq<Subtask>, i: int)
    requires 0 <= i < |s|
    ensures CompletedCount(DropIndex(s, i)) == CompletedCount(s) - (if s[i].completed then 1 else 0)
  {
    var front, back := s[..i], s[i + 1..];
    assert s == (front + [s[i]]) + back;
    CountAroundOne(front, s[i], back);
    CountConcat(front, back);
  }

  /** Checking everything off twice is the same as once. */
  lemma CompleteAllIdempotent(s: seq<Subtask>)
    ensures CompleteAll(CompleteAll(s)) == CompleteAll(s)
  {
  }
}
