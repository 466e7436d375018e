/** The derived completion percentage of a subtask list. */
module Progress {
  import opened Types

  /** How many subtasks are checked off. */
  function CompletedCount(s: seq<Subtask>): (c: nat)
    ensures c <= |s|
    ensures c == |s| <==> (forall k :: 0 <= k < |s| ==> s[k].completed)
    ensures c == 0 <==> (forall k :: 0 <= k < |s| ==> !s[k].completed)
  {
    if |s| == 0 then 0
    else
      var front := s[..|s| - 1];
      assert forall k :: 0 <= k < |front| ==> front[k] == s[k];
      CompletedCount(front) + (if s[|s| - 1].completed then 1 else 0)
  }

  /** The percentage 100 * c / n rounded to the nearest whole number, halves upwards. */
  function RoundPercent(c: nat, n: nat): (r: nat)
    requires c <= n && 0 < n
    ensures r <= 100
    ensures 2 * n * r <= 200 * c + n < 2 * n * (r + 1)
  {
    var r := (200 * c + n) / (2 * n);
    assert 2 * n * r <= 200 * c + n < 2 * n * (r + 1);
    assert 2 * n * r <= 2 * n * 101 by {
      assert 200 * c + n <= 201 * n;
    }
    MulLeftCancel(2 * n, r, 101);
    r
  }

  /** The progress of a subtask list: 0 when the list is empty, else the rounded percentage done. */
  function CalculateProgress(s: seq<Subtask>): (r: nat)
    ensures r <= 100
    ensures |s| == 0 ==> r == 0
    ensures |s| > 0 ==> 2 * |s| * r <= 200 * CompletedCount(s) + |s| < 2 * |s| * (r + 1)
    ensures CompletedCount(s) == 0 ==> r == 0
    ensures 0 < |s| && CompletedCount(s) == |s| ==> r == 100
  {
    if |s| == 0 then 0
    else
      var r := RoundPercent(CompletedCount(s), |s|);
      if CompletedCount(s) == 0 then
        RoundingIsUnique(0, |s|, 0);
        r
      else if CompletedCount(s) == |s| then
        RoundingIsUnique(|s|, |s|, 100);
        r
      else r
  }

  /** Multiplying by a non-negative factor keeps the order. */
  lemma MulMono(a: int, x: int, y: int)
    requires 0 <= a && x <= y
    ensures a * x <= a * y
  {
    assert a * y - a * x == a * (y - x);
  }

  /** For a positive factor, a * x <= a * y only when x <= y. */
  lemma MulLeftCancel(a: int, x: int, y: int)
    requires 0 < a && a * x <= a * y
    ensures x <= y
  {
    if x > y {
      MulMono(a, y + 1, x);
    }
  }

  /** Two whole numbers in the same window [w*a, w*a + a) are equal. */
  lemma WindowUnique(a: int, b: int, r: int, q: int)
    requires 0 < a
    requires a * r <= b < a * (r + 1)
    requires a * q <= b < a * (q + 1)
    ensures r == q
  {
    if r < q {
      MulMono(a, r + 1, q);
    } else if q < r {
      MulMono(a, q + 1, r);
    }
  }

  /** The half-up rounding window determines its whole number: RoundPercent is the only
      value in it. */
  lemma RoundingIsUnique(c: nat, n: nat, r: int)
    requires c <= n && 0 < n
    requires 2 * n * r <= 200 * c + n < 2 * n * (r + 1)
    ensures r == RoundPercent(c, n)
  {
    WindowUnique(2 * n, 200 * c + n, r, RoundPercent(c, n));
  }

  /** Counting distributes over concatenation. */
  lemma {:induction false} CountConcat(a: seq<Subtask>, b: seq<Subtask>)
    ensures CompletedCount(a + b) == CompletedCount(a) + CompletedCount(b)
    decreases |b|
  {
    if |b| == 0 {
      assert a + b == a;
    } else {
      var front := b[..|b| - 1];
      assert (a + b)[..|a + b| - 1] == a + front;
      CountConcat(a, front);
    }
  }

  /** Two lists with the same completed flags position by position have the same count. */
  lemma {:induction false} SameFlagsSameCount(a: seq<Subtask>, b: seq<Subtask>)
    requires |a| == |b|
    requires forall k :: 0 <= k < |a| ==> a[k].completed == b[k].completed
    ensures CompletedCount(a) == CompletedCount(b)
    ensures CalculateProgress(a) == CalculateProgress(b)
    decreases |a|
  {
    if |a| > 0 {
      SameFlagsSameCount(a[..|a| - 1], b[..|b| - 1]);
    }
  }

  /** Appending one unchecked subtask can only lower or hold the progress. */
  lemma AppendUncheckedNeverRaises(s: seq<Subtask>, t: Subtask)
    requires !t.completed
    ensures CompletedCount(s + [t]) == CompletedCount(s)
    ensures CalculateProgress(s + [t]) <= CalculateProgress(s)
  {
    CountConcat(s, [t]);
    assert CompletedCount([t]) == 0;
    var n := |s|;
    if n > 0 {
      var a := 2 * n;
      var b := 200 * CompletedCount(s) + n;
      var q := CalculateProgress(s + [t]);
      var r := CalculateProgress(s);
      assert (a + 2) * q <= b + 1 by {
        assert 2 * |s + [t]| * q == (a + 2) * q;
      }
      SmallerWindow(a, b, q, r);
    }
  }

  /** Lowering the window's lower bound by one step of a + 2 never moves above the
      window of a. */
  lemma SmallerWindow(a: int, b: int, q: nat, r: int)
    requires 0 < a && 0 <= b
    requires (a + 2) * q <= b + 1
    requires a * r <= b < a * (r + 1)
    ensures q <= r
  {
    assert (a + 2) * q == a * q + 2 * q;
    MulLeftCancel(a, q, r + 1);
  }
}
