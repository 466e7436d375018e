/** The card and the store together: what the card forwards meets the store's premises,
    and the store's answer to a callback, fed back to the card as its new project prop,
    makes later gestures inert. */
module CardWithStore {
  import opened Types
  import opened ProjectStore
  import opened ProjectCardGesture
  import opened ProjectCardProofs

  /** A subtask click the card forwards, on a rendered subtask, is a toggle the store
      accepts and that keeps its invariant: the index exists and the project is open. */
  lemma ForwardedToggleGuarded(ps: seq<Project>, j: nat, idx: nat)
    requires UniqueIds(ps) && j < |ps| && idx < |ps[j].subtasks|
    requires SubtaskClickCalls(ps[j], idx) != []
    ensures Allowed(ps, ToggleSubtaskCall(ps[j].id, idx))
    ensures Guarded(ps, ToggleSubtaskCall(ps[j].id, idx))
  {
  }

  /** Once the store has started a project, its card's button no longer asks to start it. */
  lemma StartedButtonInert(ps: seq<Project>, j: nat)
    requires j < |ps|
    ensures ButtonClickCalls(StartWork(ps, ps[j].id)[j]) == []
  {
  }

  /** The card's project prop after the store has run one callback on it. A toggle is
      applied only at a subtask the card rendered. */
  function AfterCall(p: Project, call: Call): (q: Project)
    ensures q.id == p.id
    ensures p.isStarted ==> q.isStarted
    ensures p.isCompleted ==> q.isCompleted
    ensures call == OnCompleteProject(p.id) ==> q.isCompleted && q.progress == 100
    ensures call == OnStartWork(p.id) ==> q.isStarted
  {
    match call
    case OnCompleteProject(id) => CompleteProject([p], id)[0]
    case OnStartWork(id) => StartWork([p], id)[0]
    case OnToggleSubtask(id, i) =>
      if 0 <= i < |p.subtasks| then ToggleSubtask([p], id, i)[0] else p
  }

  /** The prop after a whole list of callbacks, in order. */
  function AfterCalls(p: Project, calls: seq<Call>): (q: Project)
    ensures q.id == p.id
    ensures p.isStarted ==> q.isStarted
    ensures p.isCompleted ==> q.isCompleted
    ensures calls == [OnCompleteProject(p.id)] ==> q.isCompleted
    decreases |calls|
  {
    if |calls| == 0 then p else AfterCalls(AfterCall(p, calls[0]), calls[1..])
  }

  /** How many completion calls a list holds. */
  function CompletionCount(calls: seq<Call>): (n: nat)
    ensures n <= |calls|
    ensures n == 0 <==> NoCompletion(calls)
    decreases |calls|
  {
    if |calls| == 0 then 0
    else (if calls[0].OnCompleteProject? then 1 else 0) + CompletionCount(calls[1..])
  }

  /** Counting completions distributes over concatenation. */
  lemma {:induction false} CompletionCountConcat(a: seq<Call>, b: seq<Call>)
    ensures CompletionCount(a + b) == CompletionCount(a) + CompletionCount(b)
    decreases |a|
  {
    if |a| == 0 {
      assert a + b == b;
    } else {
      assert (a + b)[1..] == a[1..] + b;
      CompletionCountConcat(a[1..], b);
    }
  }

  /** A sequence of events on a card whose prop is re-rendered after every event from
      the store's answer to the callbacks that event invoked. The bound on the calls is
      bookkeeping only; what a run does is stated by the lemmas about it. */
  function LiveRun(v: Variant, p: Project, c: Card, es: seq<Event>): (o: Outcome)
    ensures |o.calls| <= |es|
    decreases |es|
  {
    if |es| == 0 then Outcome(c, [])
    else
      var first := Step(v, p, c, es[0]);
      var rest := LiveRun(v, AfterCalls(p, first.calls), first.card, es[1..]);
      Outcome(rest.card, first.calls + rest.calls)
  }

  /** A card showing a completed project with no timer scheduled never completes it
      again: presses are inert and nothing can fire. */
  lemma {:induction false} CompletedCardStaysQuiet(v: Variant, p: Project, c: Card, es: seq<Event>)
    requires p.isCompleted && c.scheduled == {}
    ensures CompletionCount(LiveRun(v, p, c, es).calls) == 0
    decreases |es|
  {
    if |es| > 0 {
      var first := Step(v, p, c, es[0]);
      assert NoCompletion(first.calls) && first.card.scheduled == {} by {
        if es[0].TimerFires? {
          assert es[0].timer !in c.scheduled;
        }
      }
      CompletedCardStaysQuiet(v, AfterCalls(p, first.calls), first.card, es[1..]);
      CompletionCountConcat(first.calls, LiveRun(v, AfterCalls(p, first.calls), first.card, es[1..]).calls);
    }
  }

  /** With the fix, a card invokes the completion callback at most once over any run in
      which it is re-rendered with the store's answers: the completion empties the
      schedule and the completed prop makes every later press inert. */
  lemma {:induction false} LiveRunCompletesAtMostOnce(p: Project, c: Card, es: seq<Event>)
    requires Tidy(c)
    ensures CompletionCount(LiveRun(Fixed, p, c, es).calls) <= 1
    decreases |es|
  {
    if |es| > 0 {
      var first := Step(Fixed, p, c, es[0]);
      var p' := AfterCalls(p, first.calls);
      var rest := LiveRun(Fixed, p', first.card, es[1..]);
      CompletionCountConcat(first.calls, rest.calls);
      if es[0].TimerFires? && es[0].timer in c.scheduled {
        assert c.scheduled == {es[0].timer};
        assert first.card.scheduled == {};
        assert first.calls == [OnCompleteProject(p.id)];
        CompletedCardStaysQuiet(Fixed, p', first.card, es[1..]);
      } else {
        assert NoCompletion(first.calls);
        FixedStepKeepsTidy(p, c, es[0]);
        LiveRunCompletesAtMostOnce(p', first.card, es[1..]);
      }
    }
  }

  /** Press and hold to completion, then press and wait again: the second press finds the
      project completed and arms nothing, so only one completion call is made. */
  lemma SecondPressAfterCompletionInert(p: Project)
    requires CanArm(p)
    ensures LiveRun(Fixed, p, Idle, [Press, TimerFires(0), Press, TimerFires(1)]).calls
         == [OnCompleteProject(p.id)]
  {
    var es := [Press, TimerFires(0), Press, TimerFires(1)];
    assert es[1..] == [TimerFires(0), Press, TimerFires(1)];
    assert es[1..][1..] == [Press, TimerFires(1)];
    assert es[1..][1..][1..] == [TimerFires(1)];
    assert AfterCalls(p, [OnCompleteProject(p.id)]).isCompleted;
  }
}
