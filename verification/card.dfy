/** One project card's interaction logic: the long-press gesture that completes a
    started project, the start button, and the subtask clicks it forwards to the store.
    Real time is abstracted: a scheduled timer may fire at any later step, and it fires
    at most once. */
module ProjectCardGesture {
  import opened Types

  /** The card's timer ref: empty, or holding the handle of a timer it scheduled. */
  datatype TimerRef = NoTimer | Holds(timer: nat)

  /** What one card keeps between renders (the pressing flag and the timer ref), together
      with the timers still scheduled, that is, neither cleared nor fired. Timers are
      numbered in the order they are armed; `nextTimer` is the number the next one gets. */
  datatype Card = Card(pressing: bool, ref: TimerRef, scheduled: set<nat>, nextTimer: nat)

  /** A freshly mounted card. */
  const Idle: Card := Card(false, NoTimer, {}, 0)

  /** The callbacks a card can invoke, named after its props. */
  datatype Call =
    | OnCompleteProject(projectId: int)
    | OnStartWork(projectId: int)
    | OnToggleSubtask(projectId: int, index: int)

  /** What reaches the card: pointer down on the action button (mouse or touch), pointer
      up or leaving it, a timer expiring, a click on the button, a click on subtask `index`. */
  datatype Event = Press | Release | TimerFires(timer: nat) | ButtonClick | SubtaskClick(index: int)

  /** The card as the source writes it, or with the re-arming fix described in README. */
  datatype Variant = AsWritten | Fixed

  /** The card's state after an event and the callbacks the event invoked, in order. */
  datatype Outcome = Outcome(card: Card, calls: seq<Call>)

  /** The long press may only be armed on a started project that is not completed yet. */
  predicate CanArm(p: Project) {
    p.isStarted && !p.isCompleted
  }

  /** The timer the ref holds, as a set of at most one. */
  function HeldTimer(c: Card): (s: set<nat>)
    ensures c.ref.Holds? ==> s == {c.ref.timer}
    ensures c.ref == NoTimer ==> s == {}
  {
    if c.ref.Holds? then {c.ref.timer} else {}
  }

  /** Releasing: clears the held timer if there is one, empties the ref, stops pressing. */
  function CancelPress(c: Card): (r: Card)
    ensures !r.pressing && r.ref == NoTimer && r.nextTimer == c.nextTimer
    ensures r.scheduled <= c.scheduled
    ensures c.ref.Holds? ==> c.ref.timer !in r.scheduled
    ensures forall t :: t in c.scheduled && t !in HeldTimer(c) ==> t in r.scheduled
  {
    Card(false, NoTimer, c.scheduled - HeldTimer(c), c.nextTimer)
  }

  /** Pressing as the source does it: ignored unless the project can be armed; otherwise a
      new timer is scheduled and its handle overwrites the ref, whatever the ref held. */
  function StartPressAsWritten(p: Project, c: Card): (r: Card)
    ensures !CanArm(p) ==> r == c
    ensures CanArm(p) ==>
      && r.pressing && r.ref == Holds(c.nextTimer) && r.nextTimer == c.nextTimer + 1
      && r.scheduled == c.scheduled + {c.nextTimer}
  {
    if !CanArm(p) then c
    else Card(true, Holds(c.nextTimer), c.scheduled + {c.nextTimer}, c.nextTimer + 1)
  }

  /** Pressing with the fix: a timer the ref already holds is cleared before the new one
      is armed, so no handle is ever lost. */
  function StartPress(p: Project, c: Card): (r: Card)
    ensures !CanArm(p) ==> r == c
    ensures CanArm(p) ==>
      && r.pressing && r.ref == Holds(c.nextTimer) && r.nextTimer == c.nextTimer + 1
      && r.scheduled == (c.scheduled - HeldTimer(c)) + {c.nextTimer}
  {
    if !CanArm(p) then c else StartPressAsWritten(p, CancelPress(c))
  }

  /** Timer `t` expiring. A scheduled timer runs its callback: the completion call for this
      card's project, then pressing stops; the ref is left holding the spent handle. A timer
      that is not scheduled has been cleared or has already run, and nothing happens. */
  function Fire(p: Project, c: Card, t: nat): (o: Outcome)
    ensures t !in c.scheduled ==> o == Outcome(c, [])
    ensures t in c.scheduled ==>
      && o.calls == [OnCompleteProject(p.id)]
      && !o.card.pressing && o.card.ref == c.ref
      && t !in o.card.scheduled && o.card.scheduled == c.scheduled - {t}
      && o.card.nextTimer == c.nextTimer
  {
    if t !in c.scheduled then Outcome(c, [])
    else Outcome(c.(pressing := false, scheduled := c.scheduled - {t}), [OnCompleteProject(p.id)])
  }

  /** Only an expiring timer can complete a project. */
  predicate NoCompletion(calls: seq<Call>) {
    forall k :: 0 <= k < |calls| ==> !calls[k].OnCompleteProject?
  }

  /** The action button's click: it asks to start work only while the project is not
      started; once started the click does nothing. */
  function ButtonClickCalls(p: Project): (calls: seq<Call>)
    ensures calls == [OnStartWork(p.id)] <==> !p.isStarted
    ensures p.isStarted ==> calls == []
  {
    if !p.isStarted then [OnStartWork(p.id)] else []
  }

  /** A click on subtask `index`: forwarded to the store as a toggle of this project's
      subtask while the project is not completed, ignored afterwards. */
  function SubtaskClickCalls(p: Project, index: int): (calls: seq<Call>)
    ensures calls == [OnToggleSubtask(p.id, index)] <==> !p.isCompleted
    ensures p.isCompleted ==> calls == []
  {
    if !p.isCompleted then [OnToggleSubtask(p.id, index)] else []
  }

  /** One event on a card showing project `p`. The press and release handlers are
      attached only once the project is started, and pressing arms only while it is
      also not completed; only an expiring timer can invoke the completion callback. */
  function Step(v: Variant, p: Project, c: Card, e: Event): (o: Outcome)
    ensures |o.calls| <= 1
    ensures !e.TimerFires? ==> NoCompletion(o.calls)
    ensures e.Press? && !CanArm(p) ==> o == Outcome(c, [])
    ensures e.Press? && CanArm(p) ==> o.calls == [] && o.card.pressing && o.card.ref == Holds(c.nextTimer)
    ensures e.Release? && !p.isStarted ==> o == Outcome(c, [])
    ensures e.Release? && p.isStarted ==> o.calls == [] && !o.card.pressing && o.card.ref == NoTimer
    ensures e.ButtonClick? || e.SubtaskClick? ==> o.card == c
  {
    match e
    case Press =>
      var armed := if v == Fixed then StartPress(p, c) else StartPressAsWritten(p, c);
      Outcome(if p.isStarted then armed else c, [])
    case Release => Outcome(if p.isStarted then CancelPress(c) else c, [])
    case TimerFires(t) => Fire(p, c, t)
    case ButtonClick => Outcome(c, ButtonClickCalls(p))
    case SubtaskClick(i) => Outcome(c, SubtaskClickCalls(p, i))
  }

  /** A sequence of events, in order, with every call they invoke. The bound on the calls
      is bookkeeping only (each event invokes at most one callback); what a run does is
      stated by the lemmas about it. */
  function Run(v: Variant, p: Project, c: Card, es: seq<Event>): (o: Outcome)
    ensures |o.calls| <= |es|
    decreases |es|
  {
    if |es| == 0 then Outcome(c, [])
    else
      var first := Step(v, p, c, es[0]);
      var rest := Run(v, p, first.card, es[1..]);
      Outcome(rest.card, first.calls + rest.calls)
  }

  /** No timer is orphaned: whatever is still scheduled is the timer the ref holds, and a
      pressing card's held timer is still pending. */
  predicate Tidy(c: Card) {
    && c.scheduled <= HeldTimer(c)
    && (c.pressing ==> c.ref.Holds? && c.ref.timer in c.scheduled)
  }

  /** Timers are numbered in arming order: every scheduled timer's number is below
      the number the next one will get. */
  predicate WellNumbered(c: Card) {
    forall t :: t in c.scheduled ==> t < c.nextTimer
  }

  /** The event sequence has no press in it. */
  predicate NoPress(es: seq<Event>) {
    forall k :: 0 <= k < |es| ==> !es[k].Press?
  }
}
