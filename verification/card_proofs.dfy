/** What the card's gesture guarantees over whole event sequences, and where the
    as-written press handler loses a timer. */
module ProjectCardProofs {
  import opened Types
  import opened ProjectCardGesture

  /** A fresh card is tidy. */
  lemma IdleIsTidy()
    ensures Tidy(Idle)
  {
  }

  /** Every event keeps the fixed card tidy. */
  lemma FixedStepKeepsTidy(p: Project, c: Card, e: Event)
    requires Tidy(c)
    ensures Tidy(Step(Fixed, p, c, e).card)
  {
  }

  /** The as-written card stays tidy under every event except a press that arms a new
      timer while one is still pending; that press always orphans the pending timer. */
  lemma AsWrittenStepKeepsTidyUnlessRepressed(p: Project, c: Card, e: Event)
    requires Tidy(c) && c.nextTimer !in c.scheduled
    ensures Tidy(Step(AsWritten, p, c, e).card) <==> !(e.Press? && CanArm(p) && c.scheduled != {})
  {
    if e.Press? && CanArm(p) && c.scheduled != {} {
      var t :| t in c.scheduled;
      var r := Step(AsWritten, p, c, e).card;
      assert t in r.scheduled && t !in HeldTimer(r);
    }
  }

  /** Every event, in either variant, keeps the timers numbered in arming order, so the
      next timer armed is never one already scheduled. */
  lemma StepKeepsWellNumbered(v: Variant, p: Project, c: Card, e: Event)
    requires WellNumbered(c)
    ensures WellNumbered(Step(v, p, c, e).card)
    ensures c.nextTimer !in c.scheduled
  {
  }

  /** Over any run, in either variant, the timers stay numbered in arming order. */
  lemma {:induction false} RunKeepsWellNumbered(v: Variant, p: Project, c: Card, es: seq<Event>)
    requires WellNumbered(c)
    ensures WellNumbered(Run(v, p, c, es).card)
    decreases |es|
  {
    if |es| > 0 {
      StepKeepsWellNumbered(v, p, c, es[0]);
      RunKeepsWellNumbered(v, p, Step(v, p, c, es[0]).card, es[1..]);
    }
  }

  /** Over any run, the fixed card stays tidy. */
  lemma {:induction false} FixedRunKeepsTidy(p: Project, c: Card, es: seq<Event>)
    requires Tidy(c)
    ensures Tidy(Run(Fixed, p, c, es).card)
    decreases |es|
  {
    if |es| > 0 {
      FixedStepKeepsTidy(p, c, es[0]);
      FixedRunKeepsTidy(p, Step(Fixed, p, c, es[0]).card, es[1..]);
    }
  }

  /** With nothing scheduled and no press to schedule anything, no completion can happen. */
  lemma {:induction false} QuietWithoutPress(v: Variant, p: Project, c: Card, es: seq<Event>)
    requires c.scheduled == {} && NoPress(es)
    ensures NoCompletion(Run(v, p, c, es).calls)
    ensures Run(v, p, c, es).card.scheduled == {}
    decreases |es|
  {
    if |es| > 0 {
      var first := Step(v, p, c, es[0]);
      assert NoCompletion(first.calls) && first.card.scheduled == {} by {
        if es[0].TimerFires? {
          assert es[0].timer !in c.scheduled;
        }
      }
      QuietWithoutPress(v, p, first.card, es[1..]);
      var rest := Run(v, p, first.card, es[1..]);
      assert Run(v, p, c, es).calls == first.calls + rest.calls;
    }
  }

  /** Releasing a started project's fixed card leaves nothing scheduled, so until the
      next press no completion call can follow, however the timers behave. */
  lemma ReleaseSilencesTimer(p: Project, c: Card, es: seq<Event>)
    requires Tidy(c) && p.isStarted && NoPress(es)
    ensures NoCompletion(Run(Fixed, p, c, [Release] + es).calls)
  {
    var after := Step(Fixed, p, c, Release).card;
    assert after.scheduled == {};
    assert ([Release] + es)[1..] == es;
    QuietWithoutPress(Fixed, p, after, es);
  }

  /** Holding until the timer expires completes this card's project: pressing arms a timer
      the ref holds, and its expiry invokes the completion callback with the project's id
      and ends the press. */
  lemma HeldPressCompletes(v: Variant, p: Project, c: Card)
    requires CanArm(p) && Tidy(c) && c.nextTimer !in c.scheduled
    ensures
      var pressed := Step(v, p, c, Press).card;
      var fired := Step(v, p, pressed, TimerFires(c.nextTimer));
      && pressed.pressing && pressed.ref == Holds(c.nextTimer)
      && fired.calls == [OnCompleteProject(p.id)]
      && !fired.card.pressing
  {
  }

  /** Releasing twice is releasing once. */
  lemma CancelPressIdempotent(c: Card)
    ensures CancelPress(CancelPress(c)) == CancelPress(c)
  {
  }

  /** The as-written card completes a project after the user has let go: two presses
      without a release in between (a second mouse button going down while the first is
      held) leave the first timer orphaned; the release clears only the second, and the
      first still fires. The fixed card makes no call on the same events. */
  lemma OrphanTimerFiresAfterRelease(p: Project)
    requires CanArm(p)
    ensures Run(AsWritten, p, Idle, [Press, Press, Release, TimerFires(0)]).calls == [OnCompleteProject(p.id)]
    ensures Run(Fixed, p, Idle, [Press, Press, Release, TimerFires(0)]).calls == []
  {
    var es := [Press, Press, Release, TimerFires(0)];
    assert es[1..] == [Press, Release, TimerFires(0)];
    assert es[1..][1..] == [Release, TimerFires(0)];
    assert es[1..][1..][1..] == [TimerFires(0)];
  }
}
