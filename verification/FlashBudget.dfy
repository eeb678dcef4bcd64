/** The abandon budget of a failure episode, and exactly when it holds. */
module FlashBudget {
  import opened Options
  import opened FlashLog
  import opened FlashAppend
  import opened FlashRuns

  /** Every event of the run is an attempt that was refused: one failure episode. */
  ghost predicate Episode(sys: Sys, events: seq<Event>)
    requires WellSized(sys)
    decreases |events|
  {
    events == [] ||
    (StepWellSized(sys, events[0]);
     && events[0].Write? && sys.live.Some? && sys.live.value.ram.next != 0
     && Attempt(sys, events[0]).outcome.Refused?
     && Episode(Step(sys, events[0]), events[1..]))
  }

  /** No failure since the last success or boot. */
  predicate EpisodeStart(sys: Sys) {
    sys.live.Some? && sys.live.value.fail == NO_FAILURE && sys.live.value.jumps == 0 &&
    sys.live.value.abandoned == 0 && !sys.live.value.uncounted
  }

  /** The slot the episode starts at can be used where it is. */
  predicate Usable(sys: Sys)
    requires WellSized(sys) && sys.live.Some?
  {
    sys.live.value.ram.cursor % PER_SECTOR == 0 || sys.img[sys.live.value.ram.cursor] == Erased
  }

  /** Every sector left so far was counted, and the next one will be. */
  predicate Counted(sys: Sys)
    requires WellSized(sys) && sys.live.Some?
  {
    !sys.live.value.uncounted && (sys.live.value.fail.slot.NoSlot? ==> Usable(sys))
  }

  lemma RefusedStep(sys: Sys, e: Event)
    requires Safe(sys) && e.Write? && sys.live.Some? && sys.live.value.ram.next != 0
    requires Attempt(sys, e).outcome.Refused?
    ensures var sys' := Step(sys, e);
      && Safe(sys') && sys'.live.Some?
      && sys'.live.value.ram.next == Reserve(sys.live.value.ram.next)
      && (Counted(sys) ==> Counted(sys'))
      && sys'.live.value.abandoned >= sys.live.value.abandoned
      && Leashed(|sys.img|, sys'.live.value, sys.last)
  {
    StepSafe(sys, e);
    RefusalLeashed(sys, e);
    AppendEffect(sys.img, sys.live.value.ram, RecordOf(e, sys.live.value.ram.next), e.env, 0);
  }

  /** An episode jumps off a torn slot at most once and leaves at most one sector more than the budget; with
      every one counted, no more than the budget. */
  lemma {:induction false} EpisodeBounds(sys: Sys, events: seq<Event>)
    requires Safe(sys) && sys.live.Some? && Episode(sys, events)
    requires sys.live.value.ram.next != 0 ==> Leashed(|sys.img|, sys.live.value, sys.last)
    requires events == [] ==> sys.live.value.ram.next != 0
    ensures var live := Run(sys, events).live;
      && live.Some? && live.value.jumps <= 1 && live.value.abandoned <= BUDGET + 1
      && (Counted(sys) ==> live.value.abandoned <= BUDGET)
    decreases |events|
  {
    if events != [] {
      RefusedStep(sys, events[0]);
      var sys' := Step(sys, events[0]);
      if events[1..] == [] {
        assert Run(sys, events) == Run(sys', events[1..]) == sys';
      } else {
        EpisodeBounds(sys', events[1..]);
      }
    }
  }

  /** After the budget is spent the cursor stays where it is until an append succeeds. */
  lemma PausedStays(sys: Sys, e: Event)
    requires Safe(sys) && e.Write? && sys.live.Some? && sys.live.value.ram.next != 0 && sys.live.value.fail.paused
    requires Attempt(sys, e).outcome.Refused?
    ensures var live := Step(sys, e).live;
      live.Some? && live.value.fail.paused && live.value.ram.cursor == sys.live.value.ram.cursor
  {
    AppendEffect(sys.img, sys.live.value.ram, RecordOf(e, sys.live.value.ram.next), e.env, 0);
  }

  /** An attempt whose program operation fails without touching the slot. */
  function FailingEvent(): (e: Event)
    ensures e.Write?
  {
    Write(0, 0, 0, false, map[],
          AppendEnv(Ok, Ok, EraseEnv(Ok, []), BodyEnv(Failed, false, false), CommitEnv(Failed, false), Ok))
  }

  /** Programming fails at a sector's first slot: first refusal stays, second one abandons the sector. */
  lemma FailsInPlace(sys: Sys)
    requires Safe(sys) && sys.live.Some? && sys.live.value.ram.next != 0
    requires sys.live.value.ram.cursor % PER_SECTOR == 0 && sys.live.value.fail.skipped < BUDGET
    requires sys.live.value.fail.slot.NoSlot? ||
      (sys.live.value.fail.slot == At(sys.live.value.ram.cursor) && sys.live.value.fail.count == 1)
    ensures var live := sys.live.value;
      var sys' := Step(sys, FailingEvent());
      && Attempt(sys, FailingEvent()).outcome.Refused? && sys'.live.Some?
      && sys'.live.value.ram.next == Reserve(live.ram.next)
      && sys'.live.value.ram.cursor % PER_SECTOR == 0
      && (live.fail.slot.NoSlot? ==>
            sys'.live.value.fail == Fail(At(live.ram.cursor), 1, live.fail.skipped, live.fail.paused) &&
            sys'.live.value.ram.cursor == live.ram.cursor && sys'.live.value.abandoned == live.abandoned)
      && (live.fail.slot.At? ==>
            sys'.live.value.fail == Fail(NoSlot, 0, live.fail.skipped + 1, live.fail.paused) &&
            sys'.live.value.abandoned == live.abandoned + 1)
  {
  }

  /** A torn slot found by the first attempt of an episode is left without being counted. */
  lemma JumpsUncounted(sys: Sys)
    requires Safe(sys) && EpisodeStart(sys) && sys.live.value.ram.next != 0 && !Usable(sys)
    ensures var sys' := Step(sys, FailingEvent());
      && Attempt(sys, FailingEvent()).outcome.Refused? && sys'.live.Some?
      && sys'.live.value.ram.next == Reserve(sys.live.value.ram.next)
      && sys'.live.value.ram.cursor % PER_SECTOR == 0
      && sys'.live.value.fail == Fail(At(sys'.live.value.ram.cursor), 1, 0, false)
      && sys'.live.value.abandoned == 1
  {
  }

  lemma EpisodeLonger(sys: Sys, e: Event, rest: seq<Event>)
    requires WellSized(sys) && e.Write? && sys.live.Some? && sys.live.value.ram.next != 0
    requires Attempt(sys, e).outcome.Refused? && WellSized(Step(sys, e)) && Episode(Step(sys, e), rest)
    ensures Episode(sys, [e] + rest) && Run(sys, [e] + rest) == Run(Step(sys, e), rest)
  {
    assert ([e] + rest)[1..] == rest;
  }

  /** From there the episode can leave one sector more than its budget. */
  lemma OverrunExists(sys: Sys)
    requires Safe(sys) && EpisodeStart(sys) && !Usable(sys) && 0 < sys.live.value.ram.next <= SEQ_MAX - 4
    ensures var events := [FailingEvent(), FailingEvent(), FailingEvent(), FailingEvent()];
      Episode(sys, events) && Run(sys, events).live.Some? && Run(sys, events).live.value.abandoned == BUDGET + 1
  {
    var e := FailingEvent();
    JumpsUncounted(sys);
    StepSafe(sys, e);
    var s1 := Step(sys, e);
    FailsInPlace(s1);
    StepSafe(s1, e);
    var s2 := Step(s1, e);
    FailsInPlace(s2);
    StepSafe(s2, e);
    var s3 := Step(s2, e);
    FailsInPlace(s3);
    var s4 := Step(s3, e);
    StepSafe(s3, e);
    EpisodeLonger(s3, e, []);
    EpisodeLonger(s2, e, [e] + []);
    EpisodeLonger(s1, e, [e] + ([e] + []));
    EpisodeLonger(sys, e, [e] + ([e] + ([e] + [])));
    assert [e, e, e, e] == [e] + ([e] + ([e] + ([e] + [])));
  }

  /** The budget bounds a whole episode exactly when its first attempt can use the slot it starts at; a torn slot
      found by the very first attempt costs one more sector, because no earlier failure of the episode exists for
      the accounting to compare with. */
  lemma BudgetExactly(sys: Sys)
    requires Safe(sys) && EpisodeStart(sys) && 0 < sys.live.value.ram.next <= SEQ_MAX - 4
    ensures Usable(sys) <==>
      forall events | Episode(sys, events) ::
        Run(sys, events).live.Some? && Run(sys, events).live.value.abandoned <= BUDGET
  {
    if Usable(sys) {
      forall events | Episode(sys, events)
        ensures Run(sys, events).live.Some? && Run(sys, events).live.value.abandoned <= BUDGET
      {
        EpisodeBounds(sys, events);
      }
    } else {
      OverrunExists(sys);
    }
  }
}
