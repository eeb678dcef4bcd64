/** The journal's main results: crash safety, erase discipline, and the order of the log. */
module FlashTheorems {
  import opened Options
  import opened FlashLog
  import opened FlashAppend
  import opened FlashRuns
  import opened FlashOrder

  /** The slot an attempt programs. */
  function Target(sys: Sys, e: Event): (f: nat)
    requires WellSized(sys) && e.Write? && sys.live.Some?
    ensures f < |sys.img|
  {
    Prepare(sys.img, sys.live.value.ram.cursor, e.env).slot
  }

  /** The slots an attempt may erase: the sector of its target, and only when the target is that sector's first slot. */
  predicate MayErase(sys: Sys, e: Event, p: int)
    requires WellSized(sys)
  {
    e.Write? && sys.live.Some? && sys.live.value.ram.next != 0 &&
    Target(sys, e) % PER_SECTOR == 0 && Target(sys, e) <= p < Target(sys, e) + PER_SECTOR
  }

  /** Each record that a step removes lay in the one sector being entered, which never holds the protected
      record; each record that appears is the one being written, at its target. */
  lemma StepChanges(sys: Sys, e: Event, p: int)
    requires Safe(sys)
    ensures var img' := Step(sys, e).img;
      && (IsRec(sys.img, p) && !(IsRec(img', p) && img'[p] == sys.img[p]) ==> MayErase(sys, e, p))
      && (IsRec(img', p) && !(IsRec(sys.img, p) && img'[p] == sys.img[p]) ==>
            e.Write? && sys.live.Some? && p == Target(sys, e) && img'[p].rec == RecordOf(e, sys.live.value.ram.next))
      && (sys.last.Some? ==> !MayErase(sys, e, sys.last.value.slot))
  {
    if e.Write? && sys.live.Some? && sys.live.value.ram.next != 0 {
      AppendEffect(sys.img, sys.live.value.ram, RecordOf(e, sys.live.value.ram.next), e.env, p);
    }
  }

  /** `b` is what the next boot finds when event `e` was cut short, at any point, in state `s`. */
  ghost predicate Recovered(s: Sys, e: Event, b: Sys)
    requires WellSized(s)
  {
    // every record present before is still there, unless the attempt was entering its sector
    && |b.img| == |s.img|
    && (forall p | IsRec(s.img, p) && !MayErase(s, e, p) :: b.img[p] == s.img[p])
    // the protected record is one of those
    && (s.last.Some? ==> Holds(b.img, s.last) && !MayErase(s, e, s.last.value.slot))
    // nothing new is there but the record in progress
    && (forall p | IsRec(b.img, p) && b.img[p] != s.img[p] ::
          e.Write? && s.live.Some? && p == Target(s, e) && b.img[p].rec == RecordOf(e, s.live.value.ram.next))
    && Unique(b.img)
  }

  /** The boot has taken the highest committed sequence as its head and continues behind and above it. */
  ghost predicate FromHead(b: Sys) {
    && WellSized(b) && b.live.Some?
    && (b.last.None? ==> b.live.value.ram == Ram(1, 0) && forall p :: !IsRec(b.img, p))
    && (b.last.Some? ==>
          && IsHead(b.img, b.last.value.slot)
          && b.img[b.last.value.slot] == Committed(b.last.value.rec)
          && b.live.value.ram.cursor == NextSlot(|b.img|, b.last.value.slot)
          && b.live.value.ram.next == Reserve(b.last.value.rec.sequence))
  }

  lemma BootTakesHead(s: Sys)
    requires Safe(s)
    ensures FromHead(Step(s, Boot(true))) && Step(s, Boot(true)).img == s.img
  {
  }

  lemma KeepsOthers(s: Sys, e: Event)
    requires Safe(s)
    ensures var img' := Step(s, e).img;
      && |img'| == |s.img|
      && (forall p | IsRec(s.img, p) && !MayErase(s, e, p) :: img'[p] == s.img[p])
      && (forall p | IsRec(img', p) && img'[p] != s.img[p] ::
            e.Write? && s.live.Some? && p == Target(s, e) && img'[p].rec == RecordOf(e, s.live.value.ram.next))
  {
    StepSafe(s, e);
    forall p
      ensures IsRec(s.img, p) && !MayErase(s, e, p) ==> Step(s, e).img[p] == s.img[p]
      ensures IsRec(Step(s, e).img, p) && Step(s, e).img[p] != s.img[p] ==>
        e.Write? && s.live.Some? && p == Target(s, e) && Step(s, e).img[p].rec == RecordOf(e, s.live.value.ram.next)
    {
      StepChanges(s, e, p);
    }
  }

  lemma CutRecovers(s: Sys, e: Event)
    requires Safe(s)
    ensures Recovered(s, e, Step(s, e)) && Safe(Step(s, e))
  {
    StepSafe(s, e);
    KeepsOthers(s, e);
    if s.last.Some? {
      StepChanges(s, e, s.last.value.slot);
    }
  }

  /** Wherever a run from a blank chip is cut, the next boot recovers: it takes the highest committed sequence,
      has every record outside the sector being entered, and no older protected record than before. */
  lemma CrashSafety(n: nat, before: seq<Event>, e: Event)
    requires Geometry(n)
    ensures var s := Run(Blank(n), before);
      var b := Step(Step(s, e), Boot(true));
      && Recovered(s, e, b)
      && FromHead(b)
      && (s.last.Some? ==> b.last.Some? && b.last.value.rec.sequence >= s.last.value.rec.sequence)
  {
    RunSafe(Blank(n), before);
    var s := Run(Blank(n), before);
    CutRecovers(s, e);
    BootTakesHead(Step(s, e));
    if s.last.Some? {
      assert IsRec(Step(s, e).img, s.last.value.slot);
    }
  }

  /** No step of the run abandons a sector that still holds older records. */
  ghost predicate CleanRun(sys: Sys, events: seq<Event>)
    requires WellSized(sys)
    decreases |events|
  {
    events == [] ||
    (StepWellSized(sys, events[0]); SkipsCleanly(sys, events[0]) && CleanRun(Step(sys, events[0]), events[1..]))
  }

  lemma {:induction false} CleanRunKeepsOrder(sys: Sys, events: seq<Event>)
    requires OrderInv(sys) && CleanRun(sys, events)
    ensures OrderInv(Run(sys, events)) && Chronological(Run(sys, events).img)
    decreases |events|
  {
    if events == [] {
      var c :| LogInv(sys.img, c);
      OrderedIsChronological(sys.img, c);
    } else {
      StepKeepsOrder(sys, events[0]);
      CleanRunKeepsOrder(Step(sys, events[0]), events[1..]);
    }
  }

  /** In such runs, over boots and power losses, the log stays in order. */
  lemma LogIsChronological(n: nat, events: seq<Event>)
    requires Geometry(n) && CleanRun(Blank(n), events)
    ensures Chronological(Run(Blank(n), events).img)
  {
    assert LogInv(Blank(n).img, 0);
    CleanRunKeepsOrder(Blank(n), events);
  }

  /** Whatever an attempt erases is older than everything it leaves, apart from an unacknowledged copy at the cursor. */
  lemma RetiresOldestFirst(sys: Sys, e: Event, p: int, q: int)
    requires OrderInv(sys) && MayErase(sys, e, p) && IsRec(sys.img, p)
    requires IsRec(sys.img, q) && !MayErase(sys, e, q)
    ensures Seq(sys.img, p) < Seq(sys.img, q) || p == sys.live.value.ram.cursor
  {
    var ram := sys.live.value.ram;
    AppendEffect(sys.img, ram, RecordOf(e, ram.next), e.env, p);
    if Target(sys, e) != ram.cursor {
      AbandonKeepsOrder(sys.img, ram.cursor);
    }
  }

  /** Every operation of the attempt succeeds. */
  predicate Quiet(env: AppendEnv) {
    env.probe.Ok? && env.jumpProbe.Ok? && env.erase.io.Ok? && env.body.io.Ok? && env.body.sound &&
    env.commit.io.Ok? && env.commit.landed && env.verify.Ok?
  }

  lemma UnreadableProbe(sys: Sys, e: Event)
    requires Safe(sys) && sys.live.Some? && sys.live.value.ram.next != 0 && sys.live.value.ram.cursor % PER_SECTOR == 0
    requires e.Write? && e.env.probe.Failed? && sys.live.value.fail.skipped == 0
    requires sys.live.value.fail.count <= 1
    ensures var live := sys.live.value;
      var sys' := Step(sys, e);
      && sys'.img == sys.img && sys'.last == sys.last && sys'.live.Some?
      && sys'.live.value.ram.next == Reserve(live.ram.next)
      && (live.fail.slot.NoSlot? ==>
            && sys'.live.value.ram.cursor == live.ram.cursor
            && sys'.live.value.fail == Fail(At(live.ram.cursor), 1, 0, live.fail.paused))
      && (live.fail == Fail(At(live.ram.cursor), 1, 0, false) ==>
            sys'.live.value.ram.cursor == NextSector(|sys.img|, live.ram.cursor))
  {
  }

  lemma QuietAppend(sys: Sys, e: Event)
    requires Safe(sys) && sys.live.Some? && sys.live.value.ram.next != 0 && sys.live.value.ram.cursor % PER_SECTOR == 0
    requires e.Write? && Quiet(e.env)
    ensures var f := sys.live.value.ram.cursor;
      && Target(sys, e) == f
      && Step(sys, e).img[f] == Committed(RecordOf(e, sys.live.value.ram.next))
      && IsHead(Step(sys, e).img, f)
  {
    StepSafe(sys, e);
    forall p | IsRec(Step(sys, e).img, p) ensures Seq(Step(sys, e).img, p) <= sys.live.value.ram.next {
      StepChanges(sys, e, p);
    }
  }

  /** A good append into a fresh sector in front of an older record, seen from the newest acknowledged one. */
  lemma AppendsInFront(sys: Sys, e: Event, p: nat)
    requires Safe(sys) && sys.live.Some? && sys.live.value.ram.next != 0 && sys.last.Some?
    requires sys.live.value.ram.cursor % PER_SECTOR == 0 && e.Write? && Quiet(e.env)
    requires IsRec(sys.img, p) && Seq(sys.img, p) < sys.last.value.rec.sequence && !MayErase(sys, e, p)
    requires var f := sys.live.value.ram.cursor; Dist(|sys.img|, p, f) < Dist(|sys.img|, sys.last.value.slot, f)
    ensures !Chronological(Step(sys, e).img)
  {
    var f := sys.live.value.ram.cursor;
    QuietAppend(sys, e);
    StepChanges(sys, e, p);
    StepChanges(sys, e, sys.last.value.slot);
    assert !ChronologicalFrom(Step(sys, e).img, f);
  }

  /** Two unreadable probes leave the chip alone and move the cursor on by a sector. */
  lemma TwoUnreadable(sys: Sys, e1: Event, e2: Event)
    requires Safe(sys) && sys.live.Some? && sys.live.value.fail == NO_FAILURE
    requires 0 < sys.live.value.ram.next <= SEQ_MAX - 3 && sys.live.value.ram.cursor % PER_SECTOR == 0
    requires e1.Write? && e1.env.probe.Failed? && e2.Write? && e2.env.probe.Failed?
    ensures WellSized(Step(sys, e1))
    ensures var s := Step(Step(sys, e1), e2);
      && Safe(s) && s.img == sys.img && s.last == sys.last && s.live.Some?
      && s.live.value.ram == Ram(sys.live.value.ram.next + 2, NextSector(|sys.img|, sys.live.value.ram.cursor))
  {
    UnreadableProbe(sys, e1);
    StepSafe(sys, e1);
    UnreadableProbe(Step(sys, e1), e2);
    StepSafe(Step(sys, e1), e2);
  }

  /** Two unreadable probes abandon a sector that still holds its old records; the next good append then lies
      in front of them, and the log is no longer in order. */
  lemma DirtySkipBreaksOrder(sys: Sys, e1: Event, e2: Event, e3: Event)
    requires Safe(sys) && sys.live.Some? && sys.live.value.fail == NO_FAILURE && sys.last.Some?
    requires 0 < sys.live.value.ram.next <= SEQ_MAX - 3
    requires sys.live.value.ram.cursor % PER_SECTOR == 0
    requires exists p | IsRec(sys.img, p) && sys.live.value.ram.cursor <= p < sys.live.value.ram.cursor + PER_SECTOR ::
      Seq(sys.img, p) < sys.last.value.rec.sequence
    requires e1.Write? && e1.env.probe.Failed? && e2.Write? && e2.env.probe.Failed? && e3.Write? && Quiet(e3.env)
    ensures !Chronological(Run(sys, [e1, e2, e3]).img)
  {
    var c := sys.live.value.ram.cursor;
    TwoUnreadable(sys, e1, e2);
    RunThree(sys, e1, e2, e3);
    var p :| IsRec(sys.img, p) && c <= p < c + PER_SECTOR && Seq(sys.img, p) < sys.last.value.rec.sequence;
    AppendsInFront(Step(Step(sys, e1), e2), e3, p);
  }

  lemma RunThree(sys: Sys, e1: Event, e2: Event, e3: Event)
    requires WellSized(sys)
    ensures WellSized(Step(sys, e1)) && WellSized(Step(Step(sys, e1), e2))
    ensures Run(sys, [e1, e2, e3]) == Step(Step(Step(sys, e1), e2), e3)
  {
    StepWellSized(sys, e1);
    StepWellSized(Step(sys, e1), e2);
    StepWellSized(Step(Step(sys, e1), e2), e3);
    assert [e1, e2, e3][1..] == [e2, e3] && [e2, e3][1..] == [e3] && [e3][1..] == [];
    assert Run(Step(Step(sys, e1), e2), [e3]) == Run(Step(Step(Step(sys, e1), e2), e3), []);
    assert Run(Step(sys, e1), [e2, e3]) == Run(Step(Step(sys, e1), e2), [e3]);
  }
}
