/** How long a record lives: until the newest acknowledged record has gone round the log to just behind it. */
module FlashSurvival {
  import opened Options
  import opened FlashLog
  import opened FlashAppend
  import opened FlashRuns
  import opened FlashTheorems

  /** The most an attempt can be ahead of the protected record: the budget's sectors and its own. */
  const REACH: nat := (BUDGET + 1) * PER_SECTOR

  /** Records newer than the protected one are copies nobody acknowledged; they lie just ahead of it. */
  ghost predicate NewerAreNear(sys: Sys) {
    sys.last.Some? && sys.last.value.slot < |sys.img| ==>
      forall q | IsRec(sys.img, q) && Seq(sys.img, q) > sys.last.value.rec.sequence ::
        1 <= Dist(|sys.img|, sys.last.value.slot, q) <= REACH
  }

  /** An attempt goes to the next three sectors behind the protected record and nowhere else. */
  lemma TargetIsNear(sys: Sys, e: Event)
    requires Safe(sys) && sys.last.Some? && e.Write? && sys.live.Some? && sys.live.value.ram.next != 0
    ensures 1 <= Dist(|sys.img|, sys.last.value.slot, Target(sys, e)) <= REACH
  {
    AppendEffect(sys.img, sys.live.value.ram, RecordOf(e, sys.live.value.ram.next), e.env, 0);
  }

  /** An attempt keeps the protected record or puts its own in its place, newer than everything on the chip. */
  lemma NextProtected(sys: Sys, e: Event)
    requires Safe(sys) && e.Write? && sys.live.Some? && sys.live.value.ram.next != 0
    ensures var sys' := Step(sys, e);
      sys'.last == sys.last || sys'.last == Some(Mark(Target(sys, e), RecordOf(e, sys.live.value.ram.next)))
  {
    AppendEffect(sys.img, sys.live.value.ram, RecordOf(e, sys.live.value.ram.next), e.env, 0);
  }

  lemma AttemptKeepsNear(sys: Sys, e: Event)
    requires Safe(sys) && NewerAreNear(sys) && sys.last.Some?
    requires e.Write? && sys.live.Some? && sys.live.value.ram.next != 0
    ensures NewerAreNear(Step(sys, e))
  {
    var sys' := Step(sys, e);
    TargetIsNear(sys, e);
    NextProtected(sys, e);
    forall q | IsRec(sys'.img, q) && Seq(sys'.img, q) > sys'.last.value.rec.sequence
      ensures 1 <= Dist(|sys.img|, sys'.last.value.slot, q) <= REACH
    {
      StepChanges(sys, e, q);
      if IsRec(sys.img, q) && sys'.img[q] == sys.img[q] {
        assert Seq(sys.img, q) < sys.live.value.ram.next;
      }
    }
  }

  lemma FirstAcknowledged(sys: Sys, e: Event)
    requires Safe(sys) && sys.last.None? && e.Write? && Step(sys, e).last.Some?
    ensures NewerAreNear(Step(sys, e))
  {
    var sys' := Step(sys, e);
    StepSafe(sys, e);
    forall q | IsRec(sys'.img, q)
      ensures Seq(sys'.img, q) <= sys'.last.value.rec.sequence
    {
      StepChanges(sys, e, q);
    }
  }

  lemma StepKeepsNear(sys: Sys, e: Event)
    requires Safe(sys) && NewerAreNear(sys)
    ensures NewerAreNear(Step(sys, e))
  {
    match e
    case Boot(readable) =>
    case Write(_, _, _, _, _, _) =>
      if sys.last.Some? && sys.live.Some? && sys.live.value.ram.next != 0 {
        AttemptKeepsNear(sys, e);
      } else if sys.last.None? && Step(sys, e).last.Some? {
        FirstAcknowledged(sys, e);
      }
  }

  /** How far the newest acknowledged record moves in a step. */
  function Moved(sys: Sys, e: Event): (d: nat)
    requires WellSized(sys)
  {
    var last, last' := sys.last, Step(sys, e).last;
    if last.Some? && last'.Some? && last.value.slot < |sys.img| && last'.value.slot < |sys.img| then
      Dist(|sys.img|, last.value.slot, last'.value.slot)
    else 0
  }

  /** How far it moves in a run, once around the log being the log's size. */
  function Travel(sys: Sys, events: seq<Event>): (d: nat)
    requires WellSized(sys)
    decreases |events|
  {
    if events == [] then 0
    else
      StepWellSized(sys, events[0]);
      Moved(sys, events[0]) + Travel(Step(sys, events[0]), events[1..])
  }

  /** How far the newest acknowledged record is from coming upon slot `p`. */
  function Room(sys: Sys, p: nat): (d: nat)
    requires sys.last.Some? && sys.last.value.slot < |sys.img| && p < |sys.img|
  {
    if p == sys.last.value.slot then |sys.img| else Dist(|sys.img|, sys.last.value.slot, p)
  }

  /** No step moves the newest acknowledged record farther than its leash. */
  lemma MovesNear(sys: Sys, e: Event)
    requires Safe(sys) && NewerAreNear(sys) && sys.last.Some?
    ensures var sys' := Step(sys, e);
      && |sys'.img| == |sys.img| && sys'.last.Some? && sys'.last.value.slot < |sys.img|
      && Dist(|sys.img|, sys.last.value.slot, sys'.last.value.slot) <= REACH
  {
    StepSafe(sys, e);
    match e
    case Boot(readable) =>
      if readable {
        assert IsRec(sys.img, sys.last.value.slot);
        var h := Head(sys.img);
        assert h == sys.last.value.slot || Seq(sys.img, h) > sys.last.value.rec.sequence;
      }
    case Write(_, _, _, _, _, _) =>
      if sys.live.Some? && sys.live.value.ram.next != 0 {
        TargetIsNear(sys, e);
        AppendEffect(sys.img, sys.live.value.ram, RecordOf(e, sys.live.value.ram.next), e.env, 0);
      }
  }

  /** A slot in a sector entered within reach of `last` lies within reach, and its place in the sector, of it. */
  lemma SectorInReach(n: nat, last: nat, f: nat, p: nat)
    requires last < n && f < n && p < n && f % PER_SECTOR == 0 && f <= p < f + PER_SECTOR
    requires 1 <= Dist(n, last, f) <= REACH && p != last
    ensures Dist(n, last, p) <= REACH + p % PER_SECTOR || (f <= last < p)
  {
  }

  lemma SparesRecord(sys: Sys, e: Event, p: nat)
    requires Safe(sys) && sys.last.Some? && IsRec(sys.img, p)
    requires REACH + p % PER_SECTOR < Room(sys, p)
    ensures var img' := Step(sys, e).img; IsRec(img', p) && img'[p] == sys.img[p]
  {
    StepChanges(sys, e, p);
    if MayErase(sys, e, p) {
      TargetIsNear(sys, e);
      StepChanges(sys, e, sys.last.value.slot);
      SectorInReach(|sys.img|, sys.last.value.slot, Target(sys, e), p);
    }
  }

  /** A step leaves the record where it is and comes nearer by exactly what it moves. */
  lemma StepSpares(sys: Sys, e: Event, p: nat)
    requires Safe(sys) && NewerAreNear(sys) && sys.last.Some? && IsRec(sys.img, p)
    requires REACH + p % PER_SECTOR < Room(sys, p)
    ensures var sys' := Step(sys, e);
      && IsRec(sys'.img, p) && sys'.img[p] == sys.img[p]
      && sys'.last.Some? && sys'.last.value.slot < |sys'.img|
      && Moved(sys, e) <= REACH
      && Room(sys', p) == Room(sys, p) - Moved(sys, e)
  {
    SparesRecord(sys, e, p);
    MovesNear(sys, e);
  }

  /** Over boots, failures, retries and power losses a record survives until the newest acknowledged one has
      come round to the third sector before the record's own. */
  lemma {:induction false} RecordSurvives(sys: Sys, events: seq<Event>, p: nat)
    requires Safe(sys) && NewerAreNear(sys) && sys.last.Some? && IsRec(sys.img, p)
    requires Travel(sys, events) + REACH + p % PER_SECTOR < Room(sys, p)
    ensures Run(sys, events).img[p] == sys.img[p]
    decreases |events|
  {
    if events != [] {
      var next := Step(sys, events[0]);
      StepSpares(sys, events[0], p);
      StepSafe(sys, events[0]);
      StepKeepsNear(sys, events[0]);
      RecordSurvives(next, events[1..], p);
    }
  }

  lemma {:induction false} RunKeepsNear(sys: Sys, events: seq<Event>)
    requires Safe(sys) && NewerAreNear(sys)
    ensures Safe(Run(sys, events)) && NewerAreNear(Run(sys, events))
    decreases |events|
  {
    if events != [] {
      StepSafe(sys, events[0]);
      StepKeepsNear(sys, events[0]);
      RunKeepsNear(Step(sys, events[0]), events[1..]);
    }
  }

  /** So a record acknowledged last survives a whole lap but for the last three sectors and its own. */
  lemma AcknowledgedSurvivesLap(n: nat, before: seq<Event>, events: seq<Event>)
    requires Geometry(n) && Run(Blank(n), before).last.Some?
    requires var s := Run(Blank(n), before);
      Travel(s, events) + REACH + s.last.value.slot % PER_SECTOR < n
    ensures var s := Run(Blank(n), before);
      s.last.value.slot < n && Run(s, events).img[s.last.value.slot] == Committed(s.last.value.rec)
  {
    RunKeepsNear(Blank(n), before);
    var s := Run(Blank(n), before);
    RecordSurvives(s, events, s.last.value.slot);
  }

  /** Nothing has failed since the last acknowledgement, and the rest of the cursor's sector is free. */
  ghost predicate Steady(sys: Sys) {
    && Safe(sys) && sys.live.Some? && sys.live.value.ram.next != 0 && sys.live.value.fail == NO_FAILURE
    && sys.last.Some? && sys.last.value.slot < |sys.img|
    && var c := sys.live.value.ram.cursor;
      && c == NextSlot(|sys.img|, sys.last.value.slot)
      && (c % PER_SECTOR != 0 ==> forall i | c <= i < First(c) + PER_SECTOR :: sys.img[i] == Erased)
  }

  /** With nothing failing the cursor's own slot is used, in a fresh sector when it is the sector's first. */
  lemma GoodPrepare(img: Image, c: nat, env: AppendEnv)
    requires Geometry(|img|) && c < |img| && Quiet(env)
    requires c % PER_SECTOR != 0 ==> img[c] == Erased
    ensures var p := Prepare(img, c, env);
      && p.slot == c && p.status == Ready && |p.img| == |img|
      && forall i | 0 <= i < |img| ::
           p.img[i] == if c % PER_SECTOR == 0 && c <= i < c + PER_SECTOR then Erased else img[i]
  {
  }

  lemma GoodWrite(img: Image, ram: Ram, rec: Record, env: AppendEnv)
    requires Geometry(|img|) && ram.cursor < |img| && Quiet(env) && 0 < ram.next == rec.sequence
    requires ram.cursor % PER_SECTOR != 0 ==> img[ram.cursor] == Erased
    ensures Append(img, ram, rec, env)
         == Appended(Prepare(img, ram.cursor, env).img[ram.cursor := Committed(rec)],
                     Ram(Reserve(ram.next), NextSlot(|img|, ram.cursor)), Acked(ram.cursor))
  {
    GoodPrepare(img, ram.cursor, env);
  }

  /** A good append erases the sector it enters, writes its record at the cursor, and moves on by one. */
  lemma GoodAppend(sys: Sys, e: Event)
    requires Steady(sys) && e.Write? && Quiet(e.env)
    ensures var ram, n := sys.live.value.ram, |sys.img|;
      var sys' := Step(sys, e);
      && sys'.live == Some(Live(Ram(Reserve(ram.next), NextSlot(n, ram.cursor)), NO_FAILURE, 0, 0, false))
      && sys'.last == Some(Mark(ram.cursor, RecordOf(e, ram.next)))
      && |sys'.img| == n
      && forall i | 0 <= i < n ::
           sys'.img[i] ==
             if i == ram.cursor then Committed(RecordOf(e, ram.next))
             else if ram.cursor % PER_SECTOR == 0 && ram.cursor <= i < ram.cursor + PER_SECTOR then Erased
             else sys.img[i]
  {
    var ram := sys.live.value.ram;
    GoodPrepare(sys.img, ram.cursor, e.env);
    GoodWrite(sys.img, ram, RecordOf(e, ram.next), e.env);
  }

  lemma StaysSteady(sys: Sys, e: Event)
    requires Steady(sys) && e.Write? && Quiet(e.env) && sys.live.value.ram.next < SEQ_MAX
    ensures Steady(Step(sys, e))
  {
    StepSafe(sys, e);
    GoodAppend(sys, e);
  }

  /** The record goes with its sector; until then each append brings the cursor one slot nearer. */
  lemma OneAppendNearer(sys: Sys, e: Event, p: nat)
    requires Steady(sys) && e.Write? && Quiet(e.env) && IsRec(sys.img, p)
    ensures var c, n, sys' := sys.live.value.ram.cursor, |sys.img|, Step(sys, e);
      && |sys'.img| == n && c < n && p < n
      && (if c == First(p) then sys'.img[p] != sys.img[p]
          else sys'.img[p] == sys.img[p] && Dist(n, NextSlot(n, c), First(p)) == Dist(n, c, First(p)) - 1)
  {
    GoodAppend(sys, e);
    assert Seq(sys.img, p) < sys.live.value.ram.next;
  }

  /** A record that is gone never comes back: whatever is written later has a higher sequence. */
  lemma {:induction false} GoneForGood(sys: Sys, events: seq<Event>, p: nat, rec: Record)
    requires Safe(sys) && p < |sys.img| && sys.img[p] != Committed(rec)
    requires sys.live.Some? ==> sys.live.value.ram.next == 0 || rec.sequence < sys.live.value.ram.next
    requires forall i | 0 <= i < |events| :: events[i].Write?
    ensures Run(sys, events).img[p] != Committed(rec)
    decreases |events|
  {
    if events != [] {
      var e, next := events[0], Step(sys, events[0]);
      StepSafe(sys, e);
      StepChanges(sys, e, p);
      if sys.live.Some? && sys.live.value.ram.next != 0 {
        AppendEffect(sys.img, sys.live.value.ram, RecordOf(e, sys.live.value.ram.next), e.env, p);
      }
      GoneForGood(next, events[1..], p, rec);
    }
  }

  /** How long the journal retains a record while nothing fails: until exactly the append that enters its
      sector, the whole log less the records of that sector behind it. */
  lemma {:induction false} RetentionExactly(sys: Sys, events: seq<Event>, p: nat)
    requires Steady(sys) && IsRec(sys.img, p) && sys.live.value.ram.next + |events| <= SEQ_MAX
    requires forall i | 0 <= i < |events| :: events[i].Write? && Quiet(events[i].env)
    ensures Run(sys, events).img[p] == sys.img[p] <==>
      |events| <= Dist(|sys.img|, sys.live.value.ram.cursor, First(p))
    decreases |events|
  {
    if events != [] {
      var next := Step(sys, events[0]);
      GoodAppend(sys, events[0]);
      StaysSteady(sys, events[0]);
      OneAppendNearer(sys, events[0], p);
      if sys.live.value.ram.cursor == First(p) {
        assert Seq(sys.img, p) < sys.live.value.ram.next;
        GoneForGood(next, events[1..], p, sys.img[p].rec);
      } else {
        RetentionExactly(next, events[1..], p);
      }
    }
  }
}
