/**
 * Runs of the journal over boots: a boot scans for the head, writes attempt appends, and any attempt may
 * end in a power loss. What is kept in every run: unique sequences, and the newest acknowledged record.
 */
module FlashRuns {
  import opened Options
  import opened FlashLog
  import opened FlashAppend

  /** A record that must not be lost, and its slot. */
  datatype Mark = Mark(slot: nat, rec: Record)
  /** The variables of a running boot. `jumps`, `abandoned` and `uncounted` follow the episode for the proofs:
      torn-slot jumps, all sectors left, and whether one of them escaped the failure accounting. */
  datatype Live = Live(ram: Ram, fail: Fail, jumps: nat, abandoned: nat, uncounted: bool)
  /** `last` is the newest record that was acknowledged, or found as the head by the last boot. */
  datatype Sys = Sys(img: Image, live: Option<Live>, last: Option<Mark>)

  datatype Event =
    | Boot(readable: bool)
    | Write(source: nat, scope: int, bucket: int, manifest: bool, values: map<nat, int>, env: AppendEnv)

  /** The scan for the highest sequence; sequence 0 is never a record's. */
  function HeadUpTo(img: Image, k: nat): (h: int)
    requires k <= |img|
    ensures -1 <= h < k
    ensures h >= 0 ==> IsRec(img, h) && Seq(img, h) > 0
    ensures h >= 0 ==> forall p | IsRec(img, p) && p < k :: Seq(img, p) <= Seq(img, h)
    ensures h < 0 ==> forall p | IsRec(img, p) && p < k :: Seq(img, p) == 0
  {
    if k == 0 then -1
    else
      var h := HeadUpTo(img, k - 1);
      if IsRec(img, k - 1) && Seq(img, k - 1) > (if h < 0 then 0 else Seq(img, h)) then k - 1 else h
  }

  function Head(img: Image): (h: int)
    ensures -1 <= h < |img|
    ensures h >= 0 ==> IsHead(img, h) && Seq(img, h) > 0
    ensures h < 0 ==> forall p | IsRec(img, p) :: Seq(img, p) == 0
  {
    HeadUpTo(img, |img|)
  }

  function BootRam(img: Image): (r: Ram)
    requires Geometry(|img|)
  {
    var h := Head(img);
    if h < 0 then Ram(1, 0) else Ram(Reserve(Seq(img, h)), NextSlot(|img|, h))
  }

  function BootLast(img: Image): Option<Mark> {
    var h := Head(img);
    if h < 0 then None else Some(Mark(h, img[h].rec))
  }

  predicate WellSized(sys: Sys) {
    Geometry(|sys.img|) && (sys.live.Some? ==> sys.live.value.ram.cursor < |sys.img|)
  }

  function RecordOf(e: Event, sequence: nat): Record
    requires e.Write?
  {
    Record(sequence, e.source, e.scope, e.bucket, e.manifest, e.values)
  }

  function Attempt(sys: Sys, e: Event): Appended
    requires WellSized(sys) && sys.live.Some? && e.Write?
  {
    Append(sys.img, sys.live.value.ram, RecordOf(e, sys.live.value.ram.next), e.env)
  }

  /** The state after a refused attempt; `jumped` says that the cursor moved off a torn slot in it. */
  function AfterRefusal(live: Live, a: Appended, jumped: bool): (l: Live)
    requires a.outcome.Refused? && a.outcome.slot < |a.img|
  {
    var (cursor, fail) := NoteFailure(|a.img|, a.ram.cursor, live.fail, a.outcome.slot);
    var skip := if cursor != a.ram.cursor then 1 else 0;
    var jump := if jumped then 1 else 0;
    Live(Ram(a.ram.next, cursor), fail, live.jumps + jump, live.abandoned + jump + skip,
         live.uncounted || (jumped && live.fail.slot.NoSlot?))
  }

  function Step(sys: Sys, e: Event): (sys': Sys)
    requires WellSized(sys)
  {
    match e
    case Boot(readable) =>
      if readable then Sys(sys.img, Some(Live(BootRam(sys.img), NO_FAILURE, 0, 0, false)), BootLast(sys.img))
      else sys.(live := None)
    case Write(_, _, _, _, _, _) =>
      if sys.live.None? then sys
      else
        var live := sys.live.value;
        var a := Attempt(sys, e);
        match a.outcome
        case PowerLost => Sys(a.img, None, sys.last)
        case Acked(slot) =>
          Sys(a.img, Some(Live(a.ram, NO_FAILURE, 0, 0, false)), Some(Mark(slot, RecordOf(e, live.ram.next))))
        case Refused(slot) =>
          Sys(a.img, Some(AfterRefusal(live, a, a.ram.cursor != live.ram.cursor)), sys.last)
  }

  lemma StepWellSized(sys: Sys, e: Event)
    requires WellSized(sys)
    ensures WellSized(Step(sys, e))
  {
    match e
    case Boot(_) =>
    case Write(_, _, _, _, _, _) =>
      if sys.live.Some? {
        var a := Attempt(sys, e);
        assert |a.img| == |sys.img| && a.ram.cursor < |sys.img|;
      }
  }

  /** No two records share a sequence. */
  ghost predicate Unique(img: Image) {
    forall p, q | IsRec(img, p) && IsRec(img, q) && p != q :: Seq(img, p) != Seq(img, q)
  }

  /** Every sequence in the log was reserved before `next`. */
  ghost predicate Below(img: Image, next: nat) {
    forall p | IsRec(img, p) :: 0 < Seq(img, p) <= SEQ_MAX && (next != 0 ==> Seq(img, p) < next)
  }

  /** The protected record is where it was acknowledged. */
  ghost predicate Holds(img: Image, last: Option<Mark>) {
    last.Some? ==> last.value.slot < |img| && img[last.value.slot] == Committed(last.value.rec)
  }

  /** How far the cursor may have run from the protected record. */
  ghost predicate Leashed(n: nat, live: Live, last: Option<Mark>)
    requires live.ram.cursor < n
  {
    var c := live.ram.cursor;
    && live.fail.skipped <= BUDGET
    && (live.fail.slot.At? ==> live.fail.slot.slot == c)
    && live.jumps <= 1
    && live.abandoned == live.fail.skipped + (if live.uncounted then 1 else 0)
    && (live.uncounted ==> live.jumps == 1)
    && (live.fail.paused ==> live.fail.skipped == BUDGET && live.fail.slot.At?)
    && (c % PER_SECTOR != 0 ==> live.abandoned == 0 && live.jumps == 0 && last.Some?)
    && (last.Some? && last.value.slot < n ==>
          || (c == NextSlot(n, last.value.slot) && live.abandoned == 0 && live.jumps == 0)
          || (c % PER_SECTOR == 0 && 1 <= Dist(n, last.value.slot, c) <= PER_SECTOR * (live.fail.skipped + 1)))
  }

  /** What every run keeps. */
  ghost predicate Safe(sys: Sys) {
    && WellSized(sys)
    && Unique(sys.img)
    && Below(sys.img, if sys.live.Some? then sys.live.value.ram.next else 0)
    && Holds(sys.img, sys.last)
    && (sys.live.Some? && sys.live.value.ram.next != 0 ==>
          sys.live.value.ram.next <= SEQ_MAX && Leashed(|sys.img|, sys.live.value, sys.last))
  }

  lemma AttemptSafe(sys: Sys, e: Event)
    requires Safe(sys) && e.Write? && sys.live.Some? && sys.live.value.ram.next != 0
    ensures var a := Attempt(sys, e);
      && Unique(a.img) && Below(a.img, a.ram.next) && Holds(a.img, sys.last)
      && |a.img| == |sys.img|
  {
    var ram := sys.live.value.ram;
    var rec := RecordOf(e, ram.next);
    var a := Attempt(sys, e);
    forall p
      ensures IsRec(a.img, p) ==> 0 < Seq(a.img, p) <= SEQ_MAX && (a.ram.next != 0 ==> Seq(a.img, p) < a.ram.next)
    {
      AppendEffect(sys.img, ram, rec, e.env, p);
    }
    forall p, q | IsRec(a.img, p) && IsRec(a.img, q) && p != q ensures Seq(a.img, p) != Seq(a.img, q) {
      AppendEffect(sys.img, ram, rec, e.env, p);
      AppendEffect(sys.img, ram, rec, e.env, q);
    }
    if sys.last.Some? {
      AppendEffect(sys.img, ram, rec, e.env, sys.last.value.slot);
    }
  }

  /** A refusal at the cursor, or after a jump off a torn slot, leaves the cursor on its leash. */
  lemma RefusedOnLeash(n: nat, live: Live, last: Option<Mark>, a: Appended)
    requires Geometry(n) && live.ram.cursor < n && Leashed(n, live, last)
    requires a.outcome.Refused? && a.outcome.slot == a.ram.cursor < n == |a.img|
    requires a.ram.cursor == live.ram.cursor ||
      (live.ram.cursor % PER_SECTOR != 0 && a.ram.cursor == NextSector(n, live.ram.cursor))
    ensures var after := AfterRefusal(live, a, a.ram.cursor != live.ram.cursor);
      after.ram.cursor < n && Leashed(n, after, last)
  {
    if a.ram.cursor == live.ram.cursor {
      assert live.fail.slot.At? ==> live.fail.slot.slot == a.ram.cursor;
    } else {
      assert live.fail.skipped == 0;
    }
  }

  lemma RefusalLeashed(sys: Sys, e: Event)
    requires Safe(sys) && e.Write? && sys.live.Some? && sys.live.value.ram.next != 0
    requires Attempt(sys, e).outcome.Refused?
    ensures var live := Step(sys, e).live; live.Some? && Leashed(|sys.img|, live.value, sys.last)
  {
    AppendEffect(sys.img, sys.live.value.ram, RecordOf(e, sys.live.value.ram.next), e.env, 0);
    RefusedOnLeash(|sys.img|, sys.live.value, sys.last, Attempt(sys, e));
  }

  lemma StepSafe(sys: Sys, e: Event)
    requires Safe(sys)
    ensures Safe(Step(sys, e))
  {
    match e
    case Boot(readable) =>
    case Write(_, _, _, _, _, _) =>
      if sys.live.Some? && sys.live.value.ram.next != 0 {
        AttemptSafe(sys, e);
        var a := Attempt(sys, e);
        AppendEffect(sys.img, sys.live.value.ram, RecordOf(e, sys.live.value.ram.next), e.env, 0);
        if a.outcome.Refused? {
          RefusalLeashed(sys, e);
        }
      }
  }

  function Run(sys: Sys, events: seq<Event>): (sys': Sys)
    requires WellSized(sys)
    ensures WellSized(sys') && |sys'.img| == |sys.img|
    decreases |events|
  {
    if events == [] then sys
    else
      StepWellSized(sys, events[0]);
      Run(Step(sys, events[0]), events[1..])
  }

  function Blank(n: nat): (sys: Sys)
    requires Geometry(n)
    ensures WellSized(sys)
  {
    Sys(seq(n, i => Erased), None, None)
  }

  lemma {:induction false} RunSafe(sys: Sys, events: seq<Event>)
    requires Safe(sys)
    ensures Safe(Run(sys, events))
    decreases |events|
  {
    if events != [] {
      StepSafe(sys, events[0]);
      RunSafe(Step(sys, events[0]), events[1..]);
    }
  }

  /** The protected record is only ever replaced by one with a higher or equal sequence. */
  lemma StepKeepsLast(sys: Sys, e: Event)
    requires Safe(sys) && sys.last.Some?
    ensures var sys' := Step(sys, e);
      sys'.last.Some? && sys'.last.value.rec.sequence >= sys.last.value.rec.sequence
  {
    if e.Boot? && e.readable {
      assert IsRec(sys.img, sys.last.value.slot);
    } else if e.Write? && sys.live.Some? && sys.live.value.ram.next != 0 {
      assert IsRec(sys.img, sys.last.value.slot);
      assert Seq(sys.img, sys.last.value.slot) < sys.live.value.ram.next;
    }
  }

  lemma {:induction false} RunKeepsLast(sys: Sys, events: seq<Event>)
    requires Safe(sys) && sys.last.Some?
    ensures var sys' := Run(sys, events);
      sys'.last.Some? && sys'.last.value.rec.sequence >= sys.last.value.rec.sequence
    decreases |events|
  {
    if events != [] {
      StepSafe(sys, events[0]);
      StepKeepsLast(sys, events[0]);
      RunKeepsLast(Step(sys, events[0]), events[1..]);
    }
  }
}
