/** The order of the log over runs, and exactly when an append keeps it. */
module FlashOrder {
  import opened Options
  import opened FlashLog
  import opened FlashAppend
  import opened FlashRuns

  ghost predicate OrderInv(sys: Sys) {
    && Safe(sys)
    && (exists c :: LogInv(sys.img, c))
    && (sys.live.Some? && sys.live.value.ram.next != 0 ==> LogInv(sys.img, sys.live.value.ram.cursor))
  }

  /** When the failure accounting abandons a sector, it leaves no valid older record in it. */
  ghost predicate SkipsCleanly(sys: Sys, e: Event)
    requires WellSized(sys)
  {
    e.Write? && sys.live.Some? && sys.live.value.ram.next != 0 ==>
      var a := Attempt(sys, e);
      a.outcome.Refused? && Step(sys, e).live.value.ram.cursor != a.ram.cursor ==> Abandonable(a.img, a.outcome.slot)
  }

  lemma PrepareKeepsOrder(img: Image, ram: Ram, env: AppendEnv)
    requires LogInv(img, ram.cursor)
    ensures var p := Prepare(img, ram.cursor, env);
      && LogInv(p.img, p.slot)
      && (p.status.Ready? ==> RestFree(p.img, p.slot) && !IsRec(p.img, p.slot))
  {
    if ram.cursor % PER_SECTOR != 0 && env.probe.Ok? && img[ram.cursor] != Erased {
      AbandonKeepsOrder(img, ram.cursor);
    }
    var p := Prepare(img, ram.cursor, env);
    if p.slot == ram.cursor {
      LossKeepsOrder(img, p.img, p.slot);
    } else {
      LossKeepsOrder(img, p.img, NextSector(|img|, ram.cursor));
    }
  }

  lemma ProgramKeepsOrder(img: Image, slot: nat, rec: Record, env: AppendEnv)
    requires LogInv(img, slot) && RestFree(img, slot) && !IsRec(img, slot)
    requires forall q | IsRec(img, q) :: Seq(img, q) < rec.sequence
    ensures var img' := Program(img, slot, rec, env);
      LogInv(img', slot) && (IsRec(img', slot) ==> LogInv(img', NextSlot(|img|, slot)))
  {
    LossKeepsOrder(img, img[slot := Torn], slot);
    LandedKeepsOrder(img, slot, rec);
    AdvanceKeepsOrder(img[slot := Committed(rec)], slot);
  }

  lemma AppendKeepsOrder(img: Image, ram: Ram, rec: Record, env: AppendEnv)
    requires LogInv(img, ram.cursor) && Below(img, ram.next)
    requires ram.next != 0 && rec.sequence == ram.next
    ensures var a := Append(img, ram, rec, env); LogInv(a.img, a.ram.cursor)
  {
    PrepareKeepsOrder(img, ram, env);
    var p := Prepare(img, ram.cursor, env);
    if p.status.Ready? {
      forall q | IsRec(p.img, q) ensures Seq(p.img, q) < rec.sequence {
        assert IsRec(img, q) && Seq(img, q) < ram.next;
      }
      ProgramKeepsOrder(p.img, p.slot, rec, env);
    }
  }

  lemma StepKeepsOrder(sys: Sys, e: Event)
    requires OrderInv(sys) && SkipsCleanly(sys, e)
    ensures OrderInv(Step(sys, e))
  {
    StepSafe(sys, e);
    match e
    case Boot(readable) =>
      var c :| LogInv(sys.img, c);
      if Head(sys.img) >= 0 {
        BootKeepsOrder(sys.img, c, Head(sys.img));
      }
    case Write(_, _, _, _, _, _) =>
      if sys.live.Some? && sys.live.value.ram.next != 0 {
        var a := Attempt(sys, e);
        AppendKeepsOrder(sys.img, sys.live.value.ram, RecordOf(e, sys.live.value.ram.next), e.env);
        AppendEffect(sys.img, sys.live.value.ram, RecordOf(e, sys.live.value.ram.next), e.env, 0);
        if a.outcome.Refused? && Step(sys, e).live.value.ram.cursor != a.ram.cursor {
          AbandonKeepsOrder(a.img, a.ram.cursor);
        }
      }
  }

  /** What a reader relies on: going backwards from the newest record, sequences strictly decrease. */
  ghost predicate ChronologicalFrom(img: Image, h: nat)
    requires h < |img|
  {
    forall p, q | IsRec(img, p) && IsRec(img, q) && Dist(|img|, p, h) < Dist(|img|, q, h) :: Seq(img, p) > Seq(img, q)
  }

  /** The backward walk from any newest record meets sequences in decreasing order. */
  ghost predicate Chronological(img: Image) {
    forall h | IsHead(img, h) :: ChronologicalFrom(img, h)
  }

  lemma OrderedIsChronological(img: Image, c: nat)
    requires LogInv(img, c)
    ensures Chronological(img)
  {
  }

  /** No record lies strictly between `h` and `c`. */
  ghost predicate GapFree(img: Image, h: nat, c: nat)
    requires h < |img| && c < |img|
  {
    forall p | IsRec(img, p) :: !(0 < Dist(|img|, h, p) < Dist(|img|, h, c))
  }

  /** A newer record keeps the log in order if and only if nothing lies between the head and it. */
  lemma ChronologicalAppendExactly(img: Image, h: nat, c: nat, rec: Record)
    requires c < |img| && !IsRec(img, c) && IsHead(img, h) && Unique(img) && Chronological(img)
    requires Seq(img, h) < rec.sequence
    ensures Chronological(img[c := Committed(rec)]) <==> GapFree(img, h, c)
  {
    var img' := img[c := Committed(rec)];
    assert forall p | IsRec(img', p) && p != c :: IsRec(img, p) && img'[p] == img[p];
    assert forall p | IsRec(img, p) :: IsRec(img', p) && img'[p] == img[p];
    assert IsHead(img', c);
    assert ChronologicalFrom(img, h);
    if GapFree(img, h, c) {
      forall k | IsHead(img', k) ensures ChronologicalFrom(img', k) {
        assert k == c;
      }
    } else {
      var p :| IsRec(img, p) && 0 < Dist(|img|, h, p) < Dist(|img|, h, c);
      assert Dist(|img|, p, c) < Dist(|img|, h, c);
      assert !ChronologicalFrom(img', c);
    }
  }

  /** The prepared image and slot of the attempt that an event makes. */
  function PreparedBy(sys: Sys, e: Event): (p: Prepared)
    requires WellSized(sys) && sys.live.Some? && e.Write?
    ensures p.slot < |p.img|
  {
    Prepare(sys.img, sys.live.value.ram.cursor, e.env)
  }

  /** The event leaves a new record on the chip, acknowledged or not. */
  predicate Lands(sys: Sys, e: Event)
    requires WellSized(sys)
  {
    && e.Write? && sys.live.Some? && sys.live.value.ram.next != 0
    && PreparedBy(sys, e).status.Ready?
    && e.env.body.io.Ok? && e.env.body.sound && e.env.commit.landed
  }

  /** When a record lands, nothing lies between the newest record the preparation left and its slot. */
  ghost predicate LandsBehindHead(sys: Sys, e: Event)
    requires WellSized(sys)
  {
    Lands(sys, e) ==>
      var p := PreparedBy(sys, e);
      Head(p.img) >= 0 ==> GapFree(p.img, Head(p.img), p.slot)
  }

  lemma LossKeepsChronology(img: Image, img': Image)
    requires Lost(img, img') && Chronological(img) && forall p | IsRec(img, p) :: Seq(img, p) > 0
    ensures Chronological(img')
  {
    assert forall p | IsRec(img', p) :: IsRec(img, p) && img'[p] == img[p];
    forall h: nat, p, q | IsHead(img', h) && IsRec(img', p) && IsRec(img', q) && Dist(|img|, p, h) < Dist(|img|, q, h)
      ensures Seq(img', p) > Seq(img', q)
    {
      assert IsRec(img, h);
      assert ChronologicalFrom(img, Head(img));
      assert Seq(img, q) <= Seq(img, h);
    }
  }

  lemma PreparedIsFree(img: Image, cursor: nat, env: AppendEnv)
    requires Geometry(|img|) && cursor < |img|
    ensures var p := Prepare(img, cursor, env);
      Lost(img, p.img) && p.slot < |img| && (p.status.Ready? ==> p.img[p.slot] == Erased)
  {
  }

  /** A new record where nothing was: in order if and only if it lies right behind the head, or is the first. */
  lemma LandingExactly(img: Image, slot: nat, rec: Record)
    requires slot < |img| && !IsRec(img, slot) && Chronological(img)
    requires forall p | IsRec(img, p) :: 0 < Seq(img, p) < rec.sequence
    requires Unique(img)
    ensures Chronological(img[slot := Committed(rec)]) <==> (Head(img) >= 0 ==> GapFree(img, Head(img), slot))
  {
    if Head(img) >= 0 {
      ChronologicalAppendExactly(img, Head(img), slot, rec);
    } else {
      var img' := img[slot := Committed(rec)];
      assert forall p | IsRec(img', p) && p != slot :: IsRec(img, p);
    }
  }

  /** Whatever an event's flash operations do, it keeps the log in order if and only if a record that it
      lands has nothing between itself and the newest record that the preparation of its slot left. */
  lemma StepIsChronologicalExactly(sys: Sys, e: Event)
    requires Safe(sys) && Chronological(sys.img)
    ensures Chronological(Step(sys, e).img) <==> LandsBehindHead(sys, e)
  {
    if e.Write? && sys.live.Some? && sys.live.value.ram.next != 0 {
      var ram, p := sys.live.value.ram, PreparedBy(sys, e);
      PreparedIsFree(sys.img, ram.cursor, e.env);
      assert forall q | IsRec(p.img, q) :: IsRec(sys.img, q) && p.img[q] == sys.img[q];
      LossKeepsChronology(sys.img, p.img);
      var img' := Step(sys, e).img;
      if Lands(sys, e) {
        assert img' == p.img[p.slot := Committed(RecordOf(e, ram.next))];
        LandingExactly(p.img, p.slot, RecordOf(e, ram.next));
      } else {
        LossKeepsChronology(p.img, img');
      }
    }
  }

  /** The log is in order at the start of the run and after each of its events. */
  ghost predicate AlwaysChronological(sys: Sys, events: seq<Event>)
    requires WellSized(sys)
    decreases |events|
  {
    Chronological(sys.img) &&
    (events == [] || (StepWellSized(sys, events[0]); AlwaysChronological(Step(sys, events[0]), events[1..])))
  }

  ghost predicate AlwaysBehindHead(sys: Sys, events: seq<Event>)
    requires WellSized(sys)
    decreases |events|
  {
    events == [] ||
    (StepWellSized(sys, events[0]);
     LandsBehindHead(sys, events[0]) && AlwaysBehindHead(Step(sys, events[0]), events[1..]))
  }

  /** So the log stays in order through a run if and only if every record landed behind the head of its time. */
  lemma {:induction false} RunIsChronologicalExactly(sys: Sys, events: seq<Event>)
    requires Safe(sys) && Chronological(sys.img)
    ensures AlwaysChronological(sys, events) <==> AlwaysBehindHead(sys, events)
    decreases |events|
  {
    if events != [] {
      var next := Step(sys, events[0]);
      StepSafe(sys, events[0]);
      StepIsChronologicalExactly(sys, events[0]);
      if Chronological(next.img) {
        RunIsChronologicalExactly(next, events[1..]);
      }
    }
  }
}
