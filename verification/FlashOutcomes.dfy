/** What the earlier results come to for whole runs from a blank chip. */
module FlashOutcomes {
  import opened Options
  import opened FlashLog
  import opened FlashAppend
  import opened FlashRuns
  import opened FlashOrder
  import opened FlashTheorems
  import opened FlashBudget
  import opened FlashRestore

  predicate SameSeries(a: Record, b: Record) {
    a.source == b.source && a.scope == b.scope && !a.manifest && !b.manifest
  }

  /** Within a series, later records never carry earlier buckets. */
  ghost predicate Forward(img: Image) {
    forall p, q | IsRec(img, p) && IsRec(img, q) && SameSeries(img[p].rec, img[q].rec) && Seq(img, p) < Seq(img, q) ::
      img[p].rec.bucket <= img[q].rec.bucket
  }

  /** The writer's cursor has not gone back behind a record of the same series. */
  ghost predicate WritesForward(sys: Sys, e: Event)
    requires WellSized(sys)
  {
    e.Write? && sys.live.Some? ==>
      forall p | IsRec(sys.img, p) && SameSeries(sys.img[p].rec, RecordOf(e, sys.live.value.ram.next)) ::
        sys.img[p].rec.bucket <= e.bucket
  }

  ghost predicate ForwardRun(sys: Sys, events: seq<Event>)
    requires WellSized(sys)
    decreases |events|
  {
    events == [] ||
    (StepWellSized(sys, events[0]); WritesForward(sys, events[0]) && ForwardRun(Step(sys, events[0]), events[1..]))
  }

  lemma StepKeepsForward(sys: Sys, e: Event)
    requires Safe(sys) && Forward(sys.img) && WritesForward(sys, e)
    ensures Forward(Step(sys, e).img)
  {
    if e.Write? && sys.live.Some? && sys.live.value.ram.next != 0 {
      var img' := Step(sys, e).img;
      var rec := RecordOf(e, sys.live.value.ram.next);
      forall p, q | IsRec(img', p) && IsRec(img', q) && SameSeries(img'[p].rec, img'[q].rec) &&
        Seq(img', p) < Seq(img', q)
        ensures img'[p].rec.bucket <= img'[q].rec.bucket
      {
        StepChanges(sys, e, p);
        StepChanges(sys, e, q);
        if IsRec(sys.img, p) && img'[p] == sys.img[p] {
          assert Seq(sys.img, p) < rec.sequence;
        }
        if IsRec(sys.img, q) && img'[q] == sys.img[q] {
          assert Seq(sys.img, q) < rec.sequence;
        }
      }
    }
  }

  lemma {:induction false} ForwardRunKeeps(sys: Sys, events: seq<Event>)
    requires Safe(sys) && Forward(sys.img) && ForwardRun(sys, events)
    ensures Forward(Run(sys, events).img)
    decreases |events|
  {
    if events != [] {
      StepSafe(sys, events[0]);
      StepKeepsForward(sys, events[0]);
      ForwardRunKeeps(Step(sys, events[0]), events[1..]);
    }
  }

  /** After any run in which no dirty sector was skipped and no writer went back, the restore gives for every
      bucket of the newest window the value of its latest record, if and only if fewer than a window's worth of
      the source's records lie in front of that one; otherwise, and where no record has one, it gives a gap. */
  lemma RestoreAfterRun(n: nat, events: seq<Event>, scopes: seq<int>, src: nat, ring: nat, b: int)
    requires Geometry(n) && CleanRun(Blank(n), events) && ForwardRun(Blank(n), events)
    requires Head(Run(Blank(n), events).img) >= 0
    requires var img := Run(Blank(n), events).img;
      var ix := Walk(img, scopes, src, Head(img), n);
      ix.newest.Some? && ix.newest.value - (WIDTH - 1) <= b <= ix.newest.value
    ensures var img := Run(Blank(n), events).img;
      var v := Restored(img, scopes, src, ring, Head(img), b);
      && (forall p | LatestFor(img, scopes, src, ring, b, p) ::
            v == if InFront(img, scopes, src, Head(img), p) < WIDTH then img[p].rec.values[ring] else NO_READING)
      && ((forall p | Mine(img, scopes, src, p) :: !Feeds(img, ring, b, p)) ==> v == NO_READING)
  {
    var img := Run(Blank(n), events).img;
    LogIsChronological(n, events);
    ForwardRunKeeps(Blank(n), events);
    LastWriterWins(img, scopes, src, ring, Head(img), b);
  }

  /** An append cut in the middle of its body. */
  function TornEvent(): (e: Event)
    ensures e.Write?
  {
    Write(0, 0, 0, false, map[],
          AppendEnv(Ok, Ok, EraseEnv(Ok, []), BodyEnv(Cut, false, true), CommitEnv(Ok, false), Ok))
  }

  function GoodEvent(): (e: Event)
    ensures e.Write? && Quiet(e.env)
  {
    Write(0, 0, 0, false, map[], AppendEnv(Ok, Ok, EraseEnv(Ok, []), BodyEnv(Ok, true, true), CommitEnv(Ok, true), Ok))
  }

  /** One good append, one cut in its body, and a boot leave the cursor on a torn slot. */
  lemma TornStart(n: nat)
    requires Geometry(n)
    ensures var sys := Run(Blank(n), [Boot(true), GoodEvent(), TornEvent(), Boot(true)]);
      Safe(sys) && EpisodeStart(sys) && !Usable(sys) && 0 < sys.live.value.ram.next <= SEQ_MAX - 4
  {
    var s0 := Blank(n);
    var s1 := Step(s0, Boot(true));
    var s2 := Step(s1, GoodEvent());
    var s3 := Step(s2, TornEvent());
    var s4 := Step(s3, Boot(true));
    RunSafe(s0, [Boot(true), GoodEvent(), TornEvent(), Boot(true)]);
    assert s1.live.value.ram == Ram(1, 0);
    assert s2.img[0].Committed? && s2.live.value.ram == Ram(2, 1);
    assert s3.img == s2.img[1 := Torn];
    assert Head(s3.img) == 0 by {
      assert IsRec(s3.img, 0) && Seq(s3.img, 0) == 1;
      assert forall p | IsRec(s3.img, p) :: p == 0;
    }
    RunThree(s1, GoodEvent(), TornEvent(), Boot(true));
    assert [Boot(true), GoodEvent(), TornEvent(), Boot(true)][1..] == [GoodEvent(), TornEvent(), Boot(true)];
  }

  /** So the abandon budget can be overrun on a chip that has done nothing but lose power once. */
  lemma BudgetOverrunHappens(n: nat)
    requires Geometry(n)
    ensures exists before, refused :: var sys := Run(Blank(n), before);
      EpisodeStart(sys) && Episode(sys, refused) && Run(sys, refused).live.Some? &&
        Run(sys, refused).live.value.abandoned == BUDGET + 1
  {
    TornStart(n);
    var before := [Boot(true), GoodEvent(), TornEvent(), Boot(true)];
    OverrunExists(Run(Blank(n), before));
  }
}
