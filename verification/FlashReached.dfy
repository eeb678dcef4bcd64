/** Runs from a blank chip that reach the cases the results on order and restore have to make room for. */
module FlashReached {
  import opened Options
  import opened FlashLog
  import opened FlashAppend
  import opened FlashRuns
  import opened FlashOrder
  import opened FlashTheorems
  import opened FlashRestore
  import opened FlashOutcomes

  /** An append of bucket `b`, given the results of its probe and of its reading back; all else succeeds. */
  function Filed(b: nat, probe: Io, verify: Io): (e: Event)
    ensures e.Write? && (probe.Ok? && verify.Ok? ==> Quiet(e.env))
  {
    Write(0, 0, b, false, map[0 := b],
          AppendEnv(probe, Ok, EraseEnv(Ok, []), BodyEnv(Ok, true, true), CommitEnv(Ok, true), verify))
  }

  function RecordAt(k: nat): Record {
    Record(k + 1, 0, 0, k, false, map[0 := k])
  }

  /** The chip after a boot and `k` good appends of buckets 0, 1, 2 and so on. */
  function Filled(n: nat, k: nat): (sys: Sys)
    requires Geometry(n) && k <= n
    ensures WellSized(sys)
  {
    Sys(seq(n, i requires i >= 0 => if i < k then Committed(RecordAt(i)) else Erased),
        Some(Live(Ram(k + 1, if k < n then k else 0), NO_FAILURE, 0, 0, false)),
        if k == 0 then None else Some(Mark(k - 1, RecordAt(k - 1))))
  }

  /** Good appends of the buckets from `k` to `m`, and `rest` behind them. */
  function Filing(k: nat, m: nat, rest: seq<Event>): seq<Event>
    decreases m - k
  {
    if k >= m then rest else [Filed(k, Ok, Ok)] + Filing(k + 1, m, rest)
  }

  lemma FirstBoot(n: nat)
    requires Geometry(n)
    ensures Step(Blank(n), Boot(true)) == Filled(n, 0)
  {
    assert Blank(n).img == Filled(n, 0).img;
  }

  lemma FilesOne(n: nat, k: nat)
    requires Geometry(n) && k < n < SEQ_MAX
    ensures Step(Filled(n, k), Filed(k, Ok, Ok)) == Filled(n, k + 1)
    ensures SkipsCleanly(Filled(n, k), Filed(k, Ok, Ok)) && WritesForward(Filled(n, k), Filed(k, Ok, Ok))
  {
    var sys := Filled(n, k);
    assert Prepare(sys.img, k, Filed(k, Ok, Ok).env) == Prepared(sys.img, k, Ready);
    assert sys.img[k := Committed(RecordAt(k))] == Filled(n, k + 1).img;
  }

  /** A run: where it ends, and whether it is clean and its writers only go forward. */
  datatype Course = Course(end: Sys, clean: bool, forward: bool)

  ghost function CourseOf(sys: Sys, events: seq<Event>): Course
    requires WellSized(sys)
  {
    Course(Run(sys, events), CleanRun(sys, events), ForwardRun(sys, events))
  }

  lemma Chains(sys: Sys, e: Event, rest: seq<Event>)
    requires WellSized(sys) && SkipsCleanly(sys, e) && WritesForward(sys, e)
    ensures WellSized(Step(sys, e)) && CourseOf(sys, [e] + rest) == CourseOf(Step(sys, e), rest)
  {
    StepWellSized(sys, e);
    assert ([e] + rest)[1..] == rest;
  }

  lemma FilesNext(n: nat, k: nat, rest: seq<Event>)
    requires Geometry(n) && k < n < SEQ_MAX
    ensures CourseOf(Filled(n, k), [Filed(k, Ok, Ok)] + rest) == CourseOf(Filled(n, k + 1), rest)
  {
    FilesOne(n, k);
    Chains(Filled(n, k), Filed(k, Ok, Ok), rest);
  }

  /** Filling the chip is a clean run whose writer only goes forward. */
  lemma {:induction false} Files(n: nat, k: nat, m: nat, rest: seq<Event>)
    requires Geometry(n) && k <= m <= n < SEQ_MAX
    ensures CourseOf(Filled(n, k), Filing(k, m, rest)) == CourseOf(Filled(n, m), rest)
    decreases m - k
  {
    if k < m {
      var tail := Filing(k + 1, m, rest);
      assert CourseOf(Filled(n, k), Filing(k, m, rest)) == CourseOf(Filled(n, k + 1), tail) by {
        FilesNext(n, k, tail);
      }
      Files(n, k + 1, m, rest);
    }
  }

  lemma FromBlank(n: nat, m: nat, rest: seq<Event>)
    requires Geometry(n) && m <= n < SEQ_MAX
    ensures CourseOf(Blank(n), [Boot(true)] + Filing(0, m, rest)) == CourseOf(Filled(n, m), rest)
  {
    FirstBoot(n);
    Files(n, 0, m, rest);
    Chains(Blank(n), Boot(true), Filing(0, m, rest));
  }

  /** A chip filled once, two unreadable probes at its first slot and a good append: the log is out of order. */
  lemma DirtySkipHappens(n: nat)
    requires Geometry(n) && n <= SEQ_MAX - 4
    ensures var skip := [Filed(n, Failed, Ok), Filed(n, Failed, Ok), Filed(n, Ok, Ok)];
      !Chronological(Run(Blank(n), [Boot(true)] + Filing(0, n, skip)).img)
  {
    var e1, e3 := Filed(n, Failed, Ok), Filed(n, Ok, Ok);
    FromBlank(n, n, []);
    FromBlank(n, n, [e1, e1, e3]);
    var full := Filled(n, n);
    RunSafe(Blank(n), [Boot(true)] + Filing(0, n, []));
    assert IsRec(full.img, 0) && Seq(full.img, 0) == 1;
    DirtySkipBreaksOrder(full, e1, e1, e3);
  }

  const LAST: nat := WIDTH - 1

  /** A whole window of buckets, the last of them filed twice because it could not be read back the first time. */
  function Copied(n: nat): (img: Image)
    requires Geometry(n) && n > WIDTH
    ensures |img| == n
  {
    Filled(n, WIDTH).img[WIDTH := Committed(RecordAt(LAST).(sequence := WIDTH + 1))]
  }

  function CopyRun(): seq<Event> {
    [Boot(true)] + Filing(0, LAST, [Filed(LAST, Ok, Failed), Filed(LAST, Ok, Ok)])
  }

  lemma ReadsBackLate(n: nat)
    requires Geometry(n) && WIDTH < n < SEQ_MAX
    ensures var sys := Filled(n, LAST);
      var next := Step(sys, Filed(LAST, Ok, Failed));
      && next.img == Filled(n, WIDTH).img
      && next.live == Some(Live(Ram(WIDTH + 1, LAST), Fail(At(LAST), 1, 0, false), 0, 0, false))
      && SkipsCleanly(sys, Filed(LAST, Ok, Failed)) && WritesForward(sys, Filed(LAST, Ok, Failed))
  {
    var sys := Filled(n, LAST);
    assert Prepare(sys.img, LAST, Filed(LAST, Ok, Failed).env) == Prepared(sys.img, LAST, Ready);
    assert sys.img[LAST := Committed(RecordAt(LAST))] == Filled(n, WIDTH).img;
  }

  lemma CopyFiled(sys: Sys)
    requires WIDTH < |sys.img| < SEQ_MAX && WellSized(sys) && sys.img == Filled(|sys.img|, WIDTH).img
    requires sys.live == Some(Live(Ram(WIDTH + 1, LAST), Fail(At(LAST), 1, 0, false), 0, 0, false))
    ensures Step(sys, Filed(LAST, Ok, Ok)).img == Copied(|sys.img|)
    ensures SkipsCleanly(sys, Filed(LAST, Ok, Ok)) && WritesForward(sys, Filed(LAST, Ok, Ok))
  {
    assert Prepare(sys.img, LAST, Filed(LAST, Ok, Ok).env) == Prepared(sys.img, WIDTH, Ready);
  }

  lemma CopyRunReaches(n: nat)
    requires Geometry(n) && WIDTH < n < SEQ_MAX
    ensures Run(Blank(n), CopyRun()).img == Copied(n) && CleanRun(Blank(n), CopyRun()) &&
      ForwardRun(Blank(n), CopyRun())
  {
    var late, good := Filed(LAST, Ok, Failed), Filed(LAST, Ok, Ok);
    var sys := Filled(n, LAST);
    FromBlank(n, LAST, [late, good]);
    ReadsBackLate(n);
    CopyFiled(Step(sys, late));
    Chains(sys, late, [good]);
    Chains(Step(sys, late), good, []);
    StepWellSized(Step(sys, late), good);
    assert [late] + [good] == [late, good] && [good] + [] == [good];
  }

  lemma {:induction false} MeetsAll(n: nat, k: nat)
    requires Geometry(n) && k <= WIDTH < n
    ensures Met(Copied(n), [0], 0, WIDTH, k) == k
  {
    if k > 0 {
      MeetsAll(n, k - 1);
    }
  }

  lemma CopyIsHead(n: nat)
    requires Geometry(n) && WIDTH < n < SEQ_MAX
    ensures Head(Copied(n)) == WIDTH && !Distinct(Copied(n), [0], 0) && LatestFor(Copied(n), [0], 0, 0, 0, 0)
  {
    var img := Copied(n);
    assert IsRec(img, WIDTH) && Seq(img, WIDTH) == WIDTH + 1;
    assert forall p | IsRec(img, p) && p != WIDTH :: Seq(img, p) <= WIDTH;
    assert Mine(img, [0], 0, LAST) && Mine(img, [0], 0, WIDTH);
  }

  /** The retry of an append that could not be read back leaves two records of one bucket, and in a full
      window the second costs the oldest bucket: its record is there, and the restore shows a gap. */
  lemma CopyCostsOldest(n: nat)
    requires Geometry(n) && WIDTH < n < SEQ_MAX
    ensures CleanRun(Blank(n), CopyRun()) && ForwardRun(Blank(n), CopyRun())
    ensures var img := Run(Blank(n), CopyRun()).img;
      && Head(img) >= 0 && !Distinct(img, [0], 0)
      && LatestFor(img, [0], 0, 0, 0, 0) && img[0].rec.values[0] != NO_READING
      && var ix := Walk(img, [0], 0, Head(img), n);
        && ix.newest == Some(LAST)
        && Restored(img, [0], 0, 0, Head(img), 0) == NO_READING
  {
    var img := Copied(n);
    CopyRunReaches(n);
    CopyIsHead(n);
    assert Mine(img, [0], 0, WIDTH);
    assert Walk(img, [0], 0, WIDTH, 1).newest == Some(LAST);
    LaterStepsKeep(img, [0], 0, WIDTH, 1, n, WIDTH);
    MeetsAll(n, WIDTH);
    RestoreAfterRun(n, CopyRun(), [0], 0, 0, 0);
  }
}
