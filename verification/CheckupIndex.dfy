/**
 * Which checkup records a boot restores. A replay appends hours again, so the journal's checkup hours do not
 * descend on the way back from the head; one bounded index picks the newest copy of each hour of the last day.
 */
module CheckupIndex {
  import opened Options
  import opened Counting
  import CheckupJournal

  const SPAN: int := 22
  const CAP: nat := 45

  /** The newest record's hour, and the hours kept so far, relative to it, in visiting order. */
  datatype Index = Index(anchor: Option<int>, offsets: seq<int>)
  const EMPTY := Index(None, [])

  datatype Verdict = Keep | Skip | Stop

  /** One visited record. */
  function Visit(ix: Index, bucket: int): (r: (Index, Verdict)) {
    if bucket < 0 then (ix, Skip)
    else
      var anchor := if ix.anchor.None? then bucket else ix.anchor.value;
      var delta := bucket - anchor;
      var anchored := ix.(anchor := Some(anchor));
      if delta < -2 * SPAN then (anchored, Stop)
      else if delta < -SPAN || delta > SPAN || delta in ix.offsets then (anchored, Skip)
      else (anchored.(offsets := ix.offsets + [delta]), Keep)
  }

  /** The index, the places of the records it kept, and whether it has stopped the walk. */
  datatype Walked = Walked(ix: Index, kept: seq<nat>, stopped: bool)

  /** The walk over the first `k` records; `buckets` lists their hours back from the head. */
  function Walk(buckets: seq<int>, k: nat): (w: Walked)
    requires k <= |buckets|
  {
    if k == 0 then Walked(EMPTY, [], false)
    else
      var w := Walk(buckets, k - 1);
      if w.stopped then w
      else
        var (ix, verdict) := Visit(w.ix, buckets[k - 1]);
        Walked(ix, if verdict.Keep? then w.kept + [k - 1] else w.kept, verdict.Stop?)
  }

  /** The newest hour kept. */
  function Newest(offsets: seq<int>): (m: int)
    requires offsets != []
    ensures m in offsets && forall i | 0 <= i < |offsets| :: offsets[i] <= m
  {
    if |offsets| == 1 then offsets[0]
    else
      var rest := Newest(offsets[1..]);
      assert forall i | 1 <= i < |offsets| :: offsets[i] == offsets[1..][i - 1];
      if offsets[0] > rest then offsets[0] else rest
  }

  /** The places of the kept records within a day of the newest kept hour. */
  function Clipped(w: Walked, k: nat): (places: seq<nat>)
    requires k <= |w.kept| == |w.ix.offsets|
    ensures forall p :: p in places <==>
      exists i :: 0 <= i < k && w.kept[i] == p && Newest(w.ix.offsets) - w.ix.offsets[i] <= SPAN
  {
    if k == 0 then []
    else
      var before := Clipped(w, k - 1);
      if Newest(w.ix.offsets) - w.ix.offsets[k - 1] <= SPAN then before + [w.kept[k - 1]] else before
  }

  /** Every record written before another is at most a replay's reach newer than that one. */
  ghost predicate Replayable(buckets: seq<int>) {
    forall i, j | 0 <= i < j < |buckets| && buckets[i] >= 0 && buckets[j] >= 0 :: buckets[j] <= buckets[i] + SPAN
  }

  /** No copy of the hour was written later. */
  ghost predicate NewestCopy(buckets: seq<int>, p: int)
    requires 0 <= p < |buckets|
  {
    forall q | 0 <= q < p :: buckets[q] != buckets[p]
  }

  ghost predicate Candidate(buckets: seq<int>, anchor: int, p: int)
    requires 0 <= p < |buckets|
  {
    buckets[p] >= 0 && anchor - SPAN <= buckets[p] <= anchor + SPAN && NewestCopy(buckets, p)
  }

  /** The index lists the records it kept, by their distance from the anchor. */
  ghost predicate Lists(buckets: seq<int>, k: nat, w: Walked) {
    && |w.kept| == |w.ix.offsets|
    && (w.ix.anchor.None? ==> w.kept == [] && !w.stopped)
    && (forall i | 0 <= i < |w.kept| ::
          w.kept[i] < k <= |buckets| && w.ix.anchor.Some? && w.ix.offsets[i] == buckets[w.kept[i]] - w.ix.anchor.value)
    && (forall i, j | 0 <= i < j < |w.kept| :: w.kept[i] < w.kept[j] && w.ix.offsets[i] != w.ix.offsets[j])
    && (forall i | 0 <= i < |w.kept| :: -SPAN <= w.ix.offsets[i] <= SPAN)
  }

  lemma {:induction false} WalkLists(buckets: seq<int>, k: nat)
    requires k <= |buckets|
    ensures Lists(buckets, k, Walk(buckets, k))
  {
    if k > 0 {
      WalkLists(buckets, k - 1);
    }
  }

  /** The anchor is the hour of the newest record that has one. */
  ghost predicate Anchored(buckets: seq<int>, k: nat, anchor: Option<int>)
    requires k <= |buckets|
  {
    && (anchor.None? ==> forall p | 0 <= p < k :: buckets[p] < 0)
    && (anchor.Some? ==> anchor.value >= 0)
    && (anchor.Some? ==>
          exists a :: 0 <= a < k && buckets[a] == anchor.value && forall p | 0 <= p < a :: buckets[p] < 0)
  }

  lemma {:induction false} WalkAnchors(buckets: seq<int>, k: nat)
    requires k <= |buckets|
    ensures Anchored(buckets, k, Walk(buckets, k).ix.anchor)
  {
    if k > 0 {
      WalkAnchors(buckets, k - 1);
      WalkLists(buckets, k - 1);
      var w := Walk(buckets, k - 1);
      if w.ix.anchor.None? && buckets[k - 1] >= 0 {
        assert buckets[k - 1] == Walk(buckets, k).ix.anchor.value;
      }
    }
  }

  lemma {:induction false} NewestCopyExists(buckets: seq<int>, q: nat) returns (p: nat)
    requires q < |buckets|
    ensures p <= q && buckets[p] == buckets[q] && NewestCopy(buckets, p)
  {
    p := q;
    if !NewestCopy(buckets, q) {
      var r :| 0 <= r < q && buckets[r] == buckets[q];
      p := NewestCopyExists(buckets, r);
    }
  }

  /** What makes it sound to stop: nothing behind that place comes near the anchor again. */
  ghost predicate StoppedBehind(buckets: seq<int>, k: nat, anchor: int)
    requires k <= |buckets|
  {
    exists s :: 0 <= s < k && 0 <= buckets[s] < anchor - 2 * SPAN
  }

  /** The hour's bit is set exactly when a newer copy of it has been kept. */
  lemma SeenExactly(buckets: seq<int>, n: nat, w: Walked)
    requires n < |buckets| && Lists(buckets, n, w) && w.ix.anchor.Some?
    requires forall p: nat | p < n :: p in w.kept <==> Candidate(buckets, w.ix.anchor.value, p)
    requires buckets[n] >= 0 && -SPAN <= buckets[n] - w.ix.anchor.value <= SPAN
    ensures buckets[n] - w.ix.anchor.value in w.ix.offsets <==> !NewestCopy(buckets, n)
  {
    var delta := buckets[n] - w.ix.anchor.value;
    if delta in w.ix.offsets {
      var i :| 0 <= i < |w.ix.offsets| && w.ix.offsets[i] == delta;
      assert buckets[w.kept[i]] == buckets[n];
    }
    if !NewestCopy(buckets, n) {
      var q :| 0 <= q < n && buckets[q] == buckets[n];
      var p := NewestCopyExists(buckets, q);
      assert p in w.kept;
      var i :| 0 <= i < |w.kept| && w.kept[i] == p;
      assert w.ix.offsets[i] == delta;
    }
  }

  /** What the walk keeps: the newest copies of the hours around the anchor. */
  ghost predicate Keeps(buckets: seq<int>, k: nat, w: Walked)
    requires k <= |buckets|
  {
    w.ix.anchor.Some? ==>
      && (w.stopped ==> StoppedBehind(buckets, k, w.ix.anchor.value))
      && forall p: nat | p < k :: p in w.kept <==> Candidate(buckets, w.ix.anchor.value, p)
  }

  /** The record that becomes the anchor is the first one kept. */
  lemma FirstKept(buckets: seq<int>, n: nat)
    requires n < |buckets| && Walk(buckets, n).ix.anchor.None? && buckets[n] >= 0
    ensures Keeps(buckets, n + 1, Walk(buckets, n + 1))
  {
    WalkLists(buckets, n);
    WalkAnchors(buckets, n);
    assert Walk(buckets, n + 1).kept == [n];
  }

  /** A record is kept exactly when it is a candidate. */
  lemma VerdictIs(buckets: seq<int>, n: nat, w: Walked)
    requires n < |buckets| && Lists(buckets, n, w) && Keeps(buckets, n, w) && w.ix.anchor.Some?
    ensures var (ix, verdict) := Visit(w.ix, buckets[n]);
      && ix.anchor == w.ix.anchor
      && (verdict.Keep? <==> Candidate(buckets, w.ix.anchor.value, n))
      && (verdict.Stop? ==> 0 <= buckets[n] < w.ix.anchor.value - 2 * SPAN)
  {
    if buckets[n] >= 0 && -SPAN <= buckets[n] - w.ix.anchor.value <= SPAN {
      SeenExactly(buckets, n, w);
    }
  }

  lemma BehindStop(buckets: seq<int>, n: nat, anchor: int)
    requires Replayable(buckets) && n < |buckets| && StoppedBehind(buckets, n, anchor)
    ensures !Candidate(buckets, anchor, n)
  {
    var s :| 0 <= s < n && 0 <= buckets[s] < anchor - 2 * SPAN;
    if buckets[n] >= 0 {
      assert buckets[n] <= buckets[s] + SPAN;
    }
  }

  /** One more record, kept exactly when it is a candidate. */
  lemma KeepsOneMore(buckets: seq<int>, n: nat, w: Walked, w': Walked)
    requires n < |buckets| && Keeps(buckets, n, w) && w.ix.anchor.Some? && w'.ix.anchor == w.ix.anchor
    requires forall i | 0 <= i < |w.kept| :: w.kept[i] < n
    requires w'.kept == if Candidate(buckets, w.ix.anchor.value, n) then w.kept + [n] else w.kept
    requires w'.stopped ==> StoppedBehind(buckets, n + 1, w.ix.anchor.value)
    ensures Keeps(buckets, n + 1, w')
  {
  }

  /** It keeps them whether or not it has stopped. */
  lemma {:induction false} WalkKeeps(buckets: seq<int>, k: nat)
    requires k <= |buckets| && Replayable(buckets)
    ensures Keeps(buckets, k, Walk(buckets, k))
  {
    if k > 0 {
      var n := k - 1;
      var w := Walk(buckets, n);
      WalkKeeps(buckets, n);
      WalkLists(buckets, n);
      if w.ix.anchor.None? {
        if buckets[n] >= 0 {
          FirstKept(buckets, n);
        }
      } else {
        if w.stopped {
          BehindStop(buckets, n, w.ix.anchor.value);
        } else {
          VerdictIs(buckets, n, w);
        }
        KeepsOneMore(buckets, n, w, Walk(buckets, k));
      }
    }
  }

  /** The newest hour kept, where the writer continues; without one there is none. */
  function NewestHour(w: Walked): Option<int> {
    if w.ix.anchor.None? || w.ix.offsets == [] then None else Some(w.ix.anchor.value + Newest(w.ix.offsets))
  }

  /** A kept record lies at its own distance from the anchor. */
  lemma KeptAt(buckets: seq<int>, p: nat) returns (i: nat)
    requires Replayable(buckets) && p < |buckets|
    requires var w := Walk(buckets, |buckets|); w.ix.anchor.Some? && Candidate(buckets, w.ix.anchor.value, p)
    ensures var w := Walk(buckets, |buckets|);
      i < |w.kept| == |w.ix.offsets| && w.kept[i] == p && w.ix.offsets[i] == buckets[p] - w.ix.anchor.value
  {
    var w := Walk(buckets, |buckets|);
    WalkLists(buckets, |buckets|);
    WalkKeeps(buckets, |buckets|);
    i :| 0 <= i < |w.kept| && w.kept[i] == p;
  }

  /** No record is newer than the anchor by more than a replay's reach. */
  lemma AnchorBounds(buckets: seq<int>, p: nat)
    requires Replayable(buckets) && p < |buckets| && buckets[p] >= 0
    ensures var w := Walk(buckets, |buckets|); w.ix.anchor.Some? && buckets[p] <= w.ix.anchor.value + SPAN
  {
    WalkAnchors(buckets, |buckets|);
    var anchor := Walk(buckets, |buckets|).ix.anchor.value;
    var a :| 0 <= a < |buckets| && buckets[a] == anchor && forall q | 0 <= q < a :: buckets[q] < 0;
    assert a <= p;
  }

  /** The anchor is kept, and it is its hour's newest copy. */
  lemma AnchorKept(buckets: seq<int>) returns (i: nat)
    requires Replayable(buckets) && Walk(buckets, |buckets|).ix.anchor.Some?
    ensures var w := Walk(buckets, |buckets|); i < |w.ix.offsets| && w.ix.offsets[i] == 0
  {
    WalkAnchors(buckets, |buckets|);
    var anchor := Walk(buckets, |buckets|).ix.anchor.value;
    var a :| 0 <= a < |buckets| && buckets[a] == anchor && forall q | 0 <= q < a :: buckets[q] < 0;
    i := KeptAt(buckets, a);
  }

  /** The newest hour kept is the newest hour of the journal. */
  lemma NewestOfAll(buckets: seq<int>, p: nat)
    requires Replayable(buckets) && p < |buckets| && buckets[p] >= 0
    ensures var newest := NewestHour(Walk(buckets, |buckets|)); newest.Some? && buckets[p] <= newest.value
  {
    var w := Walk(buckets, |buckets|);
    AnchorBounds(buckets, p);
    var zero := AnchorKept(buckets);
    if w.ix.anchor.value - SPAN <= buckets[p] {
      var q := NewestCopyExists(buckets, p);
      var i := KeptAt(buckets, q);
    }
  }

  lemma NewestIsThere(buckets: seq<int>)
    ensures var newest := NewestHour(Walk(buckets, |buckets|));
      newest.Some? ==> newest.value >= 0 && exists p :: 0 <= p < |buckets| && buckets[p] == newest.value
  {
    var w := Walk(buckets, |buckets|);
    WalkLists(buckets, |buckets|);
    if NewestHour(w).Some? {
      KeptNotNegative(buckets, |buckets|);
      var i :| 0 <= i < |w.ix.offsets| && w.ix.offsets[i] == Newest(w.ix.offsets);
      assert buckets[w.kept[i]] == NewestHour(w).value;
    }
  }

  lemma {:induction false} KeptNotNegative(buckets: seq<int>, k: nat)
    requires k <= |buckets|
    ensures forall p | p in Walk(buckets, k).kept :: p < |buckets| && buckets[p] >= 0
  {
    if k > 0 {
      KeptNotNegative(buckets, k - 1);
    }
  }

  /** What the boot restores: the kept records within a day of the newest hour. */
  function Restored(buckets: seq<int>): (places: seq<nat>) {
    WalkLists(buckets, |buckets|);
    var w := Walk(buckets, |buckets|);
    Clipped(w, |w.kept|)
  }

  lemma RestoredOnly(buckets: seq<int>, p: nat)
    requires Replayable(buckets) && p < |buckets| && NewestHour(Walk(buckets, |buckets|)).Some?
    requires p in Restored(buckets)
    ensures buckets[p] >= 0 && NewestHour(Walk(buckets, |buckets|)).value - SPAN <= buckets[p] && NewestCopy(buckets, p)
  {
    var w := Walk(buckets, |buckets|);
    WalkLists(buckets, |buckets|);
    WalkKeeps(buckets, |buckets|);
    var i :| 0 <= i < |w.kept| && w.kept[i] == p && Newest(w.ix.offsets) - w.ix.offsets[i] <= SPAN;
    assert w.kept[i] in w.kept;
  }

  lemma RestoredAll(buckets: seq<int>, p: nat)
    requires Replayable(buckets) && p < |buckets| && NewestHour(Walk(buckets, |buckets|)).Some?
    requires buckets[p] >= 0 && NewestHour(Walk(buckets, |buckets|)).value - SPAN <= buckets[p] &&
      NewestCopy(buckets, p)
    ensures p in Restored(buckets)
  {
    AnchorBounds(buckets, p);
    var zero := AnchorKept(buckets);
    var i := KeptAt(buckets, p);
  }

  /** With replays that reach no farther back than a day, a boot restores exactly the newest copy of each hour
      of the day that ends with the newest hour in the journal; that hour is where the writer continues. */
  lemma RestoresNewestCopies(buckets: seq<int>)
    requires Replayable(buckets) && exists p :: 0 <= p < |buckets| && buckets[p] >= 0
    ensures var newest := NewestHour(Walk(buckets, |buckets|));
      && newest.Some?
      && (exists p :: 0 <= p < |buckets| && buckets[p] == newest.value)
      && (forall p | 0 <= p < |buckets| :: buckets[p] <= newest.value)
      && forall p: nat | p < |buckets| ::
           p in Restored(buckets) <==>
             buckets[p] >= 0 && newest.value - SPAN <= buckets[p] && NewestCopy(buckets, p)
  {
    NewestIsThere(buckets);
    forall p: nat | p < |buckets| && buckets[p] >= 0
      ensures NewestHour(Walk(buckets, |buckets|)).Some? && buckets[p] <= NewestHour(Walk(buckets, |buckets|)).value
    {
      NewestOfAll(buckets, p);
    }
    forall p: nat | p < |buckets|
      ensures p in Restored(buckets) <==>
        buckets[p] >= 0 && NewestHour(Walk(buckets, |buckets|)).value - SPAN <= buckets[p] && NewestCopy(buckets, p)
    {
      if p in Restored(buckets) {
        RestoredOnly(buckets, p);
      } else if buckets[p] >= 0 && NewestHour(Walk(buckets, |buckets|)).value - SPAN <= buckets[p] &&
        NewestCopy(buckets, p) {
        RestoredAll(buckets, p);
      }
    }
  }

  /** One sweep of the writer: the hours it appended, oldest first, and the newest completed hour at the time. */
  datatype Sweep = Sweep(first: int, last: int, newest: int)

  /** A sweep begins at most a day behind the newest hour and ends, interrupted or not, at or before it. */
  predicate Reaches(s: Sweep) {
    s.newest - SPAN <= s.first && s.last <= s.newest
  }

  function Backwards(first: int, last: int): (hours: seq<int>)
    ensures forall i | 0 <= i < |hours| :: first <= hours[i] == last - i
    decreases last - first
  {
    if last < first then [] else [last] + Backwards(first, last - 1)
  }

  /** The journal's hours back from the head after these sweeps. */
  function BackFrom(sweeps: seq<Sweep>): seq<int> {
    if sweeps == [] then []
    else
      var n := |sweeps| - 1;
      Backwards(sweeps[n].first, sweeps[n].last) + BackFrom(sweeps[..n])
  }

  /** A sweep in front of older records that are no newer than its own newest hour. */
  lemma JoinReplayable(head: seq<int>, rest: seq<int>, newest: int)
    requires Replayable(rest) && forall i | 0 <= i < |rest| :: rest[i] <= newest
    requires forall i | 0 <= i < |head| :: newest - SPAN <= head[i] <= newest
    requires forall i, j | 0 <= i < j < |head| :: head[j] < head[i]
    ensures Replayable(head + rest) && forall i | 0 <= i < |head + rest| :: (head + rest)[i] <= newest
  {
  }

  /** Sweeps under a clock that does not go back leave a journal that can be restored. */
  lemma {:induction false} SweepsAreReplayable(sweeps: seq<Sweep>, newest: int)
    requires forall i | 0 <= i < |sweeps| :: Reaches(sweeps[i]) && sweeps[i].newest <= newest
    requires forall i, j | 0 <= i < j < |sweeps| :: sweeps[i].newest <= sweeps[j].newest
    ensures Replayable(BackFrom(sweeps))
    ensures forall i | 0 <= i < |BackFrom(sweeps)| :: BackFrom(sweeps)[i] <= newest
  {
    if sweeps != [] {
      var n := |sweeps| - 1;
      SweepsAreReplayable(sweeps[..n], sweeps[n].newest);
      JoinReplayable(Backwards(sweeps[n].first, sweeps[n].last), BackFrom(sweeps[..n]), sweeps[n].newest);
    }
  }

  /** What the writer appends from any cursor and any pending revision is such a sweep. */
  lemma WriterSweeps(r: CheckupJournal.Revision, acked: Option<int>, newest: int, current: nat, live: nat,
                     after: Option<int>)
    requires live <= SPAN + 1
    ensures var hours := CheckupJournal.Appended(r, acked, newest, current, live, after);
      hours != [] ==> Reaches(Sweep(hours[0], newest, newest)) && hours == CheckupJournal.Span(hours[0], newest)
  {
    CheckupJournal.AppendsSpan(r, acked, newest, current, live, after);
    CheckupJournal.TargetInRange(r, acked, newest, current, live, after);
  }

  /** As many distinct offsets as the index has room for, and no more. */
  lemma DistinctFit(f: seq<int>)
    requires forall i, j | 0 <= i < j < |f| :: f[i] != f[j]
    requires forall i | 0 <= i < |f| :: -SPAN <= f[i] <= SPAN
    ensures |f| <= CAP
  {
    Within(Elements(f), Interval(-SPAN, CAP));
  }

  /** The index in its fixed places; `seen` are the set bits. */
  class Bitmap {
    var anchor: Option<int>
    var seen: set<int>
    var count: nat
    const offset: array<int>

    ghost predicate Valid()
      reads this, offset
    {
      && offset.Length == CAP && count <= CAP
      && (forall b | b in seen :: 0 <= b < CAP)
      && (forall d :: d + SPAN in seen <==> d in offset[..count])
      && (forall i, j | 0 <= i < j < count :: offset[i] != offset[j])
      && (forall i | 0 <= i < count :: -SPAN <= offset[i] <= SPAN)
    }

    ghost function Now(): Index
      reads this, offset
      requires Valid()
    {
      Index(anchor, offset[..count])
    }

    constructor ()
      ensures Valid() && Now() == EMPTY && fresh(offset)
    {
      anchor, seen, count := None, {}, 0;
      offset := new int[CAP](_ => 0);
    }

    /** One bit for each hour of the range: the places never run out. */
    method Step(bucket: int) returns (verdict: Verdict)
      requires Valid()
      modifies this, offset
      ensures Valid() && (Now(), verdict) == Visit(old(Now()), bucket)
    {
      if bucket < 0 {
        return Skip;
      }
      if anchor.None? {
        anchor := Some(bucket);
      }
      var delta := bucket - anchor.value;
      if bucket < anchor.value && anchor.value - bucket > 2 * SPAN {
        return Stop;
      }
      if (if bucket < anchor.value then anchor.value - bucket > SPAN else bucket - anchor.value > SPAN) {
        return Skip;
      }
      if delta + SPAN in seen {
        return Skip;
      }
      assert delta !in offset[..count];
      DistinctFit(offset[..count] + [delta]);
      seen := seen + {delta + SPAN};
      offset[count] := delta;
      count := count + 1;
      assert offset[..count] == old(offset[..count]) + [delta];
      return Keep;
    }

    method NewestKept() returns (newest: Option<int>)
      requires Valid() && (count > 0 ==> anchor.Some?)
      ensures newest == if count == 0 then None else Some(anchor.value + Newest(offset[..count]))
    {
      if count == 0 {
        return None;
      }
      var m := offset[0];
      for i := 1 to count
        invariant m in offset[..count] && forall j | 0 <= j < i :: offset[j] <= m
      {
        if offset[i] > m {
          m := offset[i];
        }
      }
      return Some(anchor.value + m);
    }

    /** The walk back from the head. */
    method WalkBack(buckets: seq<int>) returns (slots: seq<nat>, ghost w: Walked)
      requires Valid() && Now() == EMPTY
      modifies this, offset
      ensures Valid() && w == Walk(buckets, |buckets|) && Now() == w.ix && slots == w.kept
      ensures |slots| == count && (count > 0 ==> anchor.Some?)
    {
      slots := [];
      var k, done := 0, false;
      while k < |buckets|
        invariant k <= |buckets| && Valid()
        invariant Walk(buckets, k) == Walked(Now(), slots, done)
      {
        if !done {
          var verdict := Step(buckets[k]);
          if verdict.Stop? {
            done := true;
          } else if verdict.Keep? {
            slots := slots + [k];
          }
        }
        k := k + 1;
      }
      w := Walk(buckets, k);
      WalkLists(buckets, k);
    }

    /** The candidates within a day of the newest one. */
    method Clip(ghost w: Walked, slots: seq<nat>, newest: int) returns (places: seq<nat>)
      requires Valid() && anchor.Some? && w.ix == Now() && w.kept == slots && |slots| == count > 0
      requires newest == anchor.value + Newest(offset[..count])
      ensures places == Clipped(w, |slots|)
    {
      places := [];
      for i := 0 to |slots|
        invariant places == Clipped(w, i)
      {
        if newest - (anchor.value + offset[i]) <= SPAN {
          places := places + [slots[i]];
        }
      }
    }

    /** The checkup's part of the scan: the walk, then the candidates clipped to one day. */
    method Scan(buckets: seq<int>) returns (places: seq<nat>, newest: Option<int>)
      requires Valid() && Now() == EMPTY
      modifies this, offset
      ensures places == Restored(buckets) && newest == NewestHour(Walk(buckets, |buckets|))
    {
      var slots, w := WalkBack(buckets);
      newest := NewestKept();
      places := [];
      if newest.Some? {
        places := Clip(w, slots, newest.value);
      }
    }
  }
}
