/**
 * The shared five-minute raster of the trend rings. Several tasks read the clock, wait for the lock, and
 * then advance the raster to the bucket they read; whoever comes late must not move it back.
 */
module Raster {
  import opened Options

  const WIDTH: nat := 288

  datatype Sample = NoReading | HeldOver | Reading(tenths: int)

  const ON := Reading(10)

  /** Completed buckets, newest first, and the open one. */
  datatype Ring = Ring(held: seq<Sample>, pending: Sample)

  /** `log` keeps, for each ring, everything folded into each bucket since the ring's last reset; `short`
      marks rings that were last reset by a visitor whose bucket was already behind. */
  datatype State = State(
    rings: seq<Ring>,
    events: seq<bool>,
    open: Option<nat>,
    last: int,
    log: seq<map<int, seq<Sample>>>,
    short: seq<bool>)

  /** A visit under the lock: the bucket its clock reading fell into, which rings it resets, and the sample
      it folds into each ring, if any. */
  datatype Visit = Visit(bucket: nat, resets: seq<bool>, folds: seq<Option<Sample>>)

  function Init(events: seq<bool>): State {
    State(seq(|events|, _ => Ring([], NoReading)), events, None, -1, seq(|events|, _ => map[]),
          seq(|events|, _ => false))
  }

  function Capped(n: nat): nat {
    if n < WIDTH then n else WIDTH
  }

  function Gaps(n: nat): seq<Sample> {
    seq(n, _ => NoReading)
  }

  /** The newest WIDTH entries. */
  function Fitted(held: seq<Sample>): seq<Sample> {
    held[..Capped(|held|)]
  }

  function Gapped(completed: nat): Ring {
    Ring(Gaps(Capped(completed)), NoReading)
  }

  /** Closes the open bucket; buckets nobody visited become gaps. */
  function Committed(r: Ring, skipped: nat): Ring {
    Ring(Fitted(Gaps(Capped(skipped)) + [r.pending] + r.held), NoReading)
  }

  /** A reading beats absence and an earlier reading; an observed event is never taken back. */
  function Fold(event: bool, pending: Sample, s: Sample): Sample {
    if event && pending == ON then pending
    else if s.Reading? || !pending.Reading? then s
    else pending
  }

  function Folded(event: bool, samples: seq<Sample>): Sample {
    if samples == [] then NoReading else Fold(event, Folded(event, samples[..|samples| - 1]), samples[|samples| - 1])
  }

  function LogOf(log: map<int, seq<Sample>>, bucket: int): seq<Sample> {
    if bucket in log then log[bucket] else []
  }

  /** Moves the raster to `bucket`, unless it is there already or further. */
  function Advanced(st: State, bucket: nat): State {
    if st.open.None? then
      st.(rings := seq(|st.rings|, _ => Gapped(bucket)), log := seq(|st.rings|, _ => map[]),
          short := seq(|st.rings|, _ => false), open := Some(bucket),
          last := if bucket > 0 then bucket - 1 else st.last)
    else if bucket > st.open.value then
      st.(rings := seq(|st.rings|,
                       i requires 0 <= i < |st.rings| => Committed(st.rings[i], bucket - st.open.value - 1)),
          open := Some(bucket), last := bucket - 1)
    else st
  }

  /** One ring's part of a visit, after the advance. */
  function Touched(r: Ring, event: bool, bucket: nat, reset: bool, s: Option<Sample>): Ring {
    var r' := if reset then Gapped(bucket) else r;
    if s.Some? then r'.(pending := Fold(event, r'.pending, s.value)) else r'
  }

  function Logged(log: map<int, seq<Sample>>, open: int, reset: bool, s: Option<Sample>): map<int, seq<Sample>> {
    var log' := if reset then map[] else log;
    if s.Some? then log'[open := LogOf(log', open) + [s.value]] else log'
  }

  predicate Shaped(st: State) {
    |st.events| == |st.log| == |st.short| == |st.rings|
  }

  predicate Sized(n: nat, v: Visit) {
    |v.resets| == |v.folds| == n
  }

  function Visited(st: State, v: Visit): (st': State)
    requires Shaped(st) && Sized(|st.rings|, v)
    ensures Shaped(st') && |st'.rings| == |st.rings| && st'.events == st.events && st'.open.Some?
  {
    var a := Advanced(st, v.bucket);
    var open := a.open.value;
    a.(rings := seq(|a.rings|,
                    i requires 0 <= i < |a.rings| =>
                      Touched(a.rings[i], a.events[i], v.bucket, v.resets[i], v.folds[i])),
       log := seq(|a.rings|, i requires 0 <= i < |a.rings| => Logged(a.log[i], open, v.resets[i], v.folds[i])),
       short := seq(|a.rings|, i requires 0 <= i < |a.rings| => if v.resets[i] then v.bucket < open else a.short[i]))
  }

  function Run(st: State, visits: seq<Visit>): (st': State)
    requires Shaped(st) && forall i | 0 <= i < |visits| :: Sized(|st.rings|, visits[i])
    ensures Shaped(st') && |st'.rings| == |st.rings| && st'.events == st.events
    decreases |visits|
  {
    if visits == [] then st else Run(Visited(st, visits[0]), visits[1..])
  }

  /** A ring is on the raster: each held sample is what its own bucket folded to. */
  predicate Aligned(r: Ring, event: bool, log: map<int, seq<Sample>>, open: int)
  {
    && |r.held| <= Capped(if open < 0 then 0 else open)
    && (forall k | 0 <= k < |r.held| :: r.held[k] == Folded(event, LogOf(log, open - 1 - k)))
    && r.pending == Folded(event, LogOf(log, open))
    && (forall b | b in log :: b <= open)
  }

  ghost predicate Inv(st: State) {
    && Shaped(st)
    && st.last == (if st.open.Some? then st.open.value - 1 else -1)
    && (st.open.Some? ==> forall i | 0 <= i < |st.rings| ::
          && Aligned(st.rings[i], st.events[i], st.log[i], st.open.value)
          && (st.short[i] || |st.rings[i].held| == Capped(st.open.value)))
  }

  lemma CommitAligns(r: Ring, event: bool, log: map<int, seq<Sample>>, open: nat, bucket: nat)
    requires Aligned(r, event, log, open) && bucket > open
    ensures var r' := Committed(r, bucket - open - 1);
      Aligned(r', event, log, bucket) && (|r.held| == Capped(open) ==> |r'.held| == Capped(bucket))
  {
    var skipped := bucket - open - 1;
    var all := Gaps(Capped(skipped)) + [r.pending] + r.held;
    forall k | 0 <= k < |Committed(r, skipped).held|
      ensures all[k] == Folded(event, LogOf(log, bucket - 1 - k))
    {
      if k < skipped {
        assert bucket - 1 - k !in log;
      } else {
        assert Capped(skipped) == skipped;
      }
    }
  }

  lemma TouchAligns(r: Ring, event: bool, log: map<int, seq<Sample>>, open: nat, bucket: nat, reset: bool,
                    s: Option<Sample>)
    requires Aligned(r, event, log, open) && bucket <= open
    ensures Aligned(Touched(r, event, bucket, reset, s), event, Logged(log, open, reset, s), open)
  {
    var log1 := if reset then map[] else log;
    var log2 := Logged(log, open, reset, s);
    if s.Some? {
      var all := LogOf(log1, open) + [s.value];
      assert all[..|all| - 1] == LogOf(log1, open);
    }
    assert forall b | b != open :: LogOf(log2, b) == LogOf(log1, b);
  }

  lemma VisitKeeps(st: State, v: Visit)
    requires Inv(st) && Sized(|st.rings|, v)
    ensures Inv(Visited(st, v))
  {
    var a := Advanced(st, v.bucket);
    var st' := Visited(st, v);
    var open := a.open.value;
    forall i | 0 <= i < |st.rings|
      ensures Aligned(st'.rings[i], st'.events[i], st'.log[i], open)
      ensures st'.short[i] || |st'.rings[i].held| == Capped(open)
    {
      if st.open.Some? && v.bucket > st.open.value {
        CommitAligns(st.rings[i], st.events[i], st.log[i], st.open.value, v.bucket);
      }
      assert Aligned(a.rings[i], a.events[i], a.log[i], open);
      TouchAligns(a.rings[i], a.events[i], a.log[i], open, v.bucket, v.resets[i], v.folds[i]);
    }
  }

  lemma {:induction false} RunKeeps(st: State, visits: seq<Visit>)
    requires Inv(st) && forall i | 0 <= i < |visits| :: Sized(|st.rings|, visits[i])
    ensures Inv(Run(st, visits))
    decreases |visits|
  {
    if visits != [] {
      VisitKeeps(st, visits[0]);
      RunKeeps(Visited(st, visits[0]), visits[1..]);
    }
  }

  function Newest(visits: seq<Visit>): nat {
    if visits == [] then 0
    else
      var rest := Newest(visits[1..]);
      if rest > visits[0].bucket then rest else visits[0].bucket
  }

  lemma {:induction false} NewestFrom(st: State, visits: seq<Visit>)
    requires Shaped(st) && (forall i | 0 <= i < |visits| :: Sized(|st.rings|, visits[i]))
    requires visits != [] || st.open.Some?
    ensures Run(st, visits).open == Some(
      if st.open.Some? && st.open.value > Newest(visits) then st.open.value else Newest(visits))
    decreases |visits|
  {
    if visits != [] {
      NewestFrom(Visited(st, visits[0]), visits[1..]);
    }
  }

  /** However the producers interleave and however old their clock readings are: the open bucket is the
      newest one any of them read, and the k-th newest sample of every ring is what was folded into the
      bucket k places before the last one closed, a gap where nothing was. */
  lemma EveryRingIsAligned(events: seq<bool>, visits: seq<Visit>, ring: nat, age: nat)
    requires visits != [] && (forall i | 0 <= i < |visits| :: Sized(|events|, visits[i]))
    requires ring < |events| && age < |Run(Init(events), visits).rings[ring].held|
    ensures var st := Run(Init(events), visits);
      && st.last == Newest(visits) - 1
      && st.rings[ring].held[age] == Folded(events[ring], LogOf(st.log[ring], st.last - age))
      && st.rings[ring].pending == Folded(events[ring], LogOf(st.log[ring], Newest(visits)))
  {
    RunKeeps(Init(events), visits);
    NewestFrom(Init(events), visits);
    var st := Run(Init(events), visits);
    assert Aligned(st.rings[ring], st.events[ring], st.log[ring], st.open.value);
  }

  /** All rings reach back equally far, to boot or a whole day, but for those a late visitor reset. */
  lemma RingsReachBack(events: seq<bool>, visits: seq<Visit>, ring: nat)
    requires visits != [] && (forall i | 0 <= i < |visits| :: Sized(|events|, visits[i])) && ring < |events|
    ensures var st := Run(Init(events), visits);
      |st.rings[ring].held| <= Capped(Newest(visits)) &&
        (st.short[ring] || |st.rings[ring].held| == Capped(Newest(visits)))
  {
    RunKeeps(Init(events), visits);
    NewestFrom(Init(events), visits);
    var st := Run(Init(events), visits);
    assert Aligned(st.rings[ring], st.events[ring], st.log[ring], st.open.value);
  }

  /** A reset seeds exactly as many gaps as its visitor's bucket had before it: the ring stays as long as
      the others if and only if the visitor was not late, or both ends lie beyond a full ring. */
  lemma ResetLength(st: State, v: Visit, ring: nat)
    requires Inv(st) && Sized(|st.rings|, v) && ring < |st.rings| && v.resets[ring]
    ensures var st' := Visited(st, v);
      && |st'.rings[ring].held| == Capped(v.bucket)
      && (|st'.rings[ring].held| == Capped(st'.open.value) <==> v.bucket == st'.open.value || v.bucket >= WIDTH)
  {
  }

  /** A visit at bucket 1, then one that read bucket 0 before it and resets its ring: that ring is empty while
      the other one holds bucket 0. */
  lemma LateResetShortens()
    ensures var none := [None, None];
      var st := Run(Init([false, false]), [Visit(1, [false, false], none), Visit(0, [true, false], none)]);
      st.open == Some(1) && st.rings[0].held == [] && st.rings[1].held == [NoReading]
  {
    var first, second := Visit(1, [false, false], [None, None]), Visit(0, [true, false], [None, None]);
    var s1 := Visited(Init([false, false]), first);
    var s2 := Visited(s1, second);
    assert [first, second][1..] == [second] && [second][1..] == [];
    assert Run(s1, [second]) == Run(s2, []) == s2;
    assert s1.rings[1] == Gapped(1) && s2.rings[0] == Gapped(0);
  }

  predicate AnyReading(samples: seq<Sample>) {
    exists i :: 0 <= i < |samples| && samples[i].Reading?
  }

  /** What a bucket shows: the last reading in it, failing that the last reason why there is none. */
  lemma {:induction false} BucketShowsLast(samples: seq<Sample>)
    ensures var v := Folded(false, samples);
      if AnyReading(samples) then
        exists i ::
          0 <= i < |samples| && samples[i] == v && v.Reading? && forall j | i < j < |samples| :: !samples[j].Reading?
      else v == if samples == [] then NoReading else samples[|samples| - 1]
  {
    if samples != [] {
      var n := |samples| - 1;
      var before := samples[..n];
      BucketShowsLast(before);
      if samples[n].Reading? {
        assert samples[n] == Folded(false, samples);
      } else if AnyReading(before) {
        var i :| 0 <= i < |before| && before[i] == Folded(false, before) && before[i].Reading? &&
          forall j | i < j < |before| :: !before[j].Reading?;
        assert samples[i] == Folded(false, samples);
      } else {
        assert forall i | 0 <= i < n :: samples[i] == before[i];
      }
    }
  }

  /** An event seen at any time in a bucket is what the bucket shows. */
  lemma {:induction false} EventIsKept(samples: seq<Sample>)
    ensures ON in samples <==> Folded(true, samples) == ON
  {
    if samples != [] {
      var n := |samples| - 1;
      EventIsKept(samples[..n]);
      assert samples == samples[..n] + [samples[n]];
    }
  }
}
