/**
 * How completed checkup hours get their wall-clock labels and reach the journal: one latched offset a
 * boot, the next hour to append, and the replay that a run ending late asks for.
 */
module CheckupJournal {
  import opened Options
  import opened CheckupWindow

  const SECOND: int := 1_000_000
  const HOUR_S: int := 3600

  /** The wall-clock hour a completed hour is labelled with: the one its end lies in. */
  function BucketOf(end: int): Option<int> {
    if end >= 0 then Some(end / HOUR_S) else None
  }

  /** A latched offset, and the label it gives the newest completed hour. */
  function Latch(offset: Option<int>, computed: int, monotonic: int): (r: (int, int)) {
    var keep := offset.Some? && -1 <= computed - (monotonic + offset.value) <= 1;
    var o := if keep then offset.value else computed - monotonic;
    (o, monotonic + o)
  }

  function NextLive(after: Option<int>, newest: int, live: nat): Option<int> {
    if live == 0 || (after.Some? && after.value >= newest) then None
    else
      var oldest := newest - (live - 1);
      var target := if after.None? then oldest else after.value + 1;
      Some(if target < oldest then oldest else target)
  }

  function NextTarget(after: Option<int>, newest: int, live: nat, revision: Option<int>): Option<int> {
    if revision.Some? && after.Some? && revision.value <= after.value && live > 0 && after.value <= newest &&
      newest - revision.value < live
    then revision
    else NextLive(after, newest, live)
  }

  /** The oldest completed hour that must be appended again because a run that began in it ended late. */
  datatype Revision = Revision(armed: bool, hour: nat, emitted: Option<int>)

  function Arm(r: Revision, start: nat): Revision {
    if r.armed && start >= r.hour then r else Revision(true, start, None)
  }

  function RevisionBucket(newest: int, current: nat, hour: nat, live: nat): Option<int> {
    if hour >= current || live == 0 then None
    else
      var age := current - 1 - hour;
      Some(if age >= live then newest - (live - 1) else newest - age)
  }

  function Take(r: Revision, acked: Option<int>, newest: int, current: nat, live: nat, after: Option<int>)
    : (Revision, Option<int>)
  {
    if !r.armed || (r.emitted.Some? && acked == r.emitted) then (r.(armed := false, emitted := None), None)
    else
      var bucket := RevisionBucket(newest, current, r.hour, live);
      if bucket.None? || after.None? || bucket.value > after.value then (r.(armed := false, emitted := None), None)
      else (r, bucket)
  }

  /** A record's end, moved into the hour its label names. */
  function EndIn(end: int, bucket: int): int {
    var first, last := bucket * HOUR_S, bucket * HOUR_S + HOUR_S - 1;
    if end < first then first else if end > last then last else end
  }

  datatype Journal = Journal(offset: Option<int>, revision: Revision, acked: Option<int>)

  datatype Emitted = Emitted(bucket: int, end: int, checkup: set<Item>, dhw: set<Item>, withSource: bool)

  /** The hour to append is one of the live ones. */
  lemma TargetInRange(r: Revision, acked: Option<int>, newest: int, current: nat, live: nat, after: Option<int>)
    ensures var (_, again) := Take(r, acked, newest, current, live, after);
      var target := NextTarget(after, newest, live, again);
      target.Some? ==> newest - live < target.value <= newest
  {
  }

  /** `checkup_flash_next` for the completed hours; `clock` is the wall clock in seconds, `now` the monotonic
      one in microseconds. */
  function FlashNext(st: State, j: Journal, clock: int, now: int, after: Option<int>): (Journal, Option<Emitted>)
    requires |st.slots| == SLOTS && st.count <= SLOTS
  {
    if clock < 0 || st.committed.None? || st.count == 0 || now < st.committed.value * HOUR then (j, None)
    else
      var current := st.committed.value;
      var latest := clock - (now - current * HOUR) / SECOND;
      var computed := BucketOf(latest);
      if computed.None? then (j, None)
      else
        var (offset, newest) := Latch(j.offset, computed.value, current - 1);
        var (revision, again) := Take(j.revision, j.acked, newest, current, st.count, after);
        var target := NextTarget(after, newest, st.count, again);
        if target.None? then (Journal(Some(offset), revision, j.acked), None)
        else
          TargetInRange(j.revision, j.acked, newest, current, st.count, after);
          var age := newest - target.value;
          var emits := again.Some? && target == again;
          var j' := Journal(Some(offset), if emits then revision.(emitted := target) else revision,
                            if emits then None else j.acked);
          var withheld := st.restart.Some? && current - 1 - age < st.restart.value;
          (j', Some(Emitted(target.value, EndIn(latest - age * HOUR_S, target.value), st.slots[age].checkup,
                            if withheld then {} else st.slots[age].dhw, !withheld)))
  }

  /** The content of one hour: nothing but its own items, and all of them unless its day is over. */
  ghost predicate Kept(st: State, hour: int, content: set<Item>, booked: set<Item>) {
    && (forall i | i in content :: i.hour == hour && i in booked)
    && (Deadline(hour) > st.expired && Deadline(hour) > st.sampled ==>
      forall i | i in booked && i.hour == hour :: i in content)
  }

  /** Neither what the slot shows nor what was booked for its hour belongs to the last day. */
  ghost predicate Leftover(st: State, hour: int, slot: Slot) {
    Overdue(st, slot) && (Gone(st, hour) || Deadline(hour) <= st.sampled)
  }

  /** What the slot `age` places behind the last commit holds: its own hour, or a leftover over a day old. */
  lemma SlotIsKept(st: State, age: nat)
    requires Inv(st) && st.committed.Some? && age < SLOTS
    ensures var hour, slot := st.committed.value - 1 - age, st.slots[age];
      && Kept(st, hour, slot.dhw, st.dhwBooked)
      && (if StaleSlot(slot) then Leftover(st, hour, slot) else Kept(st, hour, slot.checkup, st.booked))
  {
    var hour := st.committed.value - 1 - age;
    if st.open.Some? {
      assert SlotInv(st, st.open.value, age);
      if st.committed != st.open && hour >= st.open.value - SLOTS {
        assert SlotInv(st, st.open.value, st.open.value - 1 - hour);
      }
    }
  }

  /** A record is emitted for one of the live hours, under the label the latched offset gives it. */
  lemma EmitsLiveHour(st: State, j: Journal, clock: int, now: int, after: Option<int>)
    requires |st.slots| == SLOTS && st.count <= SLOTS
    ensures var (j', out) := FlashNext(st, j, clock, now, after);
      out.Some? ==>
        && st.committed.Some? && j'.offset.Some?
        && var hour := out.value.bucket - j'.offset.value;
          && st.committed.value - st.count <= hour < st.committed.value
          && out.value.checkup == st.slots[st.committed.value - 1 - hour].checkup
          && out.value.withSource == !(st.restart.Some? && hour < st.restart.value)
          && out.value.dhw == (if out.value.withSource then st.slots[st.committed.value - 1 - hour].dhw else {})
          && BucketOf(out.value.end) == if out.value.bucket >= 0 then Some(out.value.bucket) else None
  {
  }

  /** Every record emitted is the own slot of one hour of this boot, under that hour's label. It holds what
      was booked for the hour, unless the hour was over a day old and retired; a stale slot has nothing but
      items over a day old, and only a run that an expiry overtook leaves one. Hot-water evidence is withheld
      exactly from the hours before its last separate reset. */
  lemma EmitsOwnHour(events: seq<Event>, j: Journal, clock: int, now: int, after: Option<int>)
    ensures var st := After(Init(), events);
      st.count <= SLOTS &&
      var (j', out) := FlashNext(st, j, clock, now, after);
      out.Some? ==>
        && st.committed.Some? && j'.offset.Some?
        && var hour := out.value.bucket - j'.offset.value;
          && st.committed.value - st.count <= hour < st.committed.value
          && var slot := st.slots[st.committed.value - 1 - hour];
            && (if StaleSlot(slot) then Leftover(st, hour, slot) && out.value.checkup == slot.checkup
                else Kept(st, hour, out.value.checkup, st.booked))
            && (NoneOvertaken(Init(), events) ==> !StaleSlot(slot))
            && (if st.restart.Some? && hour < st.restart.value then !out.value.withSource && out.value.dhw == {}
                else out.value.withSource && Kept(st, hour, out.value.dhw, st.dhwBooked))
            && BucketOf(out.value.end) == if out.value.bucket >= 0 then Some(out.value.bucket) else None
  {
    var st := After(Init(), events);
    RunKeeps(Init(), events);
    CountBounded(Init(), events);
    EmitsLiveHour(st, j, clock, now, after);
    var (j', out) := FlashNext(st, j, clock, now, after);
    if NoneOvertaken(Init(), events) {
      NeverStale(Init(), events);
    }
    if out.Some? {
      SlotIsKept(st, st.committed.value - 1 - (out.value.bucket - j'.offset.value));
    }
  }

  lemma {:induction false} CountBounded(st: State, events: seq<Event>)
    requires |st.slots| == SLOTS && st.count <= SLOTS
    ensures After(st, events).count <= SLOTS
    decreases |events|
  {
    if events != [] {
      CountBounded(Step(st, events[0]), events[1..]);
    }
  }

  /** With a steady wall clock, `shift` microseconds ahead of the monotonic one, an offset once latched
      is never moved: whatever hour was last committed, whenever it is asked for. */
  lemma LabelsNeverDrift(shift: int, first: nat, at: int, later: nat, now: int)
    requires shift >= 0 && first * HOUR <= at && later * HOUR <= now
    ensures var (offset, _) := Latch(None, Label(shift, first, at), first - 1);
      Latch(Some(offset), Label(shift, later, now), later - 1) == (offset, later - 1 + offset)
  {
    LabelNear(shift, first, at);
    LabelNear(shift, later, now);
  }

  /** The label computed for the newest completed hour from the two clocks. */
  function Label(shift: int, current: nat, now: int): int {
    ((now + shift) / SECOND - (now - current * HOUR) / SECOND) / HOUR_S
  }

  lemma LabelNear(shift: int, current: nat, now: int)
    requires shift >= 0 && current * HOUR <= now
    ensures var whole := shift / SECOND / HOUR_S; current + whole <= Label(shift, current, now) <= current + whole + 1
  {
    var elapsed := now - current * HOUR;
    var s := shift / SECOND;
    var e := elapsed / SECOND;
    assert current * HOUR == current * HOUR_S * SECOND;
    assert now + shift == elapsed + shift + current * HOUR_S * SECOND;
    var sum := (elapsed + shift) / SECOND;
    assert (now + shift) / SECOND == sum + current * HOUR_S;
    assert s + e <= sum <= s + e + 1;
    var hours := (sum - e + current * HOUR_S) / HOUR_S;
    assert hours == (sum - e) / HOUR_S + current;
  }

  /** The hours the writer appends when nothing new happens and every append succeeds. */
  function Appended(r: Revision, acked: Option<int>, newest: int, current: nat, live: nat, after: Option<int>)
    : (hours: seq<int>)
    decreases r.armed && !(r.emitted.Some? && acked == r.emitted),
              if after.None? then live + 1 else if newest > after.value then newest - after.value else 0
  {
    var (r', again) := Take(r, acked, newest, current, live, after);
    var target := NextTarget(after, newest, live, again);
    if target.None? then []
    else if again.Some? && target == again then
      [target.value] + Appended(r'.(emitted := target), target, newest, current, live, target)
    else [target.value] + Appended(r', target, newest, current, live, target)
  }

  /** All hours from `first` to `last`. */
  function Span(first: int, last: int): (hours: seq<int>)
    decreases last - first
  {
    if first > last then [] else [first] + Span(first + 1, last)
  }

  /** From wherever the cursor stands the writer appends one unbroken span up to the newest hour: from the
      revised hour when that is already behind the cursor, otherwise from the first hour still missing. */
  lemma {:induction false} AppendsSpan(r: Revision, acked: Option<int>, newest: int, current: nat, live: nat,
                                       after: Option<int>)
    ensures var (_, again) := Take(r, acked, newest, current, live, after);
      var first := NextTarget(after, newest, live, again);
      Appended(r, acked, newest, current, live, after) == if first.None? then [] else Span(first.value, newest)
    decreases r.armed && !(r.emitted.Some? && acked == r.emitted),
              if after.None? then live + 1 else if newest > after.value then newest - after.value else 0
  {
    var (r', again) := Take(r, acked, newest, current, live, after);
    var target := NextTarget(after, newest, live, again);
    if target.Some? {
      if again.Some? && target == again {
        AppendsSpan(r'.(emitted := target), target, newest, current, live, target);
      } else {
        AppendsSpan(r', target, newest, current, live, target);
      }
    }
  }

  /** A run that ends after its hour was appended is not lost: that hour and every later one are appended
      again, the ones not yet appended in the same sweep. */
  lemma LateRunIsReplayed(r: Revision, start: nat, acked: Option<int>, newest: int, current: nat, live: nat, after: int)
    requires !r.armed && start < current && current - 1 - start < live
    requires newest - (current - 1 - start) <= after <= newest
    ensures Appended(Arm(r, start), acked, newest, current, live, Some(after)) ==
      Span(newest - (current - 1 - start), newest)
  {
    AppendsSpan(Arm(r, start), acked, newest, current, live, Some(after));
  }
}
