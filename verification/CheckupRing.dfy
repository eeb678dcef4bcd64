/** The checkup's two rings of 23 completed hours, their shared deadlines, and the operations on them. */
module CheckupRing {
  import opened Options
  import opened CheckupWindow

  function Next(head: nat): (n: nat)
    requires head < SLOTS
    ensures n < SLOTS
  {
    if head + 1 < SLOTS then head + 1 else 0
  }

  /** `head` after `n` pushes, at most one turn and one. */
  function Advanced(head: nat, n: nat): (r: nat)
    requires head < SLOTS && n <= SLOTS + 1
    ensures r < SLOTS
  {
    if head + n < SLOTS then head + n else if head + n < 2 * SLOTS then head + n - SLOTS else head + n - 2 * SLOTS
  }

  /** The index of the slot `age` pushes behind the newest one. */
  function At(head: nat, age: nat): (i: nat)
    requires head < SLOTS && age < SLOTS
    ensures i < SLOTS
  {
    if age < head then head - 1 - age else head + SLOTS - 1 - age
  }

  /** A ring's contents, newest first. */
  function ByAge<T>(s: seq<T>, head: nat): (r: seq<T>)
    requires |s| == SLOTS && head < SLOTS
    ensures |r| == SLOTS && forall k | 0 <= k < SLOTS :: r[k] == s[At(head, k)]
  {
    seq(SLOTS, k requires 0 <= k < SLOTS => s[At(head, k)])
  }

  lemma PushShifts<T>(s: seq<T>, head: nat, b: T, empty: T)
    requires |s| == SLOTS && head < SLOTS
    ensures ByAge(s[head := b], Next(head)) == Shifted(ByAge(s, head), b, empty, 0)
  {
    assert At(Next(head), 0) == head;
    var pushed, shifted := ByAge(s[head := b], Next(head)), Shifted(ByAge(s, head), b, empty, 0);
    forall k | 0 <= k < SLOTS
      ensures pushed[k] == shifted[k]
    {
      if k > 0 {
        assert At(Next(head), k) == At(head, k - 1) != head;
      }
    }
  }

  lemma ShiftOneMore<T>(s: seq<T>, closed: T, empty: T, skipped: nat)
    ensures Shifted(Shifted(s, closed, empty, skipped), empty, empty, 0) == Shifted(s, closed, empty, skipped + 1)
  {
  }

  lemma ShiftedOut<T>(s: seq<T>, closed: T, empty: T, skipped: nat)
    requires skipped >= |s|
    ensures Shifted(s, closed, empty, skipped) == Shifted(s, closed, empty, |s|)
  {
  }

  function AtMost(n: nat, limit: nat): nat {
    if n < limit then n else limit
  }

  class Ring {
    const buf: array<set<Item>>
    var head: nat
    var count: nat
    var pending: set<Item>

    ghost predicate Valid()
      reads this
    {
      buf.Length == SLOTS && head < SLOTS && count <= SLOTS
    }

    ghost function Ages(): seq<set<Item>>
      reads this, buf
      requires Valid()
    {
      ByAge(buf[..], head)
    }

    constructor ()
      ensures Valid() && head == 0 && count == 0 && pending == {} && fresh(buf)
      ensures Ages() == seq(SLOTS, _ => {})
    {
      buf := new set<Item>[SLOTS](_ => {});
      head, count, pending := 0, 0, {};
    }

    method Push(b: set<Item>)
      requires Valid()
      modifies this`head, this`count, buf
      ensures Valid() && head == Next(old(head)) && count == AtMost(old(count) + 1, SLOTS)
      ensures Ages() == Shifted(old(Ages()), b, {}, 0)
    {
      PushShifts(buf[..], head, b, {});
      buf[head] := b;
      assert buf[..] == old(buf[..])[head := b];
      head := (head + 1) % 23;
      if count < SLOTS {
        count := count + 1;
      }
    }

    method PushEmpty(ghost was: seq<set<Item>>, ghost open: set<Item>, ghost skipped: nat)
      requires Valid() && Ages() == Shifted(was, open, {}, skipped)
      modifies this`head, this`count, buf
      ensures Valid() && head == Next(old(head)) && count == AtMost(old(count) + 1, SLOTS)
      ensures Ages() == Shifted(was, open, {}, skipped + 1)
    {
      Push({});
      ShiftOneMore(was, open, {}, skipped);
    }

    method PushGaps(gaps: nat, ghost was: seq<set<Item>>, ghost open: set<Item>)
      requires Valid() && gaps <= SLOTS && Ages() == Shifted(was, open, {}, 0)
      modifies this`head, this`count, buf
      ensures Valid() && head == Advanced(old(head), gaps) && count == AtMost(old(count) + gaps, SLOTS)
      ensures Ages() == Shifted(was, open, {}, gaps)
    {
      var k := 0;
      while k < gaps
        invariant 0 <= k <= gaps && Valid()
        invariant head == Advanced(old(head), k) && count == AtMost(old(count) + k, SLOTS)
        invariant Ages() == Shifted(was, open, {}, k)
      {
        PushEmpty(was, open, k);
        k := k + 1;
      }
    }

    /** Pushes the open hour, then an empty hour for each skipped one. */
    method Commit(skipped: nat)
      requires Valid()
      modifies this, buf
      ensures Valid() && pending == {}
      ensures head == Advanced(old(head), 1 + AtMost(skipped, SLOTS))
      ensures count == AtMost(old(count) + 1 + skipped, SLOTS)
      ensures Ages() == Shifted(old(Ages()), old(pending), {}, skipped)
    {
      ghost var was := Ages();
      Push(pending);
      var gaps := if skipped < SLOTS then skipped else SLOTS;
      PushGaps(gaps, was, pending);
      if skipped > SLOTS {
        ShiftedOut(was, pending, {}, skipped);
      }
      pending := {};
    }

    method Reset()
      requires Valid()
      modifies this, buf
      ensures Valid() && head == 0 && count == 0 && pending == {}
      ensures Ages() == seq(SLOTS, _ => {}) && forall i | 0 <= i < SLOTS :: buf[i] == {}
    {
      forall i | 0 <= i < SLOTS {
        buf[i] := {};
      }
      head, count, pending := 0, 0, {};
    }
  }

  function Zip(hours: seq<set<Item>>, waters: seq<set<Item>>, deadlines: seq<int>): (r: seq<Slot>)
    requires |hours| == |waters| == |deadlines| == SLOTS
    ensures |r| == SLOTS && forall k | 0 <= k < SLOTS :: r[k] == Slot(hours[k], waters[k], deadlines[k])
  {
    seq(SLOTS, k requires 0 <= k < SLOTS => Slot(hours[k], waters[k], deadlines[k]))
  }

  lemma ZipShifts(hours: seq<set<Item>>, waters: seq<set<Item>>, deadlines: seq<int>, closed: Slot, skipped: nat)
    requires |hours| == |waters| == |deadlines| == SLOTS
    ensures Zip(Shifted(hours, closed.checkup, {}, skipped), Shifted(waters, closed.dhw, {}, skipped),
                Shifted(deadlines, closed.expiry, 0, skipped))
         == Shifted(Zip(hours, waters, deadlines), closed, EMPTY, skipped)
  {
  }

  /** The deadlines once `n` places from `head` on have been cleared. */
  predicate ClearedFrom(was: seq<int>, now: seq<int>, head: nat, n: nat)
    requires |was| == |now| == SLOTS && head < SLOTS && n <= SLOTS + 1
  {
    && (forall i | 0 <= i < n :: now[Advanced(head, i)] == 0)
    && (forall j | 0 <= j < SLOTS && (forall i | 0 <= i < n :: Advanced(head, i) != j) :: now[j] == was[j])
  }

  /** Clearing what the pushes overwrite and dating the closed hour shifts the deadlines as the pushes
      shift the hours. */
  lemma DeadlinesShift(was: seq<int>, cleared: seq<int>, head: nat, deadline: int, skipped: nat)
    requires |was| == |cleared| == SLOTS && head < SLOTS
    requires ClearedFrom(was, cleared, head, 1 + AtMost(skipped, SLOTS))
    ensures var last := Advanced(head, 1 + AtMost(skipped, SLOTS));
      ByAge(if skipped < SLOTS then cleared[head := deadline] else cleared, last)
      == Shifted(ByAge(was, head), deadline, 0, skipped)
  {
    var n := 1 + AtMost(skipped, SLOTS);
    var last := Advanced(head, n);
    var dated := if skipped < SLOTS then cleared[head := deadline] else cleared;
    forall k | 0 <= k < SLOTS
      ensures ByAge(dated, last)[k] == Shifted(ByAge(was, head), deadline, 0, skipped)[k]
    {
      if k < n {
        assert At(last, k) == Advanced(head, n - 1 - k);
        assert cleared[Advanced(head, n - 1 - k)] == 0;
      } else {
        assert At(last, k) == At(head, k - n);
        assert forall i | 0 <= i < n :: Advanced(head, i) != At(last, k);
      }
    }
  }

  class Checkup {
    const ring: Ring
    const dhw: Ring
    const expiry: array<int>
    var bucket: nat
    var haveBucket: bool
    var committed: Option<nat>
    var live: nat
    var restart: Option<nat>
    var running: Option<nat>
    ghost var booked: set<Item>
    ghost var dhwBooked: set<Item>
    ghost var sampled: nat
    ghost var expired: int

    /** The rings never drift apart: one head, one count, one set of deadlines. */
    ghost predicate Valid()
      reads this, ring, dhw
    {
      && ring != dhw && ring.buf != dhw.buf
      && ring.Valid() && dhw.Valid() && expiry.Length == SLOTS
      && ring.head == dhw.head && ring.count == dhw.count == live
    }

    ghost function Slots(): (s: seq<Slot>)
      reads this, ring, ring.buf, dhw, dhw.buf, expiry
      requires Valid()
      ensures |s| == SLOTS
    {
      Zip(ring.Ages(), dhw.Ages(), ByAge(expiry[..], ring.head))
    }

    ghost function Now(): State
      reads this, ring, ring.buf, dhw, dhw.buf, expiry
      requires Valid()
    {
      State(Slots(), ring.pending, dhw.pending, if haveBucket then Some(bucket) else None, committed, live, restart,
            running, booked, dhwBooked, sampled, expired)
    }

    constructor ()
      ensures Valid() && Now() == Init()
      ensures fresh(ring) && fresh(ring.buf) && fresh(dhw) && fresh(dhw.buf) && fresh(expiry)
    {
      ring := new Ring();
      dhw := new Ring();
      expiry := new int[SLOTS](_ => 0);
      bucket, haveBucket := 0, false;
      committed, live, restart, running := None, 0, None, None;
      booked, dhwBooked, sampled, expired := {}, {}, 0, 0;
      new;
      assert Slots() == seq(SLOTS, _ => EMPTY);
    }

    method ClearDeadlines(n: nat)
      requires Valid() && n <= SLOTS + 1
      modifies expiry
      ensures ClearedFrom(old(expiry[..]), expiry[..], ring.head, n)
    {
      var i := 0;
      while i < n
        invariant 0 <= i <= n
        invariant ClearedFrom(old(expiry[..]), expiry[..], ring.head, i)
      {
        expiry[Advanced(ring.head, i)] := 0;
        i := i + 1;
      }
    }

    /** Pushes the open hour onto both rings, and its deadline beside it. */
    method CommitHours(skipped: nat, deadline: int)
      requires Valid()
      modifies this`live, ring, ring.buf, dhw, dhw.buf, expiry
      ensures Valid() && ring.pending == {} && dhw.pending == {}
      ensures live == AtMost(old(live) + 1 + skipped, SLOTS)
      ensures Slots() == Shifted(old(Slots()), Slot(old(ring.pending), old(dhw.pending), deadline), EMPTY, skipped)
    {
      ghost var hours, waters, deadlines, first := ring.Ages(), dhw.Ages(), expiry[..], ring.head;
      ClearDeadlines(1 + AtMost(skipped, SLOTS));
      DeadlinesShift(deadlines, expiry[..], first, deadline, skipped);
      ZipShifts(hours, waters, ByAge(deadlines, first), Slot(ring.pending, dhw.pending, deadline), skipped);
      ring.Commit(skipped);
      dhw.Commit(skipped);
      if skipped < SLOTS {
        ghost var cleared := expiry[..];
        expiry[At(ring.head, skipped)] := deadline;
        assert expiry[..] == cleared[first := deadline];
      }
      live := AtMost(live + 1 + AtMost(skipped, SLOTS), SLOTS);
    }

    /** Closes the open hour when a sample belongs to another one. */
    method CloseHour(hour: nat)
      requires Valid()
      modifies this`committed, this`live, ring, ring.buf, dhw, dhw.buf, expiry
      ensures Valid() && Now() == Close(old(Now()), hour)
    {
      if haveBucket && hour != bucket {
        CommitHours(if hour > bucket then hour - bucket - 1 else 0, Deadline(bucket));
        committed := Some(hour);
      }
    }

    /** Books a run's end into the hour it started in, when that hour is still held. */
    method FinishRun(hour: nat, start: nat, at: nat)
      requires Valid()
      modifies this`booked, ring`pending, ring.buf
      ensures Valid() && Now() == Finish(old(Now()), hour, start, at)
    {
      var item := RunEnd(start, at);
      if start == hour {
        ring.pending := ring.pending + {item};
        booked := booked + {item};
      } else if start < hour && hour - start <= ring.count && hour - start <= SLOTS {
        ghost var was := Slots();
        var k := hour - start - 1;
        var i := At(ring.head, k);
        ring.buf[i] := ring.buf[i] + {item};
        SlotChanges(was, Slots(), ring.head, k);
        booked := booked + {item};
      }
    }

    /** The hot-water evidence of a sample, and what the next one compares itself with. */
    method Settle(hour: nat, now: nat, run: Run, withDhw: bool)
      requires Valid()
      modifies this, dhw`pending
      ensures Valid() && Now() == Settled(old(Now()), now, hour, run, withDhw)
    {
      if withDhw {
        dhw.pending := dhw.pending + {Sample(hour, now)};
        dhwBooked := dhwBooked + {Sample(hour, now)};
      }
      running := if run.Carries? then running else if run.Starts? then Some(hour) else None;
      bucket, haveBucket := hour, true;
      sampled := now;
    }

    method Fold(hour: nat, now: nat)
      requires Valid()
      modifies this`booked, ring`pending
      ensures Valid() && Now() == Folded(old(Now()), now, hour)
    {
      ring.pending := ring.pending + {Sample(hour, now)};
      booked := booked + {Sample(hour, now)};
    }

    /** One sample: its hour, a run that it ends, and the hot-water evidence unless that is discarded. */
    method RecordSample(now: nat, run: Run, withDhw: bool)
      requires Valid() && now >= sampled
      modifies this, ring, ring.buf, dhw, dhw.buf, expiry
      ensures Valid() && Now() == Recorded(old(Now()), now, run, withDhw)
    {
      var hour := now / 3_600_000_000;
      CloseHour(hour);
      Fold(hour, now);
      if run.Ends? && running.Some? {
        FinishRun(hour, running.value, now);
      }
      Settle(hour, now, run, withDhw);
    }

    /**
     * The lock section of a sample whose clock was read as `now`: nothing once the open hour is sealed for a
     * restart; a requested wipe in place of the sample; a requested hot-water reset, dated inside the lock,
     * before it. `moved` is a circulation source that changed while the sample was taken.
     */
    method Record(now: nat, run: Run, sealed: bool, wipe: bool, reset: Option<nat>, moved: bool)
      requires Valid() && now >= sampled
      modifies this, ring, ring.buf, dhw, dhw.buf, expiry
      ensures Valid() && Now() == After(old(Now()), Section(now, run, sealed, wipe, reset, moved))
    {
      SectionSteps(Now(), now, run, sealed, wipe, reset, moved);
      if sealed {
        return;
      }
      if wipe {
        WipeHours();
        return;
      }
      if reset.Some? {
        ResetHotWater(reset.value);
      }
      RecordSample(now, run, !(reset.Some? || moved));
    }

    method RetireSlots(at: int)
      requires Valid()
      modifies ring.buf, dhw.buf, expiry
      ensures forall k | 0 <= k < SLOTS ::
        Slots()[k] == if Over(old(Slots()[k].expiry), at) then EMPTY else old(Slots()[k])
    {
      ghost var was := Slots();
      var i := 0;
      while i < SLOTS
        invariant 0 <= i <= SLOTS
        invariant forall k | 0 <= k < SLOTS ::
          Slots()[k] == if At(ring.head, k) < i && Over(was[k].expiry, at) then EMPTY else was[k]
      {
        if Over(expiry[i], at) {
          ring.buf[i], dhw.buf[i], expiry[i] := {}, {}, 0;
        }
        i := i + 1;
      }
    }

    /** Retires every hour that began a day ago or earlier, the open one included. */
    method ExpireHours(at: int)
      requires Valid()
      modifies this, ring`pending, ring.buf, dhw`pending, dhw.buf, expiry
      ensures Valid() && Now() == Retired(old(Now()), at)
    {
      ghost var was := Now();
      RetireSlots(at);
      assert Slots() == Retired(was, at).slots;
      expired := if at > expired then at else expired;
      if haveBucket && at >= Deadline(bucket) {
        ring.pending, dhw.pending := {}, {};
        haveBucket, running := false, None;
      }
    }

    method ClearRings()
      requires Valid()
      modifies this`live, ring, ring.buf, dhw, dhw.buf, expiry
      ensures Valid() && live == 0 && ring.pending == {} && dhw.pending == {}
      ensures Slots() == seq(SLOTS, _ => EMPTY)
    {
      ring.Reset();
      dhw.Reset();
      forall i | 0 <= i < SLOTS {
        expiry[i] := 0;
      }
      live := 0;
    }

    method WipeHours()
      requires Valid()
      modifies this, ring, ring.buf, dhw, dhw.buf, expiry
      ensures Valid() && Now() == Wiped(old(Now()))
    {
      ClearRings();
      committed, restart := None, None;
      haveBucket, running := false, None;
      booked, dhwBooked := {}, {};
    }

    /** The separate hot-water reset: values go, the shared geometry stays. */
    method ResetHotWater(now: nat)
      requires Valid()
      modifies this`restart, this`dhwBooked, dhw, dhw.buf
      ensures Valid() && Now() == DhwReset(old(Now()), now)
    {
      ghost var was := Now();
      dhw.Reset();
      dhw.head := ring.head;
      dhw.count := ring.count;
      dhwBooked := {};
      restart := Some(now / 3_600_000_000);
      assert Slots() == DhwReset(was, now).slots;
    }
  }

  /** What the lock section of a sample does, as steps of the window. */
  function Section(now: nat, run: Run, sealed: bool, wipe: bool, reset: Option<nat>, moved: bool): seq<Event> {
    if sealed then []
    else if wipe then [Wipe]
    else if reset.Some? then [ResetDhw(reset.value), CheckupWindow.Event.Record(now, run, false)]
    else [CheckupWindow.Event.Record(now, run, !moved)]
  }

  lemma SectionSteps(st: State, now: nat, run: Run, sealed: bool, wipe: bool, reset: Option<nat>, moved: bool)
    requires |st.slots| == SLOTS && now >= st.sampled
    ensures After(st, Section(now, run, sealed, wipe, reset, moved)) ==
      if sealed then st
      else if wipe then Wiped(st)
      else if reset.Some? then Recorded(DhwReset(st, reset.value), now, run, false)
      else Recorded(st, now, run, !moved)
  {
    var events := Section(now, run, sealed, wipe, reset, moved);
    if events != [] {
      var next := Step(st, events[0]);
      if |events| == 2 {
        assert events[1..][0] == events[1];
        assert After(next, events[1..]) == After(Step(next, events[1]), []);
      }
    }
  }

  lemma SlotChanges(was: seq<Slot>, now: seq<Slot>, head: nat, k: nat)
    requires |was| == |now| == SLOTS && head < SLOTS && k < SLOTS
    requires forall j | 0 <= j < SLOTS && At(head, j) != At(head, k) :: now[j] == was[j]
    ensures now == was[k := now[k]]
  {
    assert forall j | 0 <= j < SLOTS && j != k :: At(head, j) != At(head, k);
  }
}
