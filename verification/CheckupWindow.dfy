/**
 * The rolling day of the checkup: one open hour and the 23 completed hours before it, each with its own
 * deadline. Slots are listed by age here, newest first; `CheckupRing` keeps them in a ring.
 */
module CheckupWindow {
  import opened Options

  const HOUR: int := 3_600_000_000
  const SLOTS: nat := 23
  const DAY: int := 24

  /** One observation of an hour, or a run that began in it and ended `at`. */
  datatype Item = Sample(hour: int, at: nat) | RunEnd(hour: int, at: nat)

  /** A completed hour: what was observed in it, the separate hot-water evidence, and its deadline (0: none). */
  datatype Slot = Slot(checkup: set<Item>, dhw: set<Item>, expiry: int)

  const EMPTY := Slot({}, {}, 0)

  /** The window and, beside it, everything that was booked since the last reset. */
  datatype State = State(
    slots: seq<Slot>,
    checkup: set<Item>,
    dhw: set<Item>,
    open: Option<nat>,
    committed: Option<nat>,
    count: nat,
    restart: Option<nat>,
    running: Option<nat>,
    booked: set<Item>,
    dhwBooked: set<Item>,
    sampled: nat,
    expired: int)

  /** What a sample does to the compressor run; a run that spans a gap is dropped. */
  datatype Run = Carries | Starts | Ends | Drops

  datatype Event =
    | Record(now: nat, run: Run, withDhw: bool)
    | Expire(at: int)
    | Wipe
    | ResetDhw(now: nat)

  function Init(): State {
    State(seq(SLOTS, _ => EMPTY), {}, {}, None, None, 0, None, None, {}, {}, 0, 0)
  }

  function Deadline(hour: int): int {
    (hour + DAY) * HOUR
  }

  /** Newest first: `closed` behind `skipped` empty places, then what there was, as far as there is room. */
  function Shifted<T>(slots: seq<T>, closed: T, empty: T, skipped: nat): (r: seq<T>)
    ensures |r| == |slots|
    ensures forall k | 0 <= k < |slots| ::
      r[k] == if k < skipped then empty else if k == skipped then closed else slots[k - skipped - 1]
  {
    seq(|slots|, k requires 0 <= k < |slots| =>
      if k < skipped then empty else if k == skipped then closed else slots[k - skipped - 1])
  }

  /** Closes the open hour when the sample belongs to a later one. */
  function Close(st: State, hour: nat): State
    requires |st.slots| == SLOTS
  {
    if st.open.None? || st.open.value == hour then st
    else
      var was := st.open.value;
      var skipped := if hour > was then hour - was - 1 else 0;
      st.(slots := Shifted(st.slots, Slot(st.checkup, st.dhw, Deadline(was)), EMPTY, skipped),
          checkup := {}, dhw := {}, committed := Some(hour),
          count := if st.count + 1 + skipped < SLOTS then st.count + 1 + skipped else SLOTS)
  }

  /** The completed hour `start` is still in the ring when `hour` is the open one. */
  predicate Held(st: State, hour: nat, start: nat) {
    start < hour && hour - start <= st.count && hour - start <= SLOTS
  }

  /** Books a finished run into the hour it started in, if that hour is still held. */
  function Finish(st: State, hour: nat, start: nat, at: nat): State
    requires |st.slots| == SLOTS
  {
    var item := RunEnd(start, at);
    if start == hour then st.(checkup := st.checkup + {item}, booked := st.booked + {item})
    else if !Held(st, hour, start) then st
    else
      var k := hour - start - 1;
      st.(slots := st.slots[k := st.slots[k].(checkup := st.slots[k].checkup + {item})], booked := st.booked + {item})
  }

  /** The step of `checkup_record` for a sample whose clock was read as `now`. */
  function Recorded(st: State, now: nat, run: Run, withDhw: bool): State
    requires |st.slots| == SLOTS
  {
    RecordedIn(st, now, now / HOUR, run, withDhw)
  }

  /** The sample added to the open hour. */
  function Folded(st: State, now: nat, hour: nat): State {
    var item := Sample(hour, now);
    st.(checkup := st.checkup + {item}, booked := st.booked + {item})
  }

  function RecordedIn(st: State, now: nat, hour: nat, run: Run, withDhw: bool): State
    requires |st.slots| == SLOTS
  {
    var folded := Folded(Close(st, hour), now, hour);
    var finished := if run.Ends? && st.running.Some? then Finish(folded, hour, st.running.value, now) else folded;
    Settled(finished, now, hour, run, withDhw)
  }

  /** The separate hot-water evidence of the sample, and what the next one compares itself with. */
  function Settled(st: State, now: nat, hour: nat, run: Run, withDhw: bool): State {
    var item := Sample(hour, now);
    var watered := if withDhw then st.(dhw := st.dhw + {item}, dhwBooked := st.dhwBooked + {item}) else st;
    var running := if run.Carries? then st.running else if run.Starts? then Some(hour) else None;
    watered.(open := Some(hour), running := running, sampled := now)
  }

  predicate Over(expiry: int, at: int) {
    expiry > 0 && at >= expiry
  }

  /** `expire_restored_locked`: every slot by its own deadline, the open hour by its start. */
  function Retired(st: State, at: int): State
    requires |st.slots| == SLOTS
  {
    var slots := seq(SLOTS, k requires 0 <= k < SLOTS => if Over(st.slots[k].expiry, at) then EMPTY else st.slots[k]);
    var kept := st.(slots := slots, expired := if at > st.expired then at else st.expired);
    if st.open.Some? && at >= Deadline(st.open.value) then
      kept.(checkup := {}, dhw := {}, open := None, running := None)
    else kept
  }

  function Wiped(st: State): State {
    Init().(sampled := st.sampled, expired := st.expired)
  }

  function DhwReset(st: State, now: nat): State
    requires |st.slots| == SLOTS
  {
    st.(slots := seq(SLOTS, k requires 0 <= k < SLOTS => st.slots[k].(dhw := {})), dhw := {}, dhwBooked := {},
        restart := Some(now / HOUR))
  }

  function Step(st: State, e: Event): (st': State)
    requires |st.slots| == SLOTS
    ensures |st'.slots| == SLOTS
  {
    match e
    case Record(now, run, withDhw) => if now < st.sampled then st else Recorded(st, now, run, withDhw)
    case Expire(at) => Retired(st, at)
    case Wipe => Wiped(st)
    case ResetDhw(now) => DhwReset(st, now)
  }

  function After(st: State, events: seq<Event>): (st': State)
    requires |st.slots| == SLOTS
    ensures |st'.slots| == SLOTS
    decreases |events|
  {
    if events == [] then st else After(Step(st, events[0]), events[1..])
  }

  /** The content of an hour: nothing but what was booked for it, and all of that while its day lasts. */
  ghost predicate Holds(st: State, hour: int, content: set<Item>, booked: set<Item>) {
    && (forall i | i in content :: i.hour == hour && i in booked)
    && (Deadline(hour) > st.expired ==> forall i | i in booked && i.hour == hour :: i in content)
  }

  /** Nothing was booked for the hour, or its day is over. */
  ghost predicate Gone(st: State, hour: int) {
    Deadline(hour) <= st.expired || forall i | i in st.booked || i in st.dhwBooked :: i.hour != hour
  }

  /** Whatever the slot shows is more than a day old. */
  ghost predicate Overdue(st: State, slot: Slot) {
    slot.dhw == {} && forall i | i in slot.checkup :: Deadline(i.hour) <= st.expired
  }

  /** The slot `age` completed hours behind the open `hour`: dated and holding its hour, or without a date. */
  ghost predicate SlotInv(st: State, hour: int, age: int)
    requires 0 <= age < |st.slots|
  {
    var slot, h := st.slots[age], hour - 1 - age;
    if slot.expiry == 0 then Overdue(st, slot) && Gone(st, h)
    else
      h >= 0 && slot.expiry == Deadline(h) && Holds(st, h, slot.checkup, st.booked) &&
        Holds(st, h, slot.dhw, st.dhwBooked)
  }

  ghost predicate BookedUpTo(st: State, last: int) {
    forall i | i in st.booked || i in st.dhwBooked :: i.hour <= last
  }

  /** No completed hour is dated any more. */
  ghost predicate Undated(st: State) {
    forall k | 0 <= k < |st.slots| :: st.slots[k].expiry == 0 && Overdue(st, st.slots[k])
  }

  ghost predicate Ran(st: State, start: int) {
    exists i :: i in st.booked && i.hour == start
  }

  /** `last` is the hour of the newest sample. */
  ghost predicate InvAt(st: State, last: nat) {
    && |st.slots| == SLOTS && st.expired >= 0
    && (st.committed.Some? ==> st.committed.value <= last)
    && BookedUpTo(st, last)
    && match st.open
       case None =>
         && st.checkup == {} && st.dhw == {} && st.running.None?
         && Undated(st)
         && (forall i | i in st.booked || i in st.dhwBooked :: Deadline(i.hour) <= st.expired)
       case Some(hour) =>
         && hour == last
         && Holds(st, hour, st.checkup, st.booked) && Holds(st, hour, st.dhw, st.dhwBooked)
         && (st.running.Some? ==> Ran(st, st.running.value))
         && (forall k | 0 <= k < SLOTS :: SlotInv(st, hour, k))
         && (st.committed != Some(hour) ==> Undated(st))
  }

  ghost predicate Inv(st: State) {
    InvAt(st, st.sampled / HOUR)
  }

  /** The window while `hour` is open and the sample is being booked. */
  ghost predicate Booking(st: State, hour: nat) {
    && |st.slots| == SLOTS && st.expired >= 0
    && BookedUpTo(st, hour)
    && Holds(st, hour, st.checkup, st.booked) && Holds(st, hour, st.dhw, st.dhwBooked)
    && (forall k | 0 <= k < SLOTS :: SlotInv(st, hour, k))
    && (st.committed != Some(hour) ==> Undated(st))
    && (st.committed.Some? ==> st.committed.value <= hour)
  }

  lemma CloseKeeps(st: State, last: nat, hour: nat)
    requires InvAt(st, last) && last <= hour
    ensures Booking(Close(st, hour), hour)
  {
    var st' := Close(st, hour);
    if st.open.Some? && last < hour {
      forall k | 0 <= k < SLOTS
        ensures SlotInv(st', hour, k)
      {
        var skipped := hour - last - 1;
        if k > skipped {
          assert SlotInv(st, last, k - skipped - 1);
        }
      }
    }
  }

  /** The sample only adds to the open hour. */
  lemma FoldKeeps(st: State, now: nat, hour: nat)
    requires Booking(st, hour)
    ensures Booking(Folded(st, now, hour), hour) && Ran(Folded(st, now, hour), hour)
  {
    var st' := Folded(st, now, hour);
    assert Sample(hour, now) in st'.booked;
    forall k | 0 <= k < SLOTS
      ensures SlotInv(st', hour, k)
    {
      assert SlotInv(st, hour, k);
    }
  }

  lemma FinishKeeps(st: State, hour: nat, start: nat, at: nat)
    requires Booking(st, hour) && Ran(st, start) && Ran(st, hour)
    ensures Booking(Finish(st, hour, start, at), hour) && Ran(Finish(st, hour, start, at), hour)
  {
    var st' := Finish(st, hour, start, at);
    if Held(st, hour, start) {
      assert SlotInv(st, hour, hour - start - 1);
    }
    forall k | 0 <= k < SLOTS
      ensures SlotInv(st', hour, k)
    {
      assert SlotInv(st, hour, k);
    }
  }

  lemma SettleKeeps(st: State, now: nat, hour: nat, run: Run, withDhw: bool)
    requires Booking(st, hour) && Ran(st, hour) && (st.running.Some? ==> Ran(st, st.running.value))
    ensures InvAt(Settled(st, now, hour, run, withDhw), hour)
  {
    var st' := Settled(st, now, hour, run, withDhw);
    forall k | 0 <= k < SLOTS
      ensures SlotInv(st', hour, k)
    {
      assert SlotInv(st, hour, k);
    }
  }

  lemma RecordKeeps(st: State, last: nat, now: nat, hour: nat, run: Run, withDhw: bool)
    requires InvAt(st, last) && last <= hour
    ensures InvAt(RecordedIn(st, now, hour, run, withDhw), hour)
  {
    CloseKeeps(st, last, hour);
    FoldKeeps(Close(st, hour), now, hour);
    var folded := Folded(Close(st, hour), now, hour);
    if run.Ends? && st.running.Some? {
      FinishKeeps(folded, hour, st.running.value, now);
      SettleKeeps(Finish(folded, hour, st.running.value, now), now, hour, run, withDhw);
    } else {
      SettleKeeps(folded, now, hour, run, withDhw);
    }
  }

  lemma HoursGrow(a: nat, b: nat)
    requires a <= b
    ensures a / HOUR <= b / HOUR
  {
  }

  lemma ExpireKeeps(st: State, last: nat, at: int)
    requires InvAt(st, last)
    ensures InvAt(Retired(st, at), last)
  {
    var st' := Retired(st, at);
    if st.open.Some? {
      var hour := st.open.value;
      forall k | 0 <= k < SLOTS
        ensures SlotInv(st', hour, k)
        ensures st'.open.None? ==> st'.slots[k].expiry == 0
      {
        assert SlotInv(st, hour, k);
      }
    }
  }

  lemma ResetKeeps(st: State, last: nat, now: nat)
    requires InvAt(st, last)
    ensures InvAt(DhwReset(st, now), last)
  {
    var st' := DhwReset(st, now);
    if st.open.Some? {
      forall k | 0 <= k < SLOTS
        ensures SlotInv(st', st.open.value, k)
      {
        assert SlotInv(st, st.open.value, k);
      }
    }
  }

  lemma StepKeeps(st: State, e: Event)
    requires Inv(st)
    ensures Inv(Step(st, e))
  {
    match e
    case Record(now, run, withDhw) =>
      if now >= st.sampled {
        HoursGrow(st.sampled, now);
        RecordKeeps(st, st.sampled / HOUR, now, now / HOUR, run, withDhw);
      }
    case Expire(at) => ExpireKeeps(st, st.sampled / HOUR, at);
    case Wipe =>
    case ResetDhw(now) => ResetKeeps(st, st.sampled / HOUR, now);
  }

  lemma {:induction false} RunKeeps(st: State, events: seq<Event>)
    requires Inv(st)
    ensures Inv(After(st, events))
    decreases |events|
  {
    if events != [] {
      StepKeeps(st, events[0]);
      RunKeeps(Step(st, events[0]), events[1..]);
    }
  }

  /** The window shows an item, wherever in it. */
  ghost predicate Shown(st: State, i: Item) {
    i in st.checkup || exists k :: 0 <= k < |st.slots| && i in st.slots[k].checkup
  }

  ghost predicate DhwShown(st: State, i: Item) {
    i in st.dhw || exists k :: 0 <= k < |st.slots| && i in st.slots[k].dhw
  }

  /** After an expiry at `at` the window shows exactly what was booked for hours that began less than a day ago. */
  ghost predicate ExactAt(st: State, at: int)
    requires |st.slots| == SLOTS
  {
    forall i :: Shown(Retired(st, at), i) <==> i in st.booked && i.hour * HOUR > at - DAY * HOUR
  }

  /** The slot shows something and no expiry will ever retire it. */
  predicate StaleSlot(slot: Slot) {
    slot.expiry == 0 && slot.checkup != {}
  }

  ghost predicate Stale(st: State) {
    exists k :: 0 <= k < |st.slots| && StaleSlot(st.slots[k])
  }

  /** What is booked less than a day ago is shown, and nothing else unless it is stale. */
  lemma ShownIfDue(st: State, at: int, i: Item)
    requires Inv(st) && at >= st.sampled && at >= st.expired
    ensures var later := Retired(st, at);
      && (i in st.booked && Deadline(i.hour) > at ==> Shown(later, i))
      && (Shown(later, i) && !Stale(st) ==> i in st.booked && Deadline(i.hour) > at)
  {
    var later := Retired(st, at);
    if i in st.booked && Deadline(i.hour) > at && i.hour < st.open.value {
      var age := st.open.value - 1 - i.hour;
      assert SlotInv(st, st.open.value, age);
      assert i in later.slots[age].checkup;
    }
    if Shown(later, i) && !Stale(st) && i !in later.checkup {
      var k :| 0 <= k < SLOTS && i in later.slots[k].checkup;
      assert !StaleSlot(st.slots[k]);
      if st.open.Some? {
        assert SlotInv(st, st.open.value, k);
      }
    }
  }

  /** The hot-water window has no stale slots: it is exact in every run. */
  lemma DhwIsExact(st: State, at: int, i: Item)
    requires Inv(st) && at >= st.sampled && at >= st.expired
    ensures DhwShown(Retired(st, at), i) <==> i in st.dhwBooked && i.hour * HOUR > at - DAY * HOUR
  {
    var later := Retired(st, at);
    if i in st.dhwBooked && Deadline(i.hour) > at && i.hour < st.open.value {
      var age := st.open.value - 1 - i.hour;
      assert SlotInv(st, st.open.value, age);
      assert i in later.slots[age].dhw;
    }
    if DhwShown(later, i) && i !in later.dhw {
      var k :| 0 <= k < SLOTS && i in later.slots[k].dhw;
      if st.open.Some? {
        assert SlotInv(st, st.open.value, k);
      }
    }
  }

  lemma StaleShows(st: State, at: int)
    requires Inv(st) && Stale(st) && at >= st.expired
    ensures !ExactAt(st, at)
  {
    var k :| 0 <= k < SLOTS && StaleSlot(st.slots[k]);
    var i :| i in st.slots[k].checkup;
    if st.open.Some? {
      assert SlotInv(st, st.open.value, k);
    }
    assert i in Retired(st, at).slots[k].checkup;
    assert Shown(Retired(st, at), i);
  }

  /** Whatever clocks and producer do, the window after an expiry is the last day exactly when no slot is
      stale; the hot-water window always is. */
  lemma WindowIsTheLastDay(events: seq<Event>, at: int)
    requires var st := After(Init(), events); at >= st.sampled && at >= st.expired
    ensures var st := After(Init(), events);
      && (ExactAt(st, at) <==> !Stale(st))
      && forall i :: DhwShown(Retired(st, at), i) <==> i in st.dhwBooked && i.hour * HOUR > at - DAY * HOUR
  {
    RunKeeps(Init(), events);
    var st := After(Init(), events);
    forall i
      ensures DhwShown(Retired(st, at), i) <==> i in st.dhwBooked && i.hour * HOUR > at - DAY * HOUR
      ensures !Stale(st) ==> (Shown(Retired(st, at), i) <==> i in st.booked && i.hour * HOUR > at - DAY * HOUR)
    {
      ShownIfDue(st, at, i);
      DhwIsExact(st, at, i);
    }
    if Stale(st) {
      StaleShows(st, at);
    }
  }

  /** The sample ends a run that began in an hour which is still held and already retired. */
  predicate Overtakes(st: State, e: Event)
    requires |st.slots| == SLOTS
  {
    e.Record? && e.now >= st.sampled && e.run.Ends? && st.running.Some? &&
    var hour, start, closed := e.now / HOUR, st.running.value, Close(st, e.now / HOUR);
    Held(closed, hour, start) && closed.slots[hour - start - 1].expiry == 0
  }

  /** How many hours an event pushes. */
  function Pushes(st: State, e: Event): nat {
    if e.Record? && e.now >= st.sampled && st.open.Some? && e.now / HOUR > st.open.value then
      e.now / HOUR - st.open.value
    else 0
  }

  /** A stale slot appears exactly with a run that an expiry overtook, and stays until it is pushed out or wiped. */
  lemma StaleExactly(st: State, e: Event)
    requires Inv(st)
    ensures Stale(Step(st, e)) <==>
      Overtakes(st, e)
      || (!e.Wipe? && exists k :: 0 <= k && k + Pushes(st, e) < SLOTS && StaleSlot(st.slots[k]))
  {
    var st' := Step(st, e);
    if e.Record? && e.now >= st.sampled {
      HoursGrow(st.sampled, e.now);
      StaleRecord(st, e.now, e.now / HOUR, e.run, e.withDhw);
    } else if e.Expire? || e.ResetDhw? {
      assert forall k | 0 <= k < SLOTS :: StaleSlot(st'.slots[k]) <==> StaleSlot(st.slots[k]);
    }
  }

  lemma StaleRecord(st: State, now: nat, hour: nat, run: Run, withDhw: bool)
    requires Inv(st) && now >= st.sampled && hour == now / HOUR && st.sampled / HOUR <= hour
    ensures Stale(RecordedIn(st, now, hour, run, withDhw)) <==>
      Overtakes(st, Record(now, run, withDhw))
      || exists k :: 0 <= k && k + Pushes(st, Record(now, run, withDhw)) < SLOTS && StaleSlot(st.slots[k])
  {
    var st', closed := RecordedIn(st, now, hour, run, withDhw), Close(st, hour);
    var pushed := Pushes(st, Record(now, run, withDhw));
    forall k | 0 <= k < SLOTS
      ensures StaleSlot(closed.slots[k]) <==> k >= pushed && StaleSlot(st.slots[k - pushed])
    {
    }
    forall k | 0 <= k && k + pushed < SLOTS && StaleSlot(st.slots[k])
      ensures StaleSlot(st'.slots[k + pushed])
    {
      assert StaleSlot(closed.slots[k + pushed]);
    }
    if Overtakes(st, Record(now, run, withDhw)) {
      assert RunEnd(st.running.value, now) in st'.slots[hour - st.running.value - 1].checkup;
    } else {
      forall k | 0 <= k < SLOTS && StaleSlot(st'.slots[k])
        ensures StaleSlot(closed.slots[k])
      {
      }
    }
  }

  /** From an exact window a step leads to an exact one if and only if it books no run into a retired hour. */
  lemma StepStaysExact(st: State, e: Event, at: int)
    requires Inv(st) && !Stale(st) && at >= Step(st, e).sampled && at >= Step(st, e).expired
    ensures ExactAt(Step(st, e), at) <==> !Overtakes(st, e)
  {
    StepKeeps(st, e);
    StaleExactly(st, e);
    var st' := Step(st, e);
    if Stale(st') {
      StaleShows(st', at);
    } else {
      forall i
        ensures Shown(Retired(st', at), i) <==> i in st'.booked && i.hour * HOUR > at - DAY * HOUR
      {
        ShownIfDue(st', at, i);
      }
    }
  }

  /** Every deadline still standing lies ahead of the last expiry: no sample came a whole day late. */
  ghost predicate Punctual(st: State) {
    && (st.open.Some? ==> Deadline(st.open.value) > st.expired)
    && forall k | 0 <= k < |st.slots| && st.slots[k].expiry > 0 :: st.slots[k].expiry > st.expired
  }

  /** The same condition read off the clocks: the hour the run began in is still held, and its day was over at
      the last expiry. */
  lemma OvertakesByClock(st: State, e: Event)
    requires Inv(st) && e.Record? && e.now >= st.sampled && e.run.Ends? && st.running.Some?
    ensures var hour, start := e.now / HOUR, st.running.value;
      && (Overtakes(st, e) ==> Held(Close(st, hour), hour, start) && Deadline(start) <= st.expired)
      && (Punctual(st) && Held(Close(st, hour), hour, start) && Deadline(start) <= st.expired ==> Overtakes(st, e))
  {
    var hour, start := e.now / HOUR, st.running.value;
    HoursGrow(st.sampled, e.now);
    CloseKeeps(st, st.sampled / HOUR, hour);
    var closed := Close(st, hour);
    if Held(closed, hour, start) {
      assert SlotInv(closed, hour, hour - start - 1);
    }
  }

  lemma PunctualRecord(st: State, now: nat, hour: nat, run: Run, withDhw: bool)
    requires Punctual(st) && |st.slots| == SLOTS && st.expired >= 0 && Deadline(hour) > st.expired
    ensures Punctual(RecordedIn(st, now, hour, run, withDhw))
  {
    var closed, st' := Close(st, hour), RecordedIn(st, now, hour, run, withDhw);
    assert forall k | 0 <= k < SLOTS :: st'.slots[k].expiry == closed.slots[k].expiry;
  }

  lemma PunctualKeeps(st: State, e: Event)
    requires Inv(st) && Punctual(st)
    requires e.Record? && e.now >= st.sampled ==> Deadline(e.now / HOUR) > st.expired
    ensures Punctual(Step(st, e))
  {
    var st' := Step(st, e);
    match e
    case Record(now, run, withDhw) =>
      if now >= st.sampled {
        PunctualRecord(st, now, now / HOUR, run, withDhw);
      }
    case Expire(at) =>
      forall k | 0 <= k < SLOTS && st'.slots[k].expiry > 0
        ensures st'.slots[k].expiry > st'.expired
      {
        assert !Over(st.slots[k].expiry, at);
      }
    case Wipe =>
    case ResetDhw(now) =>
  }

  /** No sample of the run ends a run that an expiry overtook. */
  predicate NoneOvertaken(st: State, events: seq<Event>)
    requires |st.slots| == SLOTS
    decreases |events|
  {
    events == [] || (!Overtakes(st, events[0]) && NoneOvertaken(Step(st, events[0]), events[1..]))
  }

  lemma {:induction false} NeverStale(st: State, events: seq<Event>)
    requires Inv(st) && !Stale(st) && NoneOvertaken(st, events)
    ensures !Stale(After(st, events))
    decreases |events|
  {
    if events != [] {
      StepKeeps(st, events[0]);
      StaleExactly(st, events[0]);
      NeverStale(Step(st, events[0]), events[1..]);
    }
  }

  /** So every run without such a sample shows exactly the last day, at every expiry, however far its clock
      readings lag behind the lock. */
  lemma EveryRunIsExact(events: seq<Event>, at: int)
    requires NoneOvertaken(Init(), events)
    requires var st := After(Init(), events); at >= st.sampled && at >= st.expired
    ensures ExactAt(After(Init(), events), at)
  {
    NeverStale(Init(), events);
    WindowIsTheLastDay(events, at);
  }

  /** Samples whose clock was read no earlier than any expiry before them. */
  predicate InOrder(st: State, events: seq<Event>)
    requires |st.slots| == SLOTS
    decreases |events|
  {
    events == [] ||
    ((events[0].Record? ==> events[0].now >= st.expired) && InOrder(Step(st, events[0]), events[1..]))
  }

  /** In particular runs whose samples are never behind an expiry. */
  lemma {:induction false} NeverOvertaken(st: State, events: seq<Event>)
    requires Inv(st) && InOrder(st, events)
    ensures NoneOvertaken(st, events)
    decreases |events|
  {
    if events != [] {
      var e := events[0];
      if e.Record? && e.now >= st.sampled && e.run.Ends? && st.running.Some? {
        OvertakesByClock(st, e);
      }
      StepKeeps(st, e);
      NeverOvertaken(Step(st, e), events[1..]);
    }
  }

  /** A run that starts in hour 0 and ends in the last microsecond of hour 23, with an expiry at the start
      of hour 24 in between. */
  function Overtaking(): seq<Event> {
    [Record(0, Starts, false), Record(DAY * HOUR - 2, Carries, false), Expire(DAY * HOUR),
     Record(DAY * HOUR - 1, Ends, false)]
  }

  /** A sample read just before an expiry and recorded just after it can end a run whose hour the expiry
      retired; the window then is not the last day. */
  lemma OvertakenRunOutlives()
    ensures !NoneOvertaken(Init(), Overtaking())
    ensures var st := After(Init(), Overtaking()); Stale(st) && !ExactAt(st, st.expired)
  {
    var events := Overtaking();
    var s1 := Step(Init(), events[0]);
    var s2 := Step(s1, events[1]);
    var s3 := Step(s2, events[2]);
    var s4 := Step(s3, events[3]);
    assert events[1..][0] == events[1] && events[1..][1..][0] == events[2] && events[1..][1..][1..][0] == events[3];
    assert After(s3, events[1..][1..][1..]) == After(s4, []) == s4;
    assert After(s2, events[1..][1..]) == s4;
    assert After(s1, events[1..]) == s4;
    assert StaleSlot(s4.slots[22]) by {
      assert RunEnd(0, DAY * HOUR - 1) in s4.slots[22].checkup;
    }
    RunKeeps(Init(), events);
    StaleShows(s4, s4.expired);
    if NoneOvertaken(Init(), events) {
      NeverStale(Init(), events);
    }
  }
}
