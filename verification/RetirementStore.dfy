/**
 * The retirement record against a factory reset: saving checks the reset's latch under the lock that
 * forgetting takes. The latch itself is set and withdrawn by others at any time.
 */
module RetirementStore {
  import opened Options

  /** Who is inside the lock, and how far. */
  datatype Holder = Free | Saving | Allowed | Forgetting

  /** `clean` remembers a forget that succeeded under a latch which has held since. */
  datatype State = State(latched: bool, record: Option<int>, holder: Holder, clean: bool)

  datatype Event = Latch | Unlatch | Lock | Ask | Write(value: int, done: bool) | LockToForget | Erase(done: bool)

  function Init(record: Option<int>): State {
    State(false, record, Free, false)
  }

  /** `Lock`, `Ask` and `Write` are a save; `LockToForget` and `Erase` a forget. A failed write leaves what
      was stored, since the entry is replaced as one. */
  function Step(st: State, e: Event): State {
    match e
    case Latch => st.(latched := true)
    case Unlatch => st.(latched := false, clean := false)
    case Lock => if st.holder.Free? then st.(holder := Saving) else st
    case Ask => if st.holder.Saving? then st.(holder := if st.latched then Free else Allowed) else st
    case Write(value, done) =>
      if !st.holder.Allowed? then st else st.(holder := Free, record := if done then Some(value) else st.record)
    case LockToForget => if st.holder.Free? then st.(holder := Forgetting) else st
    case Erase(done) =>
      if !st.holder.Forgetting? then st
      else st.(holder := Free, record := if done || st.record.None? then None else st.record,
               clean := st.clean || (st.latched && (done || st.record.None?)))
  }

  function Run(st: State, events: seq<Event>): State
    decreases |events|
  {
    if events == [] then st else Run(Step(st, events[0]), events[1..])
  }

  predicate Inv(st: State) {
    st.clean ==> st.latched && st.record.None? && st.holder != Allowed
  }

  lemma {:induction false} RunKeeps(st: State, events: seq<Event>)
    requires Inv(st)
    ensures Inv(Run(st, events))
    decreases |events|
  {
    if events != [] {
      RunKeeps(Step(st, events[0]), events[1..]);
    }
  }

  /** After a forget that succeeds under the latch there is no record, whatever saves were under way or
      come later, until the latch is withdrawn. */
  lemma ForgottenStaysForgotten(record: Option<int>, before: seq<Event>, after: seq<Event>)
    requires var st := Run(Init(record), before); st.latched && st.holder.Forgetting?
    requires Unlatch !in after
    ensures Run(Step(Run(Init(record), before), Erase(true)), after).record.None?
  {
    RunKeeps(Init(record), before);
    var st := Step(Run(Init(record), before), Erase(true));
    RunKeeps(st, after);
    CleanStays(st, after);
  }

  lemma {:induction false} CleanStays(st: State, events: seq<Event>)
    requires st.clean && Unlatch !in events
    ensures Run(st, events).clean
    decreases |events|
  {
    if events != [] {
      CleanStays(Step(st, events[0]), events[1..]);
    }
  }

  /** The lock alone does not do it: without the latch a save that waited writes the record again. */
  lemma UnlatchedForgetIsNotFinal(value: int)
    ensures exists events ::
      Unlatch !in events && Run(Step(Step(Init(Some(value)), LockToForget), Erase(true)), events).record == Some(value)
  {
    var forgotten := Step(Step(Init(Some(value)), LockToForget), Erase(true));
    var waiting, asked := Step(forgotten, Lock), Step(Step(forgotten, Lock), Ask);
    var events := [Lock, Ask, Write(value, true)];
    assert events[1..] == [Ask, Write(value, true)] && events[1..][1..] == [Write(value, true)];
    assert Run(asked, [Write(value, true)]) == Step(asked, Write(value, true));
    assert Run(waiting, events[1..]) == Run(asked, events[1..][1..]);
    assert Run(forgotten, events).record == Some(value);
  }
}
