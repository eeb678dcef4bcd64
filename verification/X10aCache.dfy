/**
 * The X10A value cache and the state-age table that is folded from the same sweep. One poll task sweeps,
 * announces the coming commit, folds the ages and commits; requests change the target in between. A reader
 * takes rows under one mutex and ages under another. Each lock section is one step and one method.
 */
module X10aCache {
  import opened Options

  /** The commit a table or a copy belongs to; `unit` stands for the profile and the unit's fingerprint. */
  datatype Identity = Identity(unit: int, generation: nat, revision: nat)

  /** A row, marked with the number of the sweep that read it. */
  datatype Row = Row(sweep: nat, value: int)

  datatype Sweep =
    | Resting
    | Sweeping(generation: nat, unit: int)
    | Announced(next: Identity)
    | Folded(next: Identity)

  datatype Reader =
    | Start
    | Copied(rows: seq<Row>, id: Identity)
    | Looked(rows: seq<Row>, accepted: bool, ages: nat)

  /** `sweeps` numbers the sweeps; `folded` is the one whose rows the state ages were last folded from. */
  datatype State = State(
    target: nat,
    rows: seq<Row>,
    unit: int,
    source: nat,
    revision: nat,
    published: Option<Identity>,
    folded: nat,
    sweeps: nat,
    sweep: Sweep,
    reader: Reader)

  datatype Event =
    | Begin(unit: int) | Announce | Fold(reset: bool) | Blind | Commit(values: seq<int>) | Abandon
    | Reconfigure
    | Copy(max: nat, recent: bool) | Look | Again

  function Init(): State {
    State(1, [], 0, 0, 0, None, 0, 0, Resting, Start)
  }

  function RowsOf(sweep: nat, values: seq<int>): (rows: seq<Row>)
    ensures |rows| == |values| && forall i | 0 <= i < |rows| :: rows[i] == Row(sweep, values[i])
  {
    seq(|values|, i requires 0 <= i < |values| => Row(sweep, values[i]))
  }

  function Matches(a: Identity, b: Option<Identity>): bool {
    a.generation != 0 && b == Some(a)
  }

  function Step(st: State, e: Event): State {
    var s := st.sweep;
    match e
    case Begin(unit) => if s.Resting? then st.(sweep := Sweeping(st.target, unit), sweeps := st.sweeps + 1) else st
    case Announce =>
      if !s.Sweeping? then st
      else if st.target != s.generation then st.(sweep := Resting)
      else st.(sweep := Announced(Identity(s.unit, s.generation, st.revision + 1)))
    case Fold(reset) =>
      if !s.Announced? then st
      else if st.target != s.next.generation then st.(sweep := Folded(s.next))
      else if reset then st.(published := None, sweep := Folded(s.next))
      else st.(published := Some(s.next), folded := st.sweeps, sweep := Folded(s.next))
    case Blind => st.(published := None)
    case Commit(values) =>
      if !s.Folded? then st
      else if st.target != s.next.generation then st.(sweep := Resting)
      else st.(rows := RowsOf(st.sweeps, values), unit := s.next.unit, source := s.next.generation,
               revision := st.revision + 1, sweep := Resting)
    case Abandon => st.(sweep := Resting)
    case Reconfigure =>
      st.(target := st.target + 1, rows := [], unit := 0, source := 0, revision := st.revision + 1)
    case Copy(max, recent) =>
      if !st.reader.Start? then st
      else if !recent then st.(reader := Copied([], Identity(0, 0, 0)))
      else st.(reader := Copied(if |st.rows| < max then st.rows else st.rows[..max],
                                Identity(st.unit, st.source, st.revision)))
    case Look =>
      if !st.reader.Copied? then st
      else st.(reader := Looked(st.reader.rows, Matches(st.reader.id, st.published), st.folded))
    case Again => st.(reader := Start)
  }

  function Run(st: State, events: seq<Event>): State
    decreases |events|
  {
    if events == [] then st else Run(Step(st, events[0]), events[1..])
  }

  predicate AllFrom(rows: seq<Row>, sweep: nat) {
    forall i | 0 <= i < |rows| :: rows[i].sweep == sweep
  }

  predicate SweepInv(st: State) {
    var s := st.sweep;
    && (s.Sweeping? ==> s.generation <= st.target)
    && (s.Announced? || s.Folded? ==>
          && s.next.generation <= st.target
          && (s.next.generation == st.target ==> s.next.revision == st.revision + 1))
    && (s.Folded? && s.next.generation == st.target ==>
          st.published.None? || (st.published == Some(s.next) && st.folded == st.sweeps))
  }

  predicate ReaderInv(st: State) {
    var r := st.reader;
    && (r.Copied? ==> r.id.revision <= st.revision && (Matches(r.id, st.published) ==> AllFrom(r.rows, st.folded)))
    && (r.Looked? && r.accepted ==> AllFrom(r.rows, r.ages))
  }

  predicate Inv(st: State) {
    && st.target > 0
    && (st.source != 0 ==> st.source == st.target)
    && (st.rows != [] ==> st.source != 0)
    && (st.published == Some(Identity(st.unit, st.source, st.revision)) && st.source != 0 ==>
        AllFrom(st.rows, st.folded))
    && SweepInv(st) && ReaderInv(st)
  }

  lemma StepKeeps(st: State, e: Event)
    requires Inv(st)
    ensures Inv(Step(st, e))
  {
  }

  lemma {:induction false} RunKeeps(st: State, events: seq<Event>)
    requires Inv(st)
    ensures Inv(Run(st, events))
    decreases |events|
  {
    if events != [] {
      StepKeeps(st, events[0]);
      RunKeeps(Step(st, events[0]), events[1..]);
    }
  }

  /** Whatever is in the cache was committed for the current target. */
  lemma CacheIsCurrent(events: seq<Event>)
    ensures var st := Run(Init(), events); st.rows != [] ==> st.source == st.target
  {
    RunKeeps(Init(), events);
  }

  /** A commit is exactly the one that was announced, or it is refused and leaves the cache alone. */
  lemma CommitsAsAnnounced(events: seq<Event>, values: seq<int>)
    requires Run(Init(), events).sweep.Folded?
    ensures var st := Run(Init(), events);
      var st' := Step(st, Commit(values));
      if st.target == st.sweep.next.generation then
        Identity(st'.unit, st'.source, st'.revision) == st.sweep.next && st'.rows == RowsOf(st.sweeps, values)
      else st' == st.(sweep := Resting)
  {
    RunKeeps(Init(), events);
  }

  /** Ages handed to a reader were folded from the very sweep its rows came from. */
  lemma AgesBelongToRows(events: seq<Event>)
    ensures var r := Run(Init(), events).reader; r.Looked? && r.accepted ==> AllFrom(r.rows, r.ages)
  {
    RunKeeps(Init(), events);
  }

  /** The globals of the poll task, one method per lock section. */
  class Cache {
    var target: nat
    var rows: seq<Row>
    var unit: int
    var source: nat
    var revision: nat
    var published: Option<Identity>
    var folded: nat
    var sweeps: nat
    var sweep: Sweep
    var reader: Reader

    ghost function Now(): State
      reads this
    {
      State(target, rows, unit, source, revision, published, folded, sweeps, sweep, reader)
    }

    constructor ()
      ensures Now() == Init() && Inv(Now())
    {
      target, rows, unit, source, revision := 1, [], 0, 0, 0;
      published, folded, sweeps, sweep, reader := None, 0, 0, Resting, Start;
    }

    method BeginSweep(configured: int)
      requires Inv(Now()) && sweep.Resting?
      modifies this
      ensures Now() == Step(old(Now()), Begin(configured)) && Inv(Now())
    {
      sweep := Sweeping(target, configured);
      sweeps := sweeps + 1;
    }

    method AnnounceCommit() returns (go: bool)
      requires Inv(Now()) && sweep.Sweeping?
      modifies this
      ensures Now() == Step(old(Now()), Announce) && Inv(Now())
      ensures go <==> sweep.Announced?
    {
      if target != sweep.generation {
        sweep := Resting;
        return false;
      }
      sweep := Announced(Identity(sweep.unit, sweep.generation, revision + 1));
      return true;
    }

    /** The ages of the announced sweep, unless its target is gone or a reset discards them. */
    method FoldAges(reset: bool)
      requires Inv(Now()) && sweep.Announced?
      modifies this
      ensures Now() == Step(old(Now()), Fold(reset)) && Inv(Now())
    {
      if target == sweep.next.generation {
        published := None;
        if !reset {
          folded := sweeps;
          published := Some(sweep.next);
        }
      }
      sweep := Folded(sweep.next);
    }

    method CommitSweep(values: seq<int>) returns (done: bool)
      requires Inv(Now()) && sweep.Folded?
      modifies this
      ensures Now() == Step(old(Now()), Commit(values)) && Inv(Now())
      ensures done ==> rows == RowsOf(sweeps, values) && Identity(unit, source, revision) == old(sweep.next)
      ensures !done ==> rows == old(rows) && revision == old(revision)
    {
      StepKeeps(Now(), Commit(values));
      var next := sweep.next;
      sweep := Resting;
      if target != next.generation {
        return false;
      }
      rows := RowsOf(sweeps, values);
      unit, source := next.unit, next.generation;
      revision := revision + 1;
      return true;
    }

    method ChangeTarget()
      requires Inv(Now())
      modifies this
      ensures Now() == Step(old(Now()), Reconfigure) && Inv(Now())
      ensures rows == [] && target == old(target) + 1
    {
      StepKeeps(Now(), Reconfigure);
      target := target + 1;
      rows, unit, source := [], 0, 0;
      revision := revision + 1;
    }
  }
}
