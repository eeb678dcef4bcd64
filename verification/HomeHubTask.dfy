/**
 * The HomeHub worker task: started when an address is configured, retiring itself when it is gone.
 * Requests store the wanted state and then call the same start check a retired task ends with. Every
 * lock section and every atomic access outside one is a step.
 */
module HomeHubTask {
  import opened Options

  /** Where a task is: it owns the slot up to and including `Releasing`. */
  datatype Task = Created | Looping | Stopping | Clearing | Releasing | Rechecking | Restarting | Gone

  /** `checking` and `locking` count the requests that are about to read `enabled`, and those that read it
      true and are about to take the lock. `denied` remembers a creation refused since the last request. */
  datatype State = State(
    enabled: bool,
    slot: Option<nat>,
    running: bool,
    shown: bool,
    tasks: seq<Task>,
    checking: nat,
    locking: nat,
    denied: bool)

  datatype Event = Request(enable: bool) | Check | Lock(created: bool) | Move(task: nat, created: bool)

  function Init(): State {
    State(false, None, false, false, [], 0, 0, false)
  }

  /** The lock section of the start check. */
  function Start(st: State, created: bool): State {
    if st.slot.Some? then st
    else if created then st.(slot := Some(|st.tasks|), shown := true, tasks := st.tasks + [Created])
    else st.(shown := false, denied := true)
  }

  function At(st: State, i: nat, t: Task): State
    requires i < |st.tasks|
  {
    st.(tasks := st.tasks[i := t])
  }

  function MoveTask(st: State, i: nat, created: bool): State
    requires i < |st.tasks|
  {
    match st.tasks[i]
    case Created => At(st, i, Looping).(running := true)
    case Looping => if st.enabled then st else At(st, i, Stopping)
    case Stopping => At(st, i, Clearing)
    case Clearing => At(st, i, Releasing)
    case Releasing => At(st, i, Rechecking).(shown := false, running := false, slot := None)
    case Rechecking => At(st, i, if st.enabled then Restarting else Gone)
    case Restarting => Start(At(st, i, Gone), created)
    case Gone => st
  }

  function Step(st: State, e: Event): State {
    match e
    case Request(enable) => st.(enabled := enable, checking := st.checking + 1, denied := false)
    case Check =>
      if st.checking == 0 then st
      else st.(checking := st.checking - 1, locking := if st.enabled then st.locking + 1 else st.locking)
    case Lock(created) => if st.locking == 0 then st else Start(st.(locking := st.locking - 1), created)
    case Move(i, created) => if i < |st.tasks| then MoveTask(st, i, created) else st
  }

  function Run(st: State, events: seq<Event>): State
    decreases |events|
  {
    if events == [] then st else Run(Step(st, events[0]), events[1..])
  }

  predicate Owns(t: Task) {
    t == Created || t == Looping || t == Stopping || t == Clearing || t == Releasing
  }

  predicate Returning(t: Task) {
    t == Rechecking || t == Restarting
  }

  /** Somebody will still look whether a task is needed. */
  ghost predicate Pending(st: State) {
    st.checking > 0 || st.locking > 0 || exists i :: 0 <= i < |st.tasks| && Returning(st.tasks[i])
  }

  ghost predicate Inv(st: State) {
    && (st.slot.Some? ==> st.slot.value < |st.tasks|)
    && (forall i | 0 <= i < |st.tasks| :: Owns(st.tasks[i]) <==> st.slot == Some(i))
    && (st.running <==> st.slot.Some? && st.tasks[st.slot.value] != Created)
    && (st.shown <==> st.slot.Some?)
    && (st.enabled && st.slot.None? ==> st.denied || Pending(st))
  }

  lemma StartKeeps(st: State, created: bool)
    requires (st.slot.Some? ==> st.slot.value < |st.tasks|)
    requires forall i | 0 <= i < |st.tasks| :: Owns(st.tasks[i]) <==> st.slot == Some(i)
    requires st.running <==> st.slot.Some? && st.tasks[st.slot.value] != Created
    requires st.shown <==> st.slot.Some?
    ensures Inv(Start(st, created))
  {
  }

  /** A request or its check touches no task; whoever was going to look still is. */
  lemma WishKeeps(st: State, st': State)
    requires Inv(st) && st' ==
      st.(enabled := st'.enabled, checking := st'.checking, locking := st'.locking, denied := st'.denied)
    requires st'.enabled && st'.slot.None? ==>
      st'.denied || st'.checking > 0 || st'.locking > 0 || exists i :: 0 <= i < |st.tasks| && Returning(st.tasks[i])
    ensures Inv(st')
  {
    if exists i :: 0 <= i < |st.tasks| && Returning(st.tasks[i]) {
      assert Pending(st');
    }
  }

  lemma StepKeeps(st: State, e: Event)
    requires Inv(st)
    ensures Inv(Step(st, e))
  {
    match e
    case Request(_) => WishKeeps(st, Step(st, e));
    case Check => WishKeeps(st, Step(st, e));
    case Lock(created) =>
      if st.locking > 0 {
        StartKeeps(st.(locking := st.locking - 1), created);
      }
    case Move(i, created) =>
      if i < |st.tasks| {
        if st.tasks[i] == Restarting {
          StartKeeps(At(st, i, Gone), created);
        } else {
          MoveKeeps(st, i, created);
        }
      }
  }

  lemma MoveKeeps(st: State, i: nat, created: bool)
    requires Inv(st) && i < |st.tasks| && st.tasks[i] != Restarting
    ensures Inv(MoveTask(st, i, created))
  {
    var st' := MoveTask(st, i, created);
    if st'.enabled && st'.slot.None? && !st'.denied {
      if Returning(st'.tasks[i]) {
        assert Pending(st');
      } else if exists j :: 0 <= j < |st.tasks| && Returning(st.tasks[j]) {
        var j :| 0 <= j < |st.tasks| && Returning(st.tasks[j]);
        assert Returning(st'.tasks[j]);
      }
    }
  }

  lemma {:induction false} RunKeeps(st: State, events: seq<Event>)
    requires Inv(st)
    ensures Inv(Run(st, events))
    decreases |events|
  {
    if events != [] {
      StepKeeps(st, events[0]);
      RunKeeps(Step(st, events[0]), events[1..]);
    }
  }

  /** At most one task owns the slot; a started one is always shown as running, a retired one never is. */
  lemma OneOwner(events: seq<Event>, i: nat, j: nat)
    requires var st := Run(Init(), events); i < |st.tasks| && j < |st.tasks|
    ensures var st := Run(Init(), events);
      && (Owns(st.tasks[i]) && Owns(st.tasks[j]) ==> i == j)
      && (Owns(st.tasks[i]) && st.tasks[i] != Created ==> st.running)
      && (st.running ==> st.slot.Some? && st.slot.value < |st.tasks| && Owns(st.tasks[st.slot.value]))
  {
    RunKeeps(Init(), events);
  }

  /** A task changes what others see only while it owns the slot, or by taking a free slot for a successor. */
  lemma OnlyOwnerWrites(events: seq<Event>, i: nat, created: bool)
    requires i < |Run(Init(), events).tasks|
    ensures var st := Run(Init(), events);
      var st' := Step(st, Move(i, created));
      (st'.running, st'.shown, st'.slot) != (st.running, st.shown, st.slot) ==>
        st.slot == Some(i) || (st.tasks[i] == Restarting && st.slot.None?)
  {
    RunKeeps(Init(), events);
  }

  /** How far a task is from rest, with no further requests. */
  function Weight(enabled: bool, t: Task): nat {
    match t
    case Created => if enabled then 1 else 6
    case Looping => if enabled then 0 else 5
    case Stopping => if enabled then 6 else 4
    case Clearing => if enabled then 5 else 3
    case Releasing => if enabled then 4 else 2
    case Rechecking => if enabled then 3 else 1
    case Restarting => if enabled then 2 else 7
    case Gone => 0
  }

  function Total(enabled: bool, tasks: seq<Task>): nat {
    if tasks == [] then 0 else Total(enabled, tasks[..|tasks| - 1]) + Weight(enabled, tasks[|tasks| - 1])
  }

  function Work(st: State): nat {
    Total(st.enabled, st.tasks) +
      (if st.enabled then 3 * st.checking + 2 * st.locking else st.checking + 7 * st.locking)
  }

  lemma {:induction false} TotalAt(enabled: bool, tasks: seq<Task>, i: nat, t: Task)
    requires i < |tasks|
    ensures Total(enabled, tasks[i := t]) + Weight(enabled, tasks[i]) == Total(enabled, tasks) + Weight(enabled, t)
  {
    var n := |tasks| - 1;
    assert tasks[i := t][..n] == if i < n then tasks[..n][i := t] else tasks[..n];
    if i < n {
      TotalAt(enabled, tasks[..n], i, t);
    }
  }

  lemma {:induction false} TotalHas(enabled: bool, tasks: seq<Task>, i: nat)
    requires i < |tasks|
    ensures Total(enabled, tasks) >= Weight(enabled, tasks[i])
  {
    var n := |tasks| - 1;
    if i < n {
      TotalHas(enabled, tasks[..n], i);
    }
  }

  lemma {:induction false} TotalBusy(enabled: bool, tasks: seq<Task>) returns (i: nat)
    requires Total(enabled, tasks) > 0
    ensures i < |tasks| && Weight(enabled, tasks[i]) > 0
  {
    var n := |tasks| - 1;
    if Weight(enabled, tasks[n]) > 0 {
      i := n;
    } else {
      i := TotalBusy(enabled, tasks[..n]);
    }
  }

  lemma StartCosts(st: State, created: bool)
    ensures Work(Start(st, created)) <= Work(st) + if st.enabled then 1 else 6
  {
    assert (st.tasks + [Created])[..|st.tasks|] == st.tasks;
  }

  lemma RestartWorks(st: State, i: nat, created: bool)
    requires i < |st.tasks| && st.tasks[i] == Restarting
    ensures Work(MoveTask(st, i, created)) < Work(st)
  {
    TotalAt(st.enabled, st.tasks, i, Gone);
    StartCosts(At(st, i, Gone), created);
  }

  lemma MoveWorks(st: State, i: nat, created: bool)
    requires i < |st.tasks| && st.tasks[i] != Restarting
    ensures MoveTask(st, i, created) == st || Work(MoveTask(st, i, created)) < Work(st)
  {
    var st' := MoveTask(st, i, created);
    TotalAt(st.enabled, st.tasks, i, st'.tasks[i]);
    assert st'.tasks == st.tasks[i := st'.tasks[i]];
    assert Total(st.enabled, st'.tasks) + Weight(st.enabled, st.tasks[i]) ==
      Total(st.enabled, st.tasks) + Weight(st.enabled, st'.tasks[i]);
  }

  /** Between requests every step that changes anything brings the whole closer to rest. */
  lemma StepWorks(st: State, e: Event)
    requires !e.Request?
    ensures Step(st, e) == st || Work(Step(st, e)) < Work(st)
  {
    match e
    case Request(_) =>
    case Check =>
    case Lock(created) =>
      if st.locking > 0 {
        StartCosts(st.(locking := st.locking - 1), created);
      }
    case Move(i, created) =>
      if i < |st.tasks| {
        if st.tasks[i] == Restarting {
          RestartWorks(st, i, created);
        } else {
          MoveWorks(st, i, created);
        }
      }
  }

  /** While there is work left, some step changes something. */
  lemma WorkLeft(st: State) returns (e: Event)
    requires Work(st) > 0
    ensures !e.Request? && Step(st, e) != st
  {
    if st.checking > 0 {
      e := Check;
    } else if st.locking > 0 {
      e := Lock(true);
    } else {
      var i := TotalBusy(st.enabled, st.tasks);
      e := Move(i, true);
      assert Step(st, e).tasks[i] != st.tasks[i];
    }
  }

  /** At rest a task runs exactly when one is wanted, unless its creation was refused. */
  lemma RestMeansWanted(events: seq<Event>)
    requires Work(Run(Init(), events)) == 0
    ensures var st := Run(Init(), events);
      && (st.slot.Some? ==>
            st.slot.value < |st.tasks| && st.enabled && st.running && st.tasks[st.slot.value] == Looping)
      && (st.enabled ==> st.denied || st.slot.Some?)
  {
    RunKeeps(Init(), events);
    var st := Run(Init(), events);
    forall i | 0 <= i < |st.tasks|
      ensures Weight(st.enabled, st.tasks[i]) == 0
    {
      TotalHas(st.enabled, st.tasks, i);
    }
  }

  /** Any schedule of effective steps comes to rest within the work there was. */
  lemma {:induction false} Settles(st: State, events: seq<Event>)
    requires forall i | 0 <= i < |events| :: !events[i].Request?
    ensures Work(Run(st, events)) <= Work(st)
    ensures Effective(st, events) ==> |events| + Work(Run(st, events)) <= Work(st)
    decreases |events|
  {
    if events != [] {
      StepWorks(st, events[0]);
      Settles(Step(st, events[0]), events[1..]);
    }
  }

  predicate Effective(st: State, events: seq<Event>)
    decreases |events|
  {
    events == [] || (Step(st, events[0]) != st && Effective(Step(st, events[0]), events[1..]))
  }
}
