/**
 * The deadline guard as its tasks run it: shared variables updated one atomic operation at a time, with
 * everything the other tasks do in between handed in as a script.
 */
module DeadlineDevice {
  import opened Options
  import opened Deadline

  lemma {:induction false} RunOneMore(st: State, events: seq<Event>, e: Event)
    ensures Run(st, events + [e]) == Step(Run(st, events), e)
    decreases |events|
  {
    if events == [] {
      assert [e][1..] == [] && [] + [e] == [e];
      assert Run(st, [e]) == Run(Step(st, e), []);
    } else {
      assert (events + [e])[1..] == events[1..] + [e];
      RunOneMore(Step(st, events[0]), events[1..], e);
    }
  }

  lemma {:induction false} RunJoins(st: State, a: seq<Event>, b: seq<Event>)
    ensures Run(st, a + b) == Run(Run(st, a), b)
    decreases |a|
  {
    if a == [] {
      assert [] + b == b;
    } else {
      assert (a + b)[1..] == a[1..] + b;
      RunJoins(Step(st, a[0]), a[1..], b);
    }
  }

  /** No event of the script is a step of `g`'s own task. */
  predicate Foreigners(g: nat, script: seq<Event>) {
    forall i | 0 <= i < |script| :: !(script[i].Owner? && script[i].g == g)
  }

  lemma {:induction false} OthersLeaveGuard(st: State, script: seq<Event>, g: nat)
    requires g < |st.guards| && Foreigners(g, script)
    ensures Run(st, script).guards[g] == st.guards[g]
    decreases |script|
  {
    if script != [] {
      OtherLeavesGuard(st, script[0], g);
      OthersLeaveGuard(Step(st, script[0]), script[1..], g);
    }
  }

  lemma OtherLeavesGuard(st: State, e: Event, g: nat)
    requires g < |st.guards| && !(e.Owner? && e.g == g)
    ensures Step(st, e).guards[g] == st.guards[g]
  {
  }

  /** How `arm` ends: armed, refused, too late, or with the timer not started. */
  datatype ArmResult = Armed | Invalid | Timeout | NotStarted

  lemma StartIs(st: State, g: nat, accepted: bool)
    requires !st.aborted && g < |st.guards| && st.guards[g].stage == Clean
    ensures var started := accepted && !st.armed;
      Step(st, Owner(g, OwnerStep.Start(accepted)))
      == st.(guards := Put(st.guards, g, if started then Started else Refused), armed := st.armed || started)
  {
  }

  lemma PublishIs(st: State, g: nat)
    requires !st.aborted && g < |st.guards| && st.guards[g].stage == Started
    ensures Step(st, Owner(g, OwnerStep.Publish))
         == st.(guards := Marked(st.guards, g, Active, false), owner := Some(g), holder := None)
  {
  }

  lemma WithdrawIs(st: State, g: nat)
    requires !st.aborted && g < |st.guards| && st.guards[g].stage == Refused
    ensures Step(st, Owner(g, OwnerStep.Withdraw))
         == st.(guards := Put(st.guards, g, Idle), socket := -1, holder := None)
  {
  }

  lemma ReleaseIs(st: State, g: nat)
    requires !st.aborted && g < |st.guards| && st.guards[g].stage == Emptied
    ensures Step(st, Owner(g, OwnerStep.Release)) ==
      st.(guards := Put(st.guards, g, Idle), owner := None, holder := None)
  {
  }

  class Device {
    var guards: seq<Guard>
    var holder: Option<nat>
    var owner: Option<nat>
    var socket: int
    var fired: bool
    var failed: bool
    var armed: bool
    var callback: Callback
    var notified: nat
    var watchdog: Watchdog
    var completion: bool
    var table: map<nat, nat>
    var nextId: nat
    var aborted: bool
    ghost var trace: seq<Event>

    ghost function Now(): State
      reads this
    {
      State(guards, holder, owner, socket, fired, failed, armed, callback, notified, watchdog, completion, table,
            nextId, aborted)
    }

    /** The device is where its history has brought it. */
    ghost predicate Valid()
      reads this
    {
      Now() == Run(Init(|guards|), trace)
    }

    constructor (count: nat)
      ensures Valid() && !aborted && |guards| == count && Now() == Init(count)
    {
      guards := seq(count, _ => Guard(None, Idle, false));
      holder, owner, socket, fired, failed := None, None, -1, false, false;
      armed, callback, notified, watchdog, completion := false, Out, 0, Waiting, false;
      table, nextId, aborted, trace := map[], 0, false, [];
    }

    method BecomeOwners(st: State)
      modifies this`guards, this`holder, this`owner, this`socket, this`fired, this`failed
      ensures guards == st.guards && holder == st.holder && owner == st.owner
      ensures socket == st.socket && fired == st.fired && failed == st.failed
    {
      guards, holder, owner := st.guards, st.holder, st.owner;
      socket, fired, failed := st.socket, st.fired, st.failed;
    }

    method BecomeMachine(st: State)
      modifies this`armed, this`callback, this`notified, this`watchdog, this`completion, this`table, this`nextId,
        this`aborted
      ensures armed == st.armed && callback == st.callback && notified == st.notified && watchdog == st.watchdog
      ensures completion == st.completion && table == st.table && nextId == st.nextId && aborted == st.aborted
    {
      armed, callback, notified, watchdog := st.armed, st.callback, st.notified, st.watchdog;
      completion, table, nextId, aborted := st.completion, st.table, st.nextId, st.aborted;
    }

    /** What the other tasks do before this one's next operation. */
    method Others(ghost g: nat, script: seq<Event>)
      requires Valid() && g < |guards| && Foreigners(g, script)
      modifies this
      ensures Valid() && Now() == Run(old(Now()), script)
      ensures |guards| == old(|guards|) && guards[g] == old(guards[g])
    {
      RunJoins(Init(|guards|), trace, script);
      OthersLeaveGuard(Now(), script, g);
      var st := Run(State(guards, holder, owner, socket, fired, failed, armed, callback, notified, watchdog,
                          completion, table, nextId, aborted), script);
      BecomeOwners(st);
      BecomeMachine(st);
      trace := trace + script;
    }

    /** Records that one operation has been done. */
    ghost method Done(before: State, e: Event)
      requires before == Run(Init(|before.guards|), trace)
      requires Now() == Step(before, e)
      modifies this`trace
      ensures Valid()
    {
      RunOneMore(Init(|before.guards|), trace, e);
      trace := trace + [e];
    }

    /** Takes the owner mutex; nobody else may be armed. */
    method Lock(g: nat)
      requires Valid() && !aborted && g < |guards| && guards[g].stage == Idle && holder.None? && owner.None? &&
        guards[g].conn.Some?
      modifies this`guards, this`holder, this`trace
      ensures Valid() && Now() == Step(old(Now()), Owner(g, OwnerStep.Lock)) && |guards| == old(|guards|)
      ensures guards[g] == old(guards[g]).(stage := Locked)
    {
      ghost var st := Now();
      holder := Some(g);
      guards := guards[g := guards[g].(stage := Locked)];
      Done(st, Owner(g, OwnerStep.Lock));
    }

    /** Drains an acknowledgement left from before. */
    method Drain(g: nat)
      requires Valid() && !aborted && g < |guards| && guards[g].stage == Locked
      modifies this`guards, this`completion, this`trace
      ensures Valid() && Now() == Step(old(Now()), Owner(g, OwnerStep.Drain)) && |guards| == old(|guards|)
      ensures guards[g] == old(guards[g]).(stage := Drained)
    {
      ghost var st := Now();
      completion := false;
      guards := guards[g := guards[g].(stage := Drained)];
      Done(st, Owner(g, OwnerStep.Drain));
    }

    /** Publishes the descriptor. */
    method StoreSocket(g: nat)
      requires Valid() && !aborted && g < |guards| && guards[g].stage == Drained && guards[g].conn.Some?
      modifies this`guards, this`socket, this`trace
      ensures Valid() && Now() == Step(old(Now()), Owner(g, OwnerStep.StoreSocket)) && |guards| == old(|guards|)
      ensures guards[g] == old(guards[g]).(stage := Stored)
    {
      ghost var st := Now();
      socket := guards[g].conn.value.fd;
      guards := guards[g := guards[g].(stage := Stored)];
      Done(st, Owner(g, OwnerStep.StoreSocket));
    }

    /** Clears the last verdict. */
    method ClearFired(g: nat)
      requires Valid() && !aborted && g < |guards| && guards[g].stage == Stored
      modifies this`guards, this`fired, this`trace
      ensures Valid() && Now() == Step(old(Now()), Owner(g, OwnerStep.ClearFired)) && |guards| == old(|guards|)
      ensures guards[g] == old(guards[g]).(stage := Unfired)
    {
      ghost var st := Now();
      fired := false;
      guards := guards[g := guards[g].(stage := Unfired)];
      Done(st, Owner(g, OwnerStep.ClearFired));
    }

    /** Clears the last failure. */
    method ClearFailed(g: nat)
      requires Valid() && !aborted && g < |guards| && guards[g].stage == Unfired
      modifies this`guards, this`failed, this`trace
      ensures Valid() && Now() == Step(old(Now()), Owner(g, OwnerStep.ClearFailed)) && |guards| == old(|guards|)
      ensures guards[g] == old(guards[g]).(stage := Clean)
    {
      ghost var st := Now();
      failed := false;
      guards := guards[g := guards[g].(stage := Clean)];
      Done(st, Owner(g, OwnerStep.ClearFailed));
    }

    /** Starts the timer unless the system refuses or it is armed already. */
    method StartTimer(g: nat, accepted: bool) returns (started: bool)
      requires Valid() && !aborted && g < |guards| && guards[g].stage == Clean
      modifies this`guards, this`armed, this`trace
      ensures Valid() && Now() == Step(old(Now()), Owner(g, OwnerStep.Start(accepted))) && |guards| == old(|guards|)
      ensures guards[g] == old(guards[g]).(stage := if started then Started else Refused)
    {
      ghost var st := Now();
      started := accepted && !armed;
      if started {
        armed := true;
      }
      guards := guards[g := guards[g].(stage := if started then Started else Refused)];
      StartIs(st, g, accepted);
      Done(st, Owner(g, OwnerStep.Start(accepted)));
    }

    /** Makes the guard active and leaves the mutex. */
    method Publish(g: nat)
      requires Valid() && !aborted && g < |guards| && guards[g].stage == Started
      modifies this`guards, this`owner, this`holder, this`trace
      ensures Valid() && Now() == Step(old(Now()), Owner(g, OwnerStep.Publish)) && |guards| == old(|guards|)
      ensures guards[g] == old(guards[g]).(stage := Active, expired := false)
    {
      ghost var st := Now();
      guards := guards[g := guards[g].(stage := Active, expired := false)];
      owner := Some(g);
      holder := None;
      PublishIs(st, g);
      Done(st, Owner(g, OwnerStep.Publish));
    }

    /** Takes the descriptor back after a refused start, and leaves the mutex. */
    method Withdraw(g: nat)
      requires Valid() && !aborted && g < |guards| && guards[g].stage == Refused
      modifies this`guards, this`socket, this`holder, this`trace
      ensures Valid() && Now() == Step(old(Now()), Owner(g, OwnerStep.Withdraw)) && |guards| == old(|guards|)
      ensures guards[g] == old(guards[g]).(stage := Idle)
    {
      ghost var st := Now();
      socket := -1;
      guards := guards[g := guards[g].(stage := Idle)];
      holder := None;
      WithdrawIs(st, g);
      Done(st, Owner(g, OwnerStep.Withdraw));
    }

    /** Too late to arm: the guard is expired without ever having been armed. */
    method LatchTimeout(g: nat)
      requires Valid() && !aborted && g < |guards| && guards[g].stage == Idle
      modifies this`guards, this`trace
      ensures Valid() && Now() == Step(old(Now()), Owner(g, OwnerStep.TooLate)) && |guards| == old(|guards|)
      ensures guards[g] == old(guards[g]).(expired := true)
    {
      ghost var st := Now();
      guards := guards[g := guards[g].(expired := true)];
      Done(st, Owner(g, OwnerStep.TooLate));
    }

    /** Publishes the descriptor over a clean slate: `gaps` is what happens before each operation. */
    method Prepare(g: nat, gaps: seq<seq<Event>>)
      requires Valid() && !aborted && g < |guards| && guards[g].stage == Locked && guards[g].conn.Some?
      requires |gaps| == 4 && forall i | 0 <= i < |gaps| :: Foreigners(g, gaps[i])
      modifies this
      ensures Valid() && |guards| == old(|guards|)
      ensures !aborted ==> guards[g] == old(guards[g]).(stage := Clean)
    {
      Others(g, gaps[0]);
      if aborted {
        return;
      }
      Drain(g);
      Others(g, gaps[1]);
      if aborted {
        return;
      }
      StoreSocket(g);
      Others(g, gaps[2]);
      if aborted {
        return;
      }
      ClearFired(g);
      Others(g, gaps[3]);
      if aborted {
        return;
      }
      ClearFailed(g);
    }

    /** Starts the timer, and makes the guard active or takes the descriptor back. */
    method Start(g: nat, accepted: bool, gap1: seq<Event>, gap2: seq<Event>) returns (started: bool)
      requires Valid() && !aborted && g < |guards| && guards[g].stage == Clean
      requires Foreigners(g, gap1) && Foreigners(g, gap2)
      modifies this
      ensures Valid() && |guards| == old(|guards|)
      ensures !aborted ==>
        guards[g] == old(guards[g]).(stage := if started then Active else Idle,
                                     expired := if started then false else old(guards[g].expired))
      ensures started ==> accepted
    {
      started := false;
      Others(g, gap1);
      if aborted {
        return;
      }
      started := StartTimer(g, accepted);
      Others(g, gap2);
      if aborted {
        return;
      }
      if started {
        Publish(g);
      } else {
        Withdraw(g);
      }
    }

    /** `arm`: `ready` says that its arguments are in order and the device is primed, `remaining` how many ticks
        are left; `gaps` is what happens before each of its operations. */
    method Arm(g: nat, ready: bool, remaining: nat, accepted: bool, gaps: seq<seq<Event>>) returns (result: ArmResult)
      requires Valid() && !aborted && g < |guards| && (guards[g].stage == Idle || guards[g].stage == Active)
      requires |gaps| == 7 && forall i | 0 <= i < |gaps| :: Foreigners(g, gaps[i])
      modifies this
      ensures Valid() && |guards| == old(|guards|)
      ensures !aborted ==>
        guards[g] == match result
          case Armed => old(guards[g]).(stage := Active, expired := false)
          case Timeout => old(guards[g]).(expired := true)
          case _ => old(guards[g])
      ensures result.Timeout? <==> old(guards[g].stage) == Idle && ready && remaining == 0
      ensures result.Armed? ==> old(guards[g].stage) == Idle && ready && remaining > 0 && accepted
      ensures old(guards[g].stage) == Active || !ready ==> Now() == old(Now())
    {
      if guards[g].stage == Active || !ready {
        return Invalid;
      }
      if remaining == 0 {
        LatchTimeout(g);
        return Timeout;
      }
      Others(g, gaps[0]);
      if aborted || holder.Some? || owner.Some? || guards[g].conn.None? {
        return Invalid;
      }
      Lock(g);
      Prepare(g, gaps[1..5]);
      if aborted {
        return NotStarted;
      }
      var started := Start(g, accepted, gaps[5], gaps[6]);
      result := if started then Armed else NotStarted;
    }

    /** Takes the mutex again; it is this guard that is armed. */
    method LockAgain(g: nat)
      requires Valid() && !aborted && g < |guards| && guards[g].stage == Active && holder.None? && owner == Some(g)
      modifies this`guards, this`holder, this`trace
      ensures Valid() && Now() == Step(old(Now()), Owner(g, OwnerStep.LockAgain)) && |guards| == old(|guards|)
      ensures guards[g] == old(guards[g]).(stage := Stopping)
    {
      ghost var st := Now();
      holder := Some(g);
      guards := guards[g := guards[g].(stage := Stopping)];
      Done(st, Owner(g, OwnerStep.LockAgain));
    }

    /** Takes the acknowledgement. */
    method Join(g: nat)
      requires Valid() && !aborted && g < |guards| && guards[g].stage == Joining && completion
      modifies this`guards, this`completion, this`trace
      ensures Valid() && Now() == Step(old(Now()), Owner(g, OwnerStep.Join)) && |guards| == old(|guards|)
      ensures guards[g] == old(guards[g]).(stage := Settled(true))
    {
      ghost var st := Now();
      completion := false;
      guards := guards[g := guards[g].(stage := Settled(true))];
      Done(st, Owner(g, OwnerStep.Join));
    }

    /** Takes the descriptor back. */
    method Empty(g: nat)
      requires Valid() && !aborted && g < |guards| && guards[g].stage == Judged
      modifies this`guards, this`socket, this`trace
      ensures Valid() && Now() == Step(old(Now()), Owner(g, OwnerStep.Empty)) && |guards| == old(|guards|)
      ensures guards[g] == old(guards[g]).(stage := Emptied)
    {
      ghost var st := Now();
      socket := -1;
      guards := guards[g := guards[g].(stage := Emptied)];
      Done(st, Owner(g, OwnerStep.Empty));
    }

    /** Clears the owner and leaves the mutex. */
    method Release(g: nat)
      requires Valid() && !aborted && g < |guards| && guards[g].stage == Emptied
      modifies this`guards, this`owner, this`holder, this`trace
      ensures Valid() && Now() == Step(old(Now()), Owner(g, OwnerStep.Release)) && |guards| == old(|guards|)
      ensures guards[g] == old(guards[g]).(stage := Idle) && owner.None? && holder.None?
    {
      ghost var st := Now();
      owner, holder := None, None;
      guards := guards[g := guards[g].(stage := Idle)];
      ReleaseIs(st, g);
      Done(st, Owner(g, OwnerStep.Release));
    }

    /** Leaves `disarm`: nothing is left that could reach the descriptor. */
    method Leave(g: nat)
      requires Valid() && !aborted && g < |guards| && guards[g].stage == Emptied
      modifies this`guards, this`owner, this`holder, this`trace
      ensures Valid() && |guards| == old(|guards|) && guards[g] == old(guards[g]).(stage := Idle)
      ensures Tokens(Now()) == 0 && socket == -1
    {
      Release(g);
      NothingLeft(|guards|, trace);
    }

    /** Stops the one-shot; when it is no longer armed its callback has been dispatched. */
    method StopTimer(g: nat) returns (dispatched: bool)
      requires Valid() && !aborted && g < |guards| && guards[g].stage == Stopping
      modifies this`guards, this`armed, this`trace
      ensures Valid() && Now() == Step(old(Now()), Owner(g, OwnerStep.Stop)) && |guards| == old(|guards|)
      ensures guards[g] == old(guards[g]).(stage := if dispatched then Joining else Settled(false))
    {
      ghost var st := Now();
      dispatched := !armed;
      armed := false;
      guards := guards[g := guards[g].(stage := if dispatched then Joining else Settled(false))];
      Done(st, Owner(g, OwnerStep.Stop));
    }

    /** The verdict: late if the callback was dispatched or the caller's clock says so, and not otherwise. */
    method Judge(g: nat, reached: bool)
      requires Valid() && !aborted && g < |guards| && guards[g].stage.Settled?
      modifies this`guards, this`trace
      ensures Valid() && Now() == Step(old(Now()), Owner(g, OwnerStep.Judge(reached))) && |guards| == old(|guards|)
      ensures guards[g].stage == Judged && guards[g].conn == old(guards[g].conn)
      ensures guards[g].expired <==> old(guards[g].stage.dispatched) || reached
    {
      ghost var st := Now();
      VerdictIs(|guards|, trace, g, reached);
      guards := guards[g := guards[g].(stage := Judged, expired := guards[g].expired || fired || failed || reached)];
      Done(st, Owner(g, OwnerStep.Judge(reached)));
    }

    /** Waits for the mutex: `waits` is what happens between the tries. */
    method Enter(g: nat, waits: seq<seq<Event>>) returns (entered: bool)
      requires Valid() && !aborted && g < |guards| && guards[g].stage == Active
      requires forall i | 0 <= i < |waits| :: Foreigners(g, waits[i])
      modifies this
      ensures Valid() && |guards| == old(|guards|)
      ensures entered ==> !aborted && guards[g] == old(guards[g]).(stage := Stopping)
    {
      entered := false;
      for i := 0 to |waits|
        invariant Valid() && |guards| == old(|guards|) && guards[g] == old(guards[g]) && !aborted
      {
        Others(g, waits[i]);
        if aborted {
          return;
        }
        if holder.None? {
          OwnerIsActive(|guards|, trace, g);
          LockAgain(g);
          return true;
        }
      }
    }

    /** Joins the dispatched callback: `waits` is what happens while its acknowledgement is out. */
    method JoinCallback(g: nat, waits: seq<seq<Event>>) returns (joined: bool)
      requires Valid() && !aborted && g < |guards| && guards[g].stage == Joining
      requires forall i | 0 <= i < |waits| :: Foreigners(g, waits[i])
      modifies this
      ensures Valid() && |guards| == old(|guards|)
      ensures joined ==> !aborted && guards[g] == old(guards[g]).(stage := Settled(true))
    {
      joined := false;
      for i := 0 to |waits|
        invariant Valid() && |guards| == old(|guards|) && guards[g] == old(guards[g]) && !aborted
      {
        Others(g, waits[i]);
        if aborted {
          return;
        }
        if completion {
          Join(g);
          return true;
        }
      }
    }

    /** `disarm` of an active guard. When it returns, the guard is idle, nothing is left through which its
        descriptor could be shut down, and the verdict says exactly whether the deadline had struck. */
    method Disarm(g: nat, reached: bool, waits: seq<seq<Event>>, joins: seq<seq<Event>>, gaps: seq<seq<Event>>)
      returns (done: bool, dispatched: bool, late: bool)
      requires Valid() && !aborted && g < |guards| && guards[g].stage == Active && |gaps| == 4
      requires forall i | 0 <= i < |waits| :: Foreigners(g, waits[i])
      requires forall i | 0 <= i < |joins| :: Foreigners(g, joins[i])
      requires forall i | 0 <= i < |gaps| :: Foreigners(g, gaps[i])
      modifies this
      ensures Valid() && |guards| == old(|guards|)
      ensures done ==> !aborted && guards[g].stage == Idle && guards[g].conn == old(guards[g].conn)
      ensures done ==> late == guards[g].expired == (dispatched || reached)
      ensures done ==> Tokens(Now()) == 0 && socket == -1
    {
      done, dispatched, late := false, false, false;
      var entered := Enter(g, waits);
      if !entered {
        return;
      }
      Others(g, gaps[0]);
      if aborted {
        return;
      }
      dispatched := StopTimer(g);
      if dispatched {
        var joined := JoinCallback(g, joins);
        if !joined {
          return;
        }
      }
      done, late := Finish(g, dispatched, reached, gaps[1], gaps[2], gaps[3]);
    }

    /** The end of `disarm`, once the callback is out of the way. */
    method Finish(g: nat, ghost dispatched: bool, reached: bool, gap1: seq<Event>, gap2: seq<Event>, gap3: seq<Event>)
      returns (done: bool, late: bool)
      requires Valid() && !aborted && g < |guards| && guards[g].stage == Settled(dispatched)
      requires Foreigners(g, gap1) && Foreigners(g, gap2) && Foreigners(g, gap3)
      modifies this
      ensures Valid() && |guards| == old(|guards|)
      ensures done ==> !aborted && guards[g].stage == Idle && guards[g].conn == old(guards[g].conn)
      ensures done ==> late == guards[g].expired == (dispatched || reached)
      ensures done ==> Tokens(Now()) == 0 && socket == -1
    {
      done, late := false, false;
      Others(g, gap1);
      if aborted {
        return;
      }
      Judge(g, reached);
      late := guards[g].expired;
      done := Withdrawn(g, gap2, gap3);
    }

    /** Takes the descriptor back and leaves. */
    method Withdrawn(g: nat, gap2: seq<Event>, gap3: seq<Event>) returns (done: bool)
      requires Valid() && !aborted && g < |guards| && guards[g].stage == Judged && Foreigners(g, gap2) &&
        Foreigners(g, gap3)
      modifies this
      ensures Valid() && |guards| == old(|guards|)
      ensures done ==> !aborted && guards[g] == old(guards[g]).(stage := Idle)
      ensures done ==> Tokens(Now()) == 0 && socket == -1
    {
      done := false;
      Others(g, gap2);
      if aborted {
        return;
      }
      Empty(g);
      Others(g, gap3);
      if aborted {
        return;
      }
      Leave(g);
      done := true;
    }
  }

  lemma OwnerIsActive(n: nat, trace: seq<Event>, g: nat)
    requires var st := Run(Init(n), trace); !st.aborted && g < n && st.guards[g].stage == Active
    ensures Run(Init(n), trace).owner == Some(g)
  {
    RunKeeps(n, trace);
  }

  lemma VerdictIs(n: nat, trace: seq<Event>, g: nat, reached: bool)
    requires var st := Run(Init(n), trace); !st.aborted && g < n && st.guards[g].stage.Settled?
    ensures var st := Run(Init(n), trace);
      (st.guards[g].expired || st.fired || st.failed || reached) == (st.guards[g].stage.dispatched || reached)
  {
    RunKeeps(n, trace);
    DisarmVerdict(Run(Init(n), trace), g, reached);
  }

  lemma NothingLeft(n: nat, trace: seq<Event>)
    requires var st := Run(Init(n), trace); !st.aborted && st.owner.None? && st.holder.None?
    ensures var st := Run(Init(n), trace); Tokens(st) == 0 && st.socket == -1
  {
    RunKeeps(n, trace);
  }
}
