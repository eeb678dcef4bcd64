/**
 * The absolute deadline of a blocking HTTP phase: a one-shot timer, a watchdog task that shuts the
 * socket down, and an owner that must not close the descriptor before the two are out of the way.
 * Every atomic operation of every task is one step; a run is any interleaving of steps.
 */
module Deadline {
  import opened Options

  /** An open connection: its descriptor, and a number no other connection ever has. */
  datatype Conn = Conn(fd: nat, id: nat)

  /** Where a guard's owner is in `arm` or `disarm`; `Idle` and `Active` are outside both. */
  datatype Stage =
    | Idle
    | Locked | Drained | Stored | Unfired | Clean | Started | Refused
    | Active
    | Stopping | Joining | Settled(dispatched: bool) | Judged | Emptied

  datatype Guard = Guard(conn: Option<Conn>, stage: Stage, expired: bool)

  /** The timer task inside the alarm callback: entered, then the verdict latched. */
  datatype Callback = Out | Entered | Latched

  datatype Watchdog = Waiting | Woken | Loaded(socket: int) | ShutDown

  datatype State = State(
    guards: seq<Guard>,
    holder: Option<nat>,
    owner: Option<nat>,
    socket: int,
    fired: bool,
    failed: bool,
    armed: bool,
    callback: Callback,
    notified: nat,
    watchdog: Watchdog,
    completion: bool,
    table: map<nat, nat>,
    nextId: nat,
    aborted: bool)

  datatype OwnerStep =
    | Open(fd: nat) | Close | TooLate
    | Lock | Drain | StoreSocket | ClearFired | ClearFailed | Start(accepted: bool) | Withdraw | Publish
    | LockAgain | Stop | Join | Judge(reached: bool) | Empty | Release

  datatype Event =
    | Owner(g: nat, step: OwnerStep)
    | Alarm | Latch | Notify
    | Take | Load | Shutdown(ok: bool) | Give
    | ForeignOpen(other: nat) | ForeignClose(other: nat)

  predicate HoldsLock(s: Stage) {
    s != Idle && s != Active
  }

  predicate Published(s: Stage) {
    s == Active || s == Stopping || s == Joining || s.Settled? || s == Judged || s == Emptied
  }

  /** The timer has been started and has been neither stopped nor joined. */
  predicate Engaged(s: Stage) {
    s == Started || s == Active || s == Stopping || s == Joining
  }

  function Init(n: nat): State {
    State(seq(n, _ => Guard(None, Idle, false)), None, None, -1, false, false, false, Out, 0, Waiting, false, map[], 0,
          false)
  }

  /** The guards with one of them at another stage. */
  function Put(guards: seq<Guard>, g: nat, s: Stage): (r: seq<Guard>)
    requires g < |guards|
    ensures |r| == |guards| && r[g] == guards[g].(stage := s)
    ensures forall i | 0 <= i < |guards| && i != g :: r[i] == guards[i]
  {
    guards[g := guards[g].(stage := s)]
  }

  /** The same, with its verdict set. */
  function Marked(guards: seq<Guard>, g: nat, s: Stage, expired: bool): (r: seq<Guard>)
    requires g < |guards|
    ensures |r| == |guards| && r[g] == guards[g].(stage := s, expired := expired)
    ensures forall i | 0 <= i < |guards| && i != g :: r[i] == guards[i]
  {
    guards[g := guards[g].(stage := s, expired := expired)]
  }

  function Abort(st: State): State {
    st.(aborted := true)
  }

  predicate HeldByGuard(st: State, fd: nat) {
    exists g :: 0 <= g < |st.guards| && st.guards[g].conn.Some? && st.guards[g].conn.value.fd == fd
  }

  /** The owner's steps outside `arm` and `disarm`. */
  function Idling(st: State, g: nat, step: OwnerStep): (st': State)
    requires g < |st.guards|
    ensures |st'.guards| == |st.guards|
  {
    var guard := st.guards[g];
    if step.Open? && guard.conn.None? && step.fd !in st.table then
      st.(guards := st.guards[g := guard.(conn := Some(Conn(step.fd, st.nextId)))],
          table := st.table[step.fd := st.nextId], nextId := st.nextId + 1)
    else if step.Close? && guard.stage == Idle && guard.conn.Some? then
      st.(guards := st.guards[g := guard.(conn := None)], table := st.table - {guard.conn.value.fd})
    else if step.TooLate? && guard.stage == Idle then st.(guards := st.guards[g := guard.(expired := true)])
    else st
  }

  /** What `arm` does before it starts the timer. */
  function Preparing(st: State, g: nat, step: OwnerStep): (st': State)
    requires g < |st.guards|
    ensures |st'.guards| == |st.guards| && st'.table == st.table && st'.nextId == st.nextId
    ensures st'.guards[g].conn == st.guards[g].conn
    ensures forall h | 0 <= h < |st.guards| && h != g :: st'.guards[h] == st.guards[h]
  {
    var guard := st.guards[g];
    var s := guard.stage;
    match step
    case Lock =>
      if s == Idle && st.holder.None? && st.owner.None? && guard.conn.Some? then
        st.(guards := Put(st.guards, g, Locked), holder := Some(g))
      else st
    case Drain => if s == Locked then st.(guards := Put(st.guards, g, Drained), completion := false) else st
    case StoreSocket =>
      if s == Drained && guard.conn.Some? then
        st.(guards := Put(st.guards, g, Stored), socket := guard.conn.value.fd)
      else st
    case ClearFired => if s == Stored then st.(guards := Put(st.guards, g, Unfired), fired := false) else st
    case ClearFailed => if s == Unfired then st.(guards := Put(st.guards, g, Clean), failed := false) else st
    case _ => st
  }

  /** The start of the timer, and what `arm` does after it. */
  function Starting(st: State, g: nat, step: OwnerStep): (st': State)
    requires g < |st.guards|
    ensures |st'.guards| == |st.guards| && st'.table == st.table && st'.nextId == st.nextId
    ensures st'.guards[g].conn == st.guards[g].conn
    ensures forall h | 0 <= h < |st.guards| && h != g :: st'.guards[h] == st.guards[h]
  {
    var s := st.guards[g].stage;
    match step
    case Start(accepted) =>
      if s != Clean then st
      else if accepted && !st.armed then st.(guards := Put(st.guards, g, Started), armed := true)
      else st.(guards := Put(st.guards, g, Refused))
    case Withdraw => if s == Refused then st.(guards := Put(st.guards, g, Idle), socket := -1, holder := None) else st
    case Publish =>
      if s == Started then st.(guards := Marked(st.guards, g, Active, false), owner := Some(g), holder := None) else st
    case _ => st
  }

  /** What `disarm` does until the callback is out of the way. */
  function Entering(st: State, g: nat, step: OwnerStep): (st': State)
    requires g < |st.guards|
    ensures |st'.guards| == |st.guards| && st'.table == st.table && st'.nextId == st.nextId
    ensures st'.guards[g].conn == st.guards[g].conn
    ensures forall h | 0 <= h < |st.guards| && h != g :: st'.guards[h] == st.guards[h]
  {
    var s := st.guards[g].stage;
    match step
    case LockAgain =>
      if s != Active || st.holder.Some? then st
      else if st.owner != Some(g) then st.(aborted := true)
      else st.(guards := Put(st.guards, g, Stopping), holder := Some(g))
    case Stop =>
      if s != Stopping then st
      else if st.armed then st.(guards := Put(st.guards, g, Settled(false)), armed := false)
      else st.(guards := Put(st.guards, g, Joining))
    case Join =>
      if s == Joining && st.completion then st.(guards := Put(st.guards, g, Settled(true)), completion := false)
      else st
    case _ => st
  }

  /** The verdict, and how `disarm` leaves. */
  function Leaving(st: State, g: nat, step: OwnerStep): (st': State)
    requires g < |st.guards|
    ensures |st'.guards| == |st.guards| && st'.table == st.table && st'.nextId == st.nextId
    ensures st'.guards[g].conn == st.guards[g].conn
    ensures forall h | 0 <= h < |st.guards| && h != g :: st'.guards[h] == st.guards[h]
  {
    var guard := st.guards[g];
    var s := guard.stage;
    match step
    case Judge(reached) =>
      if s.Settled? then
        st.(guards := Marked(st.guards, g, Judged, guard.expired || st.fired || st.failed || reached))
      else st
    case Empty => if s == Judged then st.(guards := Put(st.guards, g, Emptied), socket := -1) else st
    case Release => if s == Emptied then st.(guards := Put(st.guards, g, Idle), owner := None, holder := None) else st
    case _ => st
  }

  /** One step of the timer task: the alarm removes the one-shot before its callback runs. */
  function TimerTask(st: State, e: Event): State {
    if e.Alarm? && st.armed && st.callback == Out then st.(armed := false, callback := Entered)
    else if e.Latch? && st.callback == Entered then st.(fired := true, callback := Latched)
    else if e.Notify? && st.callback == Latched then st.(notified := st.notified + 1, callback := Out)
    else st
  }

  /** One step of the watchdog task; it aborts the device whenever exclusion could not be proven. */
  function WatchdogTask(st: State, e: Event): State {
    if e.Take? && st.watchdog == Waiting && st.notified > 0 then st.(notified := 0, watchdog := Woken)
    else if e.Load? && st.watchdog == Woken then
      if st.socket < 0 then Abort(st.(failed := true)) else st.(watchdog := Loaded(st.socket))
    else if e.Shutdown? && st.watchdog.Loaded? then
      if e.ok then st.(watchdog := ShutDown) else Abort(st.(failed := true))
    else if e.Give? && st.watchdog == ShutDown then
      if st.completion then Abort(st.(failed := true)) else st.(completion := true, watchdog := Waiting)
    else st
  }

  /** Other tasks open and close sockets of their own. */
  function Foreign(st: State, e: Event): State {
    if e.ForeignOpen? && e.other !in st.table then st.(table := st.table[e.other := st.nextId], nextId := st.nextId + 1)
    else if e.ForeignClose? && !HeldByGuard(st, e.other) then st.(table := st.table - {e.other})
    else st
  }

  function Step(st: State, e: Event): (st': State)
    ensures |st'.guards| == |st.guards|
  {
    if st.aborted then st
    else match e
      case Owner(g, step) =>
        if g >= |st.guards| then st
        else if step.Open? || step.Close? || step.TooLate? then Idling(st, g, step)
        else if step.LockAgain? || step.Stop? || step.Join? then Entering(st, g, step)
        else if step.Judge? || step.Empty? || step.Release? then Leaving(st, g, step)
        else if step.Start? || step.Withdraw? || step.Publish? then Starting(st, g, step)
        else Preparing(st, g, step)
      case Alarm | Latch | Notify => TimerTask(st, e)
      case Take | Load | Shutdown(_) | Give => WatchdogTask(st, e)
      case ForeignOpen(_) | ForeignClose(_) => Foreign(st, e)
  }

  function Run(st: State, events: seq<Event>): (st': State)
    ensures |st'.guards| == |st.guards|
    decreases |events|
  {
    if events == [] then st else Run(Step(st, events[0]), events[1..])
  }

  /** The guard inside `arm`, `disarm` or between them, if there is one. */
  function Current(st: State): Option<nat> {
    if st.holder.Some? then st.holder else st.owner
  }

  function CurrentStage(st: State): Stage {
    var c := Current(st);
    if c.Some? && c.value < |st.guards| then st.guards[c.value].stage else Idle
  }

  function One(b: bool): nat {
    if b then 1 else 0
  }

  /** Everything through which a deadline can still reach a socket, or has just reported that it did. */
  function Tokens(st: State): nat {
    One(st.armed) + One(st.callback != Out) + st.notified + One(st.watchdog != Waiting) + One(st.completion)
  }

  ghost predicate LockInv(st: State) {
    && (Current(st).Some? ==> Current(st).value < |st.guards|)
    && (forall g | 0 <= g < |st.guards| && st.guards[g].stage != Idle ::
        Current(st) == Some(g) && st.guards[g].conn.Some?)
    && (st.holder.Some? <==> HoldsLock(CurrentStage(st)))
    && (st.owner.Some? <==> Published(CurrentStage(st)))
    && (st.holder.Some? && st.owner.Some? ==> st.holder == st.owner)
  }

  ghost predicate TableInv(st: State) {
    && (forall g | 0 <= g < |st.guards| && st.guards[g].conn.Some? ::
          var c := st.guards[g].conn.value; c.fd in st.table && st.table[c.fd] == c.id)
    && (forall g, h | 0 <= g < h < |st.guards| && st.guards[g].conn.Some? && st.guards[h].conn.Some? ::
          st.guards[g].conn.value.fd != st.guards[h].conn.value.fd)
    && (forall fd | fd in st.table :: st.table[fd] < st.nextId)
    && (forall a, b | a in st.table && b in st.table && st.table[a] == st.table[b] :: a == b)
  }

  ghost predicate TokenInv(st: State)
    requires LockInv(st)
  {
    var s := CurrentStage(st);
    && Tokens(st) == One(Engaged(s))
    && st.socket == (if s == Idle || s == Locked || s == Drained || s == Emptied then -1
                     else st.guards[Current(st).value].conn.value.fd)
    && (st.watchdog.Loaded? ==> st.watchdog.socket == st.socket)
    && (s == Joining ==> !st.armed)
    && !st.failed
    && (s == Unfired || s == Clean || Engaged(s) || s.Settled? ==>
          (st.fired <==> (if s.Settled? then s.dispatched else Engaged(s) && !st.armed && st.callback != Entered)))
    && (Published(s) ==>
          var expired := st.guards[Current(st).value].expired;
          if s == Judged || s == Emptied then st.fired ==> expired else !expired)
  }

  /** Holds in every state a run reaches without the device aborting. */
  ghost predicate Inv(st: State) {
    LockInv(st) && TableInv(st) && TokenInv(st)
  }

  /** The step neither opens nor closes anything. */
  ghost predicate SameConns(st: State, st': State) {
    && |st'.guards| == |st.guards| && st'.table == st.table && st'.nextId == st.nextId
    && forall g | 0 <= g < |st.guards| :: st'.guards[g].conn == st.guards[g].conn
  }

  lemma PreparingLocks(st: State, g: nat, step: OwnerStep)
    requires LockInv(st) && TokenInv(st) && g < |st.guards|
    ensures var st' := Preparing(st, g, step); LockInv(st') && st'.aborted == st.aborted
  {
  }

  lemma PreparingKeeps(st: State, g: nat, step: OwnerStep)
    requires LockInv(st) && TokenInv(st) && g < |st.guards|
    ensures var st' := Preparing(st, g, step); LockInv(st') && TokenInv(st') && st'.aborted == st.aborted
  {
    PreparingLocks(st, g, step);
  }

  lemma StartingLocks(st: State, g: nat, step: OwnerStep)
    requires LockInv(st) && TokenInv(st) && g < |st.guards|
    ensures var st' := Starting(st, g, step); LockInv(st') && st'.aborted == st.aborted
  {
  }

  lemma StartingKeeps(st: State, g: nat, step: OwnerStep)
    requires LockInv(st) && TokenInv(st) && g < |st.guards|
    ensures var st' := Starting(st, g, step); LockInv(st') && TokenInv(st') && st'.aborted == st.aborted
  {
    StartingLocks(st, g, step);
  }

  lemma EnteringLocks(st: State, g: nat, step: OwnerStep)
    requires LockInv(st) && TokenInv(st) && g < |st.guards|
    ensures var st' := Entering(st, g, step); LockInv(st') && st'.aborted == st.aborted
  {
  }

  lemma EnteringKeeps(st: State, g: nat, step: OwnerStep)
    requires LockInv(st) && TokenInv(st) && g < |st.guards|
    ensures var st' := Entering(st, g, step); LockInv(st') && TokenInv(st') && st'.aborted == st.aborted
  {
    EnteringLocks(st, g, step);
  }

  lemma LeavingLocks(st: State, g: nat, step: OwnerStep)
    requires LockInv(st) && TokenInv(st) && g < |st.guards|
    ensures var st' := Leaving(st, g, step); LockInv(st') && st'.aborted == st.aborted
  {
  }

  lemma LeavingKeeps(st: State, g: nat, step: OwnerStep)
    requires LockInv(st) && TokenInv(st) && g < |st.guards|
    ensures var st' := Leaving(st, g, step); LockInv(st') && TokenInv(st') && st'.aborted == st.aborted
  {
    LeavingLocks(st, g, step);
  }

  lemma SameConnsKeep(st: State, st': State)
    requires TableInv(st) && SameConns(st, st')
    ensures TableInv(st')
  {
  }

  /** Every step of `arm` and `disarm` keeps the invariant. */
  lemma OwnerKeeps(st: State, g: nat, step: OwnerStep)
    requires Inv(st) && !st.aborted && g < |st.guards| && !step.Open? && !step.Close? && !step.TooLate?
    ensures var st' := Step(st, Owner(g, step)); Inv(st') && !st'.aborted
  {
    var st' := Step(st, Owner(g, step));
    if step.LockAgain? || step.Stop? || step.Join? {
      EnteringKeeps(st, g, step);
    } else if step.Judge? || step.Empty? || step.Release? {
      LeavingKeeps(st, g, step);
    } else if step.Start? || step.Withdraw? || step.Publish? {
      StartingKeeps(st, g, step);
    } else {
      PreparingKeeps(st, g, step);
    }
    SameConnsKeep(st, st');
  }

  /** The step changes nothing but the table and guards that are idle and stay idle. */
  ghost predicate OnlyIdleChange(st: State, st': State) {
    && st' == st.(guards := st'.guards, table := st'.table, nextId := st'.nextId) && |st'.guards| == |st.guards|
    && forall h | 0 <= h < |st.guards| ::
         st'.guards[h] == st.guards[h] || st.guards[h].stage == st'.guards[h].stage == Idle
  }

  lemma IdleChangeKeepsLocks(st: State, st': State)
    requires LockInv(st) && TokenInv(st) && OnlyIdleChange(st, st')
    ensures LockInv(st') && TokenInv(st')
  {
    assert CurrentStage(st') == CurrentStage(st);
  }

  lemma IdlingOnlyIdle(st: State, g: nat, step: OwnerStep)
    requires LockInv(st) && g < |st.guards|
    ensures OnlyIdleChange(st, Idling(st, g, step))
  {
  }

  lemma IdlingKeepsLocks(st: State, g: nat, step: OwnerStep)
    requires LockInv(st) && TokenInv(st) && g < |st.guards|
    ensures var st' := Idling(st, g, step); LockInv(st') && TokenInv(st') && st'.aborted == st.aborted
  {
    IdlingOnlyIdle(st, g, step);
    IdleChangeKeepsLocks(st, Idling(st, g, step));
  }

  lemma IdlingKeeps(st: State, g: nat, step: OwnerStep)
    requires Inv(st) && g < |st.guards|
    ensures TableInv(Idling(st, g, step))
  {
  }

  lemma TimerKeeps(st: State, e: Event)
    requires Inv(st)
    ensures var st' := TimerTask(st, e); Inv(st') && st'.aborted == st.aborted
  {
    match e
    case Alarm =>
    case Latch =>
    case Notify =>
    case _ =>
  }

  lemma WatchdogKeeps(st: State, e: Event)
    requires Inv(st) && !st.aborted
    ensures var st' := WatchdogTask(st, e);
      if st'.aborted then e == Shutdown(false) && st.watchdog.Loaded? else Inv(st')
  {
    match e
    case Take =>
    case Load =>
    case Shutdown(_) =>
    case Give =>
    case _ =>
  }

  lemma ForeignKeeps(st: State, e: Event)
    requires Inv(st)
    ensures var st' := Foreign(st, e); Inv(st') && st'.aborted == st.aborted
  {
    var st' := Foreign(st, e);
    assert LockInv(st') && TokenInv(st');
  }

  /** Only a shutdown that lwIP itself refuses aborts: the watchdog never sees a negative socket, its
      acknowledgement is never refused, and no owner finds another one in its place. */
  lemma StepKeeps(st: State, e: Event)
    requires Inv(st) && !st.aborted
    ensures var st' := Step(st, e);
      if st'.aborted then e == Shutdown(false) && st.watchdog.Loaded? else Inv(st')
  {
    match e
    case Owner(g, step) =>
      if g < |st.guards| {
        if step.Open? || step.Close? || step.TooLate? {
          IdlingKeepsLocks(st, g, step);
          IdlingKeeps(st, g, step);
        } else {
          OwnerKeeps(st, g, step);
        }
      }
    case Alarm | Latch | Notify => TimerKeeps(st, e);
    case Take | Load | Shutdown(_) | Give => WatchdogKeeps(st, e);
    case ForeignOpen(_) | ForeignClose(_) => ForeignKeeps(st, e);
  }

  lemma {:induction false} RunKeepsFrom(st: State, events: seq<Event>)
    requires st.aborted || Inv(st)
    ensures var st' := Run(st, events);
      if st'.aborted then st.aborted || Shutdown(false) in events else Inv(st')
    decreases |events|
  {
    if events != [] {
      if !st.aborted {
        StepKeeps(st, events[0]);
      }
      RunKeepsFrom(Step(st, events[0]), events[1..]);
    }
  }

  /** Every interleaving from boot keeps the invariant, or stops at a shutdown that failed. */
  lemma RunKeeps(n: nat, events: seq<Event>)
    ensures var st := Run(Init(n), events);
      if st.aborted then Shutdown(false) in events else Inv(st)
  {
    RunKeepsFrom(Init(n), events);
  }

  /** An active guard has exactly one token, and without one there is none. */
  lemma ExactlyOneToken(n: nat, events: seq<Event>)
    ensures var st := Run(Init(n), events);
      !st.aborted ==> Tokens(st) == if exists g :: 0 <= g < n && Engaged(st.guards[g].stage) then 1 else 0
  {
    RunKeeps(n, events);
    var st := Run(Init(n), events);
    if !st.aborted && Engaged(CurrentStage(st)) {
      assert Engaged(st.guards[Current(st).value].stage);
    }
  }

  /** What `expired()` is bound to report, whatever the clock says. */
  predicate Late(st: State, g: nat)
    requires g < |st.guards|
  {
    st.guards[g].expired || (Published(st.guards[g].stage) && st.fired)
  }

  /** A pending shutdown is aimed at the connection of the one guard that is armed and waits for it. */
  lemma ShutdownHitsOwner(st: State)
    requires Inv(st) && st.watchdog.Loaded?
    ensures var s := st.watchdog.socket;
      && Current(st).Some? && s >= 0 && s in st.table
      && var guard := st.guards[Current(st).value];
        && Engaged(guard.stage) && guard.conn == Some(Conn(s, st.table[s]))
        && (guard.stage != Started ==> Late(st, Current(st).value))
  {
  }

  /** The connection a step shuts down, if it does. */
  function Hit(st: State, e: Event): Option<nat> {
    var w := st.watchdog;
    if !st.aborted && e.Shutdown? && w.Loaded? && w.socket >= 0 && w.socket in st.table then
      Some(st.table[w.socket])
    else None
  }

  /** The connections shut down during a run. */
  function Hits(st: State, events: seq<Event>): (ids: seq<nat>)
    decreases |events|
  {
    if events == [] then []
    else
      var rest := Hits(Step(st, events[0]), events[1..]);
      var hit := Hit(st, events[0]);
      if hit.Some? then [hit.value] + rest else rest
  }

  /** No armed guard has connection `id`, and none but `g` can get it. */
  ghost predicate Spared(st: State, g: nat, id: nat) {
    && g < |st.guards|
    && id < st.nextId
    && st.guards[g].stage == Idle
    && forall h | 0 <= h < |st.guards| && h != g && st.guards[h].conn.Some? :: st.guards[h].conn.value.id != id
  }

  lemma SparedNotHit(st: State, e: Event, g: nat, id: nat)
    requires Inv(st) && Spared(st, g, id)
    ensures Hit(st, e) != Some(id)
  {
    if st.watchdog.Loaded? {
      ShutdownHitsOwner(st);
    }
  }

  lemma PreparingSpares(st: State, h: nat, step: OwnerStep, g: nat, id: nat)
    requires LockInv(st) && h < |st.guards| && Spared(st, g, id) && (h != g || step != Lock)
    ensures Spared(Preparing(st, h, step), g, id)
  {
    if h == g {
      assert Preparing(st, h, step) == st;
    }
  }

  lemma OtherStepsSpare(st: State, h: nat, step: OwnerStep, g: nat, id: nat)
    requires LockInv(st) && h < |st.guards| && Spared(st, g, id)
    ensures Spared(Starting(st, h, step), g, id) && Spared(Entering(st, h, step), g, id) &&
      Spared(Leaving(st, h, step), g, id)
  {
    if h == g {
      assert Starting(st, h, step) == Entering(st, h, step) == Leaving(st, h, step) == st;
    }
  }

  lemma IdlingSpares(st: State, h: nat, step: OwnerStep, g: nat, id: nat)
    requires h < |st.guards| && Spared(st, g, id)
    ensures Spared(Idling(st, h, step), g, id)
  {
  }

  lemma StepSpares(st: State, e: Event, g: nat, id: nat)
    requires LockInv(st) && TokenInv(st) && Spared(st, g, id)
    requires e != Owner(g, Lock)
    ensures Spared(Step(st, e), g, id)
  {
    if e.Owner? && e.g < |st.guards| {
      if e.step.Open? || e.step.Close? || e.step.TooLate? {
        IdlingSpares(st, e.g, e.step, g, id);
      } else {
        PreparingSpares(st, e.g, e.step, g, id);
        OtherStepsSpare(st, e.g, e.step, g, id);
      }
    }
  }

  lemma {:induction false} SparedNeverHit(st: State, events: seq<Event>, g: nat, id: nat)
    requires (st.aborted || Inv(st)) && Spared(st, g, id)
    requires Owner(g, Lock) !in events
    ensures id !in Hits(st, events)
    decreases |events|
  {
    if events != [] {
      var st' := Step(st, events[0]);
      if !st.aborted {
        StepKeeps(st, events[0]);
        StepSpares(st, events[0], g, id);
        SparedNotHit(st, events[0], g, id);
      }
      SparedNeverHit(st', events[1..], g, id);
    }
  }

  /** Once `disarm` has returned, the connection is out of reach until its owner arms a guard for it again,
      through every later reuse of its descriptor. */
  lemma NoLateShutdown(n: nat, before: seq<Event>, g: nat, after: seq<Event>)
    requires g < n
    requires var st := Run(Init(n), before); !st.aborted && st.guards[g].stage == Idle && st.guards[g].conn.Some?
    requires Owner(g, Lock) !in after
    ensures var st := Run(Init(n), before); st.guards[g].conn.value.id !in Hits(st, after)
  {
    var st := Run(Init(n), before);
    RunKeeps(n, before);
    SparedNeverHit(st, after, g, st.guards[g].conn.value.id);
  }

  /** The verdict of `disarm`: late exactly when the alarm had been dispatched before the timer was stopped,
      or the caller's own clock says so. */
  lemma DisarmVerdict(st: State, g: nat, reached: bool)
    requires Inv(st) && !st.aborted && g < |st.guards| && st.guards[g].stage.Settled?
    ensures Step(st, Owner(g, Judge(reached))).guards[g].expired <==> st.guards[g].stage.dispatched || reached
  {
  }

  lemma ArmingStaysLate(st: State, h: nat, step: OwnerStep, g: nat)
    requires LockInv(st) && TokenInv(st) && h < |st.guards| && g < |st.guards| && Late(st, g)
    requires h != g || step != Publish
    ensures Late(Preparing(st, h, step), g) && Late(Starting(st, h, step), g)
  {
  }

  lemma DisarmingStaysLate(st: State, h: nat, step: OwnerStep, g: nat)
    requires LockInv(st) && TokenInv(st) && h < |st.guards| && g < |st.guards| && Late(st, g)
    ensures Late(Entering(st, h, step), g) && Late(Leaving(st, h, step), g)
  {
  }

  lemma OutsideStaysLate(st: State, h: nat, step: OwnerStep, g: nat)
    requires h < |st.guards| && g < |st.guards| && Late(st, g)
    ensures Late(Idling(st, h, step), g)
  {
  }

  lemma TasksStayLate(st: State, e: Event, g: nat)
    requires LockInv(st) && TokenInv(st) && g < |st.guards| && Late(st, g)
    ensures Late(TimerTask(st, e), g) && Late(WatchdogTask(st, e), g) && Late(Foreign(st, e), g)
  {
  }

  /** A late guard stays late, through `disarm` and after it, until it is armed again. */
  lemma LateSticks(st: State, e: Event, g: nat)
    requires LockInv(st) && TokenInv(st) && g < |st.guards| && Late(st, g)
    requires e != Owner(g, Publish)
    ensures Late(Step(st, e), g)
  {
    if !e.Owner? {
      TasksStayLate(st, e, g);
    } else if e.g < |st.guards| {
      OutsideStaysLate(st, e.g, e.step, g);
      ArmingStaysLate(st, e.g, e.step, g);
      DisarmingStaysLate(st, e.g, e.step, g);
    }
  }

  /** How many steps of the timer task and the watchdog a joining owner still waits for. */
  function Rank(st: State): nat {
    if st.completion then 0
    else if st.watchdog == ShutDown then 1
    else if st.watchdog.Loaded? then 2
    else if st.watchdog == Woken then 3
    else if st.notified > 0 then 4
    else if st.callback == Latched then 5
    else 6
  }

  /** The step a joining owner waits for. */
  function Awaited(st: State): Event {
    match Rank(st)
    case 1 => Give
    case 2 => Shutdown(true)
    case 3 => Load
    case 4 => Take
    case 5 => Notify
    case _ => Latch
  }

  predicate JoiningGuard(st: State, g: nat) {
    g < |st.guards| && st.guards[g].stage == Joining
  }

  lemma MachineProgress(st: State, e: Event, g: nat)
    requires Inv(st) && !st.aborted && JoiningGuard(st, g) && !e.Owner?
    ensures var st' := Step(st, e);
      st'.aborted ||
      (JoiningGuard(st', g) && Rank(st') == if Rank(st) > 0 && e == Awaited(st) then Rank(st) - 1 else Rank(st))
  {
  }

  lemma IdleOwnerProgress(st: State, h: nat, step: OwnerStep, g: nat)
    requires Inv(st) && !st.aborted && JoiningGuard(st, g) && h != g
    ensures var st' := Step(st, Owner(h, step)); JoiningGuard(st', g) && Rank(st') == Rank(st)
  {
    if h < |st.guards| {
      assert st.guards[h].stage == Idle;
      match step
      case Open(_) =>
      case Close =>
      case TooLate =>
      case Lock =>
      case _ => assert Step(st, Owner(h, step)) == st;
    }
  }

  lemma OwnerProgress(st: State, h: nat, step: OwnerStep, g: nat)
    requires Inv(st) && !st.aborted && JoiningGuard(st, g)
    ensures var st' := Step(st, Owner(h, step));
      if Rank(st) == 0 && h == g && step == Join then st'.guards[g].stage == Settled(true)
      else JoiningGuard(st', g) && Rank(st') == Rank(st)
  {
    if h != g {
      IdleOwnerProgress(st, h, step, g);
    }
  }

  /** While an owner joins, the awaited step is always possible and brings it one nearer; no other step
      moves it away. With nothing left to await, the join returns. */
  lemma JoinProgress(st: State, e: Event, g: nat)
    requires Inv(st) && !st.aborted && JoiningGuard(st, g)
    ensures var st' := Step(st, e);
      st'.aborted ||
      if Rank(st) == 0 && e == Owner(g, Join) then st'.guards[g].stage == Settled(true)
      else JoiningGuard(st', g) && Rank(st') == if Rank(st) > 0 && e == Awaited(st) then Rank(st) - 1 else Rank(st)
  {
    if e.Owner? {
      OwnerProgress(st, e.g, e.step, g);
    } else {
      MachineProgress(st, e, g);
    }
  }

  /** How often the awaited step is taken in a run. */
  function Served(st: State, events: seq<Event>): nat
    decreases |events|
  {
    if events == [] then 0
    else
      var now := if !st.aborted && Rank(st) > 0 && events[0] == Awaited(st) then 1 else 0;
      now + Served(Step(st, events[0]), events[1..])
  }

  /** A join is never more than six steps of the timer task and the watchdog from its acknowledgement,
      whatever runs in between. */
  lemma {:induction false} JoinTerminates(st: State, events: seq<Event>, g: nat)
    requires Inv(st) && !st.aborted && JoiningGuard(st, g)
    requires Owner(g, Join) !in events
    ensures var st' := Run(st, events);
      st'.aborted || (JoiningGuard(st', g) && Rank(st') + Served(st, events) == Rank(st) <= 6 &&
                      (st'.completion <==> Rank(st') == 0))
    decreases |events|
  {
    if events != [] {
      StepKeeps(st, events[0]);
      JoinProgress(st, events[0], g);
      var st' := Step(st, events[0]);
      if st'.aborted {
        RunKeepsFrom(st', events[1..]);
        StaysAborted(st', events[1..]);
      } else {
        JoinTerminates(st', events[1..], g);
      }
    }
  }

  lemma {:induction false} StaysAborted(st: State, events: seq<Event>)
    requires st.aborted
    ensures Run(st, events).aborted
    decreases |events|
  {
    if events != [] {
      StaysAborted(Step(st, events[0]), events[1..]);
    }
  }
}
