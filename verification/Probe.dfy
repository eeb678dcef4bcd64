/**
 * The hand-off of a register probe from a submitter to the poll task. A submitter may give up while its
 * request is being served, so requests carry tickets and both sides withdraw by compare-and-exchange.
 * The gate admits one submitter at a time; its variables are the submitter's. Every atomic operation,
 * and each half of a copy of the reply, is one step.
 */
module Probe {
  import opened Options

  const SPACE: nat := 0x100_0000

  /** A request: its number in the order of drawing, and the register asked for. */
  datatype Req = Req(raw: nat, reg: nat)

  datatype Submitter =
    | Out
    | Inside
    | Drained
    | Drawn(mine: Req)
    | Waiting(mine: Req)
    | Woken(mine: Req)
    | Copying(mine: Req, half: Option<Req>)
    | Accepted(mine: Req, first: Req, second: Req)
    | Withdrawn(mine: Req)

  datatype Server =
    | Idle
    | Serving(req: Req, caught: bool)
    | Thrown
    | Half(req: Req)
    | Written(req: Req)
    | Stamped(req: Req)
    | Cleared(req: Req)

  /** `first` and `second` are the two halves of the reply, named by the request they answer. */
  datatype State = State(
    submitter: Submitter,
    server: Server,
    pending: Option<Req>,
    counter: nat,
    done: bool,
    stamp: Req,
    first: Req,
    second: Req)

  datatype Event =
    | Enter | Drain | Draw(reg: nat) | Arm | Wake | Check | CopyFirst | CopySecond | GiveUp | Leave
    | Load | Throw | Catch | WriteFirst | WriteSecond | Stamp | Clear | Give

  /** The low 24 bits of the counter; the counter's own width is a multiple of them. */
  function Ticket(raw: nat): nat {
    raw % SPACE
  }

  /** The next number whose ticket is not zero. */
  function NextRaw(counter: nat): (raw: nat)
    ensures raw > counter && Ticket(raw) != 0
  {
    if Ticket(counter + 1) != 0 then counter + 1 else counter + 2
  }

  /** The packed words of the two requests are equal. */
  predicate Same(a: Req, b: Req) {
    Ticket(a.raw) == Ticket(b.raw) && a.reg == b.reg
  }

  function Init(): State {
    var none := Req(0, 0);
    State(Out, Idle, None, 0, false, none, none, none)
  }

  function Submit(st: State, e: Event): State {
    var s := st.submitter;
    match e
    case Enter => if s.Out? then st.(submitter := Inside) else st
    case Drain => if s.Inside? then st.(submitter := Drained, done := false) else st
    case Draw(reg) =>
      var raw := NextRaw(st.counter);
      if s.Drained? then st.(submitter := Drawn(Req(raw, reg)), counter := raw) else st
    case Arm => if s.Drawn? then st.(submitter := Waiting(s.mine), pending := Some(s.mine)) else st
    case Wake => if s.Waiting? && st.done then st.(submitter := Woken(s.mine), done := false) else st
    case Check =>
      if !s.Woken? then st
      else if Ticket(st.stamp.raw) == Ticket(s.mine.raw) then st.(submitter := Copying(s.mine, None))
      else st.(submitter := Waiting(s.mine))
    case CopyFirst => if s.Copying? && s.half.None? then st.(submitter := Copying(s.mine, Some(st.first))) else st
    case CopySecond =>
      if s.Copying? && s.half.Some? then st.(submitter := Accepted(s.mine, s.half.value, st.second)) else st
    case GiveUp =>
      if !s.Waiting? then st
      else st.(submitter := Withdrawn(s.mine),
               pending := if st.pending.Some? && Same(st.pending.value, s.mine) then None else st.pending)
    case Leave => if s.Inside? || s.Accepted? || s.Withdrawn? then st.(submitter := Out) else st
    case _ => st
  }

  function Serve(st: State, e: Event): State {
    var v := st.server;
    match e
    case Load => if v.Idle? && st.pending.Some? then st.(server := Serving(st.pending.value, false)) else st
    case Throw => if v.Serving? && !v.caught then st.(server := Thrown) else st
    case Catch =>
      if !v.Thrown? then st
      else if st.pending.Some? then st.(server := Serving(st.pending.value, true))
      else st.(server := Idle)
    case WriteFirst => if v.Serving? then st.(server := Half(v.req), first := v.req) else st
    case WriteSecond => if v.Half? then st.(server := Written(v.req), second := v.req) else st
    case Stamp => if v.Written? then st.(server := Stamped(v.req), stamp := v.req) else st
    case Clear =>
      if !v.Stamped? then st
      else st.(server := Cleared(v.req),
               pending := if st.pending.Some? && Same(st.pending.value, v.req) then None else st.pending)
    case Give => if v.Cleared? then st.(server := Idle, done := true) else st
    case _ => st
  }

  predicate Submits(e: Event) {
    e.Enter? || e.Drain? || e.Draw? || e.Arm? || e.Wake? || e.Check? || e.CopyFirst? || e.CopySecond? || e.GiveUp? ||
      e.Leave?
  }

  function Step(st: State, e: Event): State {
    if Submits(e) then Submit(st, e) else Serve(st, e)
  }

  function Run(st: State, events: seq<Event>): State
    decreases |events|
  {
    if events == [] then st else Run(Step(st, events[0]), events[1..])
  }

  /** The request in service. */
  function InService(v: Server): Option<Req> {
    if v.Idle? || v.Thrown? then None else Some(v.req)
  }

  /** The request of the submitter behind the gate. */
  function Mine(s: Submitter): Option<Req> {
    if s.Out? || s.Inside? || s.Drained? then None else Some(s.mine)
  }

  /** A ticket drawn now differs from that of the request in service and from that of an unconsumed
      completion. */
  predicate Distinct(st: State) {
    var t := Ticket(NextRaw(st.counter));
    && (InService(st.server).Some? ==> Ticket(InService(st.server).value.raw) != t)
    && (st.done ==> Ticket(st.stamp.raw) != t)
  }

  predicate Drawing(st: State, e: Event) {
    e.Draw? && st.submitter.Drained?
  }

  predicate Unmistakable(a: Req, b: Req) {
    a == b || Ticket(a.raw) != Ticket(b.raw)
  }

  /** The submitter has not accepted another request's reply. */
  predicate Undeceived(s: Submitter) {
    s.Accepted? ==> s.first == s.mine && s.second == s.mine
  }

  predicate Inv(st: State) {
    && (st.pending.Some? ==> 0 < st.pending.value.raw <= st.counter)
    && (InService(st.server).Some? ==> InService(st.server).value.raw <= st.counter)
    && st.stamp.raw <= st.counter
    && (InService(st.server).None? || st.server.Serving? || st.server.Stamped? || st.server.Cleared? ==>
          st.first == st.stamp && st.second == st.stamp)
    && (st.server.Half? ==> st.first == st.server.req)
    && (st.server.Written? ==> st.first == st.server.req && st.second == st.server.req)
    && (st.server.Stamped? || st.server.Cleared? ==> st.stamp == st.server.req)
    && (st.pending.Some? ==> st.server == Stamped(st.pending.value) || Mine(st.submitter) == st.pending)
    && (Mine(st.submitter).Some? ==> MineInv(st, Mine(st.submitter).value))
  }

  predicate MineInv(st: State, m: Req) {
    var s := st.submitter;
    && 0 < m.raw <= st.counter && Ticket(m.raw) != 0
    && (InService(st.server).Some? ==> Unmistakable(m, InService(st.server).value))
    && (st.done || s.Woken? ==> Unmistakable(m, st.stamp))
    && (s.Drawn? ==>
          && (st.pending.Some? ==> st.server == Stamped(st.pending.value))
          && st.stamp != m && InService(st.server) != Some(m))
    && (s.Withdrawn? && st.pending == Some(m) ==> st.server == Stamped(m))
    && (s.Waiting? || s.Woken? ==> st.pending == Some(m) || st.stamp == m)
    && (s.Waiting? && st.stamp == m ==> st.done || st.server == Stamped(m) || st.server == Cleared(m))
    && (s.Copying? || s.Accepted? ==> st.stamp == m)
    && (s.Copying? && s.half.Some? ==> s.half.value == m)
    && (s.Accepted? ==> s.first == m && s.second == m)
    && (st.stamp == m ==>
          && (st.server.Idle? || st.server.Thrown? || st.server == Stamped(m) || st.server == Cleared(m))
          && (st.pending == Some(m) ==> st.server == Stamped(m)))
  }

  lemma SubmitKeeps(st: State, e: Event)
    requires Inv(st) && (Drawing(st, e) ==> Distinct(st))
    ensures Inv(Submit(st, e))
  {
  }

  lemma ServeKeeps(st: State, e: Event)
    requires Inv(st)
    ensures Inv(Serve(st, e))
  {
  }

  /** Every ticket of the run is drawn while no other one like it is in play. */
  predicate AllDistinct(st: State, events: seq<Event>)
    decreases |events|
  {
    events == [] || ((Drawing(st, events[0]) ==> Distinct(st)) && AllDistinct(Step(st, events[0]), events[1..]))
  }

  lemma {:induction false} RunKeeps(st: State, events: seq<Event>)
    requires Inv(st) && AllDistinct(st, events)
    ensures Inv(Run(st, events))
    decreases |events|
  {
    if events != [] {
      if Submits(events[0]) {
        SubmitKeeps(st, events[0]);
      } else {
        ServeKeeps(st, events[0]);
      }
      RunKeeps(Step(st, events[0]), events[1..]);
    }
  }

  /** Whatever times out, throws or is served late: an accepted reply answers the submitter's own request. */
  lemma AcceptedIsOwn(events: seq<Event>)
    requires AllDistinct(Init(), events)
    ensures Undeceived(Run(Init(), events).submitter)
  {
    RunKeeps(Init(), events);
  }

  /** The reply stays as it is from the moment it is recognised until the submitter leaves. */
  lemma NotOverwritten(events: seq<Event>, e: Event)
    requires AllDistinct(Init(), events)
    ensures var st := Run(Init(), events);
      st.submitter.Copying? ==> Step(st, e).first == st.first && Step(st, e).second == st.second
  {
    RunKeeps(Init(), events);
  }

  /** A request disappears only when it has been answered or its own submitter gives up. */
  lemma OnlyOwnWithdrawn(events: seq<Event>, e: Event)
    requires AllDistinct(Init(), events)
    ensures var st := Run(Init(), events);
      st.pending.Some? && Step(st, e).pending != st.pending ==>
        || (e == Clear && st.server == Stamped(st.pending.value))
        || (e == GiveUp && st.submitter == Waiting(st.pending.value))
        || (e == Arm && st.server == Stamped(st.pending.value))
  {
    RunKeeps(Init(), events);
  }

  /** A waiting submitter is never forgotten: its request is still pending, or its answer is published and
      its completion given or about to be. */
  lemma NeverForgotten(events: seq<Event>)
    requires AllDistinct(Init(), events)
    ensures var st := Run(Init(), events);
      st.submitter.Waiting? ==>
        || st.pending == Some(st.submitter.mine)
        || (st.stamp == st.submitter.mine &&
           (st.done || st.server == Stamped(st.stamp) || st.server == Cleared(st.stamp)))
  {
    RunKeeps(Init(), events);
  }

  /** Numbers less than the ticket space apart have different tickets. */
  lemma TicketsDiffer(a: nat, b: nat)
    requires a < b < a + SPACE
    ensures Ticket(a) != Ticket(b)
  {
  }

  /** Fewer draws than there are tickets, since the requests in play were drawn, keep tickets distinct. */
  lemma SpaceSuffices(st: State)
    requires Inv(st)
    requires InService(st.server).Some? ==> NextRaw(st.counter) < InService(st.server).value.raw + SPACE
    requires st.done ==> NextRaw(st.counter) < st.stamp.raw + SPACE
    ensures Distinct(st)
  {
    var raw := NextRaw(st.counter);
    if InService(st.server).Some? {
      TicketsDiffer(InService(st.server).value.raw, raw);
    }
    if st.done {
      TicketsDiffer(st.stamp.raw, raw);
    }
  }

  lemma NoDrawStep(st: State, e: Event, rest: seq<Event>)
    requires !e.Draw? && AllDistinct(Step(st, e), rest)
    ensures AllDistinct(st, [e] + rest) && Run(st, [e] + rest) == Run(Step(st, e), rest)
  {
    assert ([e] + rest)[1..] == rest;
  }

  /** A stale completion wakes the new submitter, whose ticket it seems to carry. */
  lemma StaleCompletion(st: State)
    requires st.submitter.Drawn? && st.done && Ticket(st.stamp.raw) == Ticket(st.submitter.mine.raw)
    requires st.first != st.submitter.mine
    ensures exists events :: AllDistinct(st, events) && !Undeceived(Run(st, events).submitter)
  {
    var s1 := Step(st, Arm);
    var s2 := Step(s1, Wake);
    var s3 := Step(s2, Check);
    var s4 := Step(s3, CopyFirst);
    var s5 := Step(s4, CopySecond);
    assert s5.submitter == Accepted(st.submitter.mine, st.first, st.second);
    NoDrawStep(s4, CopySecond, []);
    NoDrawStep(s3, CopyFirst, [CopySecond] + []);
    NoDrawStep(s2, Check, [CopyFirst] + ([CopySecond] + []));
    NoDrawStep(s1, Wake, [Check] + ([CopyFirst] + ([CopySecond] + [])));
    NoDrawStep(st, Arm, [Wake] + ([Check] + ([CopyFirst] + ([CopySecond] + []))));
  }

  /** A service in progress reaches its completion before the new submitter arms. */
  lemma {:induction false} LateService(st: State)
    requires st.submitter.Drawn? && InService(st.server).Some?
    requires var q := InService(st.server).value;
      q != st.submitter.mine && Ticket(q.raw) == Ticket(st.submitter.mine.raw)
    requires !st.server.Serving? ==> st.first == st.server.req
    requires st.server.Stamped? || st.server.Cleared? ==> st.stamp == st.server.req
    ensures exists events :: AllDistinct(st, events) && !Undeceived(Run(st, events).submitter)
    decreases
      match st.server
      case Serving(_, _) => 5
      case Half(_) => 4
      case Written(_) => 3
      case Stamped(_) => 2
      case _ => 1
  {
    var e :=
      match st.server
      case Serving(_, _) => WriteFirst
      case Half(_) => WriteSecond
      case Written(_) => Stamp
      case Stamped(_) => Clear
      case _ => Give;
    var st' := Step(st, e);
    if st.server.Cleared? {
      StaleCompletion(st');
    } else {
      LateService(st');
    }
    var events :| AllDistinct(st', events) && !Undeceived(Run(st', events).submitter);
    NoDrawStep(st, e, events);
  }

  /** A draw is safe exactly when its ticket is distinct: otherwise some continuation accepts another
      request's reply. */
  lemma DistinctExactly(st: State, reg: nat)
    requires Inv(st) && st.submitter.Drained?
    ensures Distinct(st) <==>
      forall events | AllDistinct(Step(st, Draw(reg)), events) :: Undeceived(Run(Step(st, Draw(reg)), events).submitter)
  {
    var drawn := Step(st, Draw(reg));
    if Distinct(st) {
      SubmitKeeps(st, Draw(reg));
      forall events | AllDistinct(drawn, events)
        ensures Undeceived(Run(drawn, events).submitter)
      {
        RunKeeps(drawn, events);
      }
    } else if InService(st.server).Some? && Ticket(InService(st.server).value.raw) == Ticket(NextRaw(st.counter)) {
      LateService(drawn);
    } else {
      StaleCompletion(drawn);
    }
  }

  /** Some run whose tickets are all distinct when drawn leads from one state to the other. */
  ghost predicate Reaches(st: State, goal: State) {
    exists events :: AllDistinct(st, events) && Run(st, events) == goal
  }

  lemma ReachesItself(st: State)
    ensures Reaches(st, st)
  {
    assert AllDistinct(st, []) && Run(st, []) == st;
  }

  lemma StepReaches(st: State, e: Event, goal: State)
    requires (Drawing(st, e) ==> Distinct(st)) && Reaches(Step(st, e), goal)
    ensures Reaches(st, goal)
  {
    var rest :| AllDistinct(Step(st, e), rest) && Run(Step(st, e), rest) == goal;
    assert ([e] + rest)[1..] == rest;
    assert AllDistinct(st, [e] + rest) && Run(st, [e] + rest) == goal;
  }

  /** The first request is in service, its submitter has given up, and `counter` numbers have been drawn. */
  function Busy(counter: nat): State {
    Init().(server := Serving(Req(1, 0), false), counter := counter)
  }

  /** A further submitter that is not served before it gives up. */
  lemma OneMoreGivesUp(counter: nat, goal: State)
    requires 1 <= counter < SPACE - 1 && Reaches(Busy(counter + 1), goal)
    ensures Reaches(Busy(counter), goal)
  {
    var st := Busy(counter);
    var mine := Req(counter + 1, 0);
    var drawn := st.(submitter := Drawn(mine), counter := counter + 1);
    var armed := drawn.(submitter := Waiting(mine), pending := Some(mine));
    StepReaches(drawn.(submitter := Withdrawn(mine)), Leave, goal);
    StepReaches(armed, GiveUp, goal);
    StepReaches(drawn, Arm, goal);
    StepReaches(st.(submitter := Drained), Draw(0), goal);
    StepReaches(st.(submitter := Inside), Drain, goal);
    StepReaches(st, Enter, goal);
  }

  lemma {:induction false} ManyGiveUp(counter: nat, goal: State)
    requires 1 <= counter <= SPACE - 1 && Reaches(Busy(SPACE - 1), goal)
    ensures Reaches(Busy(counter), goal)
    decreases SPACE - counter
  {
    if counter < SPACE - 1 {
      ManyGiveUp(counter + 1, goal);
      OneMoreGivesUp(counter, goal);
    }
  }

  /** The service of the first request is over, and the next submitter, past its drain, has not drawn yet. */
  function Stale(): State {
    var first := Req(1, 0);
    State(Drained, Idle, None, SPACE - 1, true, first, first, first)
  }

  lemma ServiceEnds()
    ensures Reaches(Busy(SPACE - 1), Stale())
  {
    var st, first := Busy(SPACE - 1), Req(1, 0);
    var drained := st.(submitter := Drained);
    var half := drained.(server := Half(first), first := first);
    var written := half.(server := Written(first), second := first);
    var stamped := written.(server := Stamped(first), stamp := first);
    ReachesItself(Stale());
    StepReaches(stamped.(server := Cleared(first)), Give, Stale());
    StepReaches(stamped, Clear, Stale());
    StepReaches(written, Stamp, Stale());
    StepReaches(half, WriteSecond, Stale());
    StepReaches(drained, WriteFirst, Stale());
    StepReaches(st.(submitter := Inside), Drain, Stale());
    StepReaches(st, Enter, Stale());
  }

  /** Two draws fewer than there are tickets, all during one service and all distinct, and the service ends
      behind the next submitter's drain: with nothing in service, the next ticket is that of a completion
      nobody has consumed. */
  lemma StaleTicketHappens()
    ensures Reaches(Init(), Stale())
    ensures Stale().submitter.Drained? && Stale().done && InService(Stale().server).None? && !Distinct(Stale())
  {
    var st, mine := Init(), Req(1, 0);
    var drawn := st.(submitter := Drawn(mine), counter := 1);
    var armed := drawn.(submitter := Waiting(mine), pending := Some(mine));
    var loaded := armed.(server := Serving(mine, false));
    ServiceEnds();
    ManyGiveUp(1, Stale());
    StepReaches(loaded.(submitter := Withdrawn(mine), pending := None), Leave, Stale());
    StepReaches(loaded, GiveUp, Stale());
    StepReaches(armed, Load, Stale());
    StepReaches(drawn, Arm, Stale());
    StepReaches(st.(submitter := Drained), Draw(0), Stale());
    StepReaches(st.(submitter := Inside), Drain, Stale());
    StepReaches(st, Enter, Stale());
  }

  /** From there a submitter accepts the first request's reply as its own. */
  lemma StaleTicketDeceives(reg: nat)
    ensures exists events ::
      AllDistinct(Step(Stale(), Draw(reg)), events) && !Undeceived(Run(Step(Stale(), Draw(reg)), events).submitter)
  {
    StaleTicketHappens();
    var path :| AllDistinct(Init(), path) && Run(Init(), path) == Stale();
    RunKeeps(Init(), path);
    DistinctExactly(Stale(), reg);
  }
}
