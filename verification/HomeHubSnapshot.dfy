/**
 * The HomeHub value cache behind two mutexes that are never nested. One poll task opens sessions, reads
 * rows and commits them; requests change the target; a reader copies the cache under one mutex and then
 * checks the link under the other. Every lock section and every atomic access outside one is a step.
 */
module HomeHubSnapshot {
  /** A value, marked with the session it was read over and the target its poll was started for. */
  datatype Row = Row(link: nat, target: nat, value: int)

  datatype Poll =
    | Idle
    | Begun(target: nat)
    | Dialled(target: nat)
    | Failed
    | Connected(target: nat)
    | Reading(target: nat, link: nat, taken: seq<Row>)
    | Broken(target: nat, link: nat, taken: seq<Row>)
    | Storing(target: nat, link: nat, taken: seq<Row>, current: bool)
    | Stored(target: nat, link: nat)

  datatype Reader =
    | Start
    | Copied(rows: seq<Row>, link: nat, target: nat)
    | Checked(rows: seq<Row>, target: nat, live: bool)
    | Done(rows: seq<Row>, live: bool)

  /** What the reader's status check saw; kept to say what a live answer means. */
  datatype Seen = Seen(link: nat, target: nat, proven: nat)

  /** `proven` is the session whose poll last ended with the session still current. */
  datatype State = State(
    target: nat,
    link: nat,
    connected: bool,
    observed: bool,
    open: bool,
    cache: seq<Row>,
    cacheLink: nat,
    cacheTarget: nat,
    cacheHeld: bool,
    poll: Poll,
    clearing: nat,
    reader: Reader,
    seen: Seen,
    proven: nat)

  datatype Event =
    | Begin | Reuse | Dial | Refuse(error: bool) | Open | Drop | Capture
    | Read(value: int) | Break | MarkDown | Throw | FinishFast | Check | Store | Finish
    | Disconnect | Retire
    | Reconfigure | Clear
    | Copy(max: nat) | Answer(young: bool) | Recheck | Again

  function Init(): State {
    State(1, 0, false, false, false, [], 0, 0, false, Idle, 0, Start, Seen(0, 0, 0), 0)
  }

  function Emptied(st: State): State {
    st.(cache := [], cacheLink := 0, cacheTarget := 0)
  }

  /** The link state a poll ends with: up exactly when its socket, session and target are all still its own. */
  function Concluded(st: State, target: nat, link: nat): State {
    var current := st.open && st.link == link && st.target == target;
    st.(connected := current, observed := current, poll := Idle, proven := if current then link else st.proven)
  }

  function PollTask(st: State, e: Event): State {
    var p := st.poll;
    match e
    case Begin => if p.Idle? then st.(poll := Begun(st.target)) else st
    case Reuse => if p.Begun? && st.open && st.target == p.target then st.(poll := Connected(p.target)) else st
    case Dial =>
      if !p.Begun? then st
      else if st.target == p.target then
        st.(open := false, connected := false, observed := false, poll := Dialled(p.target))
      else st.(open := false, poll := Failed)
    case Refuse(error) =>
      if p.Begun? || p.Dialled? then
        st.(connected := if error && st.target == p.target then false else st.connected, poll := Failed)
      else st
    case Open =>
      if !p.Dialled? then st
      else if st.target == p.target then
        st.(open := true, link := st.link + 1, connected := false, observed := false, poll := Connected(p.target))
      else st.(open := false, poll := Failed)
    case Drop => if p.Failed? && !st.cacheHeld then Emptied(st).(poll := Idle) else st
    case Capture => if p.Connected? then st.(poll := Reading(p.target, st.link, [])) else st
    case Read(value) =>
      if p.Reading? && st.open then
        st.(poll := Reading(p.target, p.link, p.taken + [Row(st.link, p.target, value)]))
      else st
    case Break => if p.Reading? then st.(open := false, poll := Broken(p.target, p.link, p.taken)) else st
    case MarkDown => if p.Broken? then st.(connected := false, poll := Reading(p.target, p.link, p.taken)) else st
    case Throw => if p.Reading? then st.(observed := false, poll := Idle) else st
    case FinishFast => if p.Reading? then Concluded(st, p.target, p.link) else st
    case Check =>
      if p.Reading? && !st.cacheHeld then
        st.(cacheHeld := true, poll := Storing(p.target, p.link, p.taken, st.target == p.target))
      else st
    case Store =>
      if !p.Storing? then st
      else if p.current then
        st.(cache := p.taken, cacheLink := p.link, cacheTarget := p.target, cacheHeld := false,
            poll := Stored(p.target, p.link))
      else Emptied(st).(cacheHeld := false, poll := Stored(p.target, p.link))
    case Finish => if p.Stored? then Concluded(st, p.target, p.link) else st
    case Disconnect => if p.Idle? then st.(open := false, connected := false, observed := false) else st
    case Retire => if p.Idle? && !st.open && !st.cacheHeld then Emptied(st).(observed := false) else st
    case _ => st
  }

  /** `mb_reconfigure`: the generation and the status facts under one mutex, the cache under the other. */
  function Request(st: State, e: Event): State {
    match e
    case Reconfigure =>
      st.(target := st.target + 1, connected := false, observed := false, clearing := st.clearing + 1)
    case Clear => if st.clearing > 0 && !st.cacheHeld then Emptied(st).(clearing := st.clearing - 1) else st
    case _ => st
  }

  /** `mb_values_snapshot`; `young` is the outcome of its two age limits. */
  function Snapshot(st: State, e: Event): State {
    var r := st.reader;
    match e
    case Copy(max) =>
      if r.Start? && !st.cacheHeld then
        st.(reader := Copied(if |st.cache| < max then st.cache else st.cache[..max], st.cacheLink, st.cacheTarget))
      else st
    case Answer(young) =>
      if !r.Copied? then st
      else
        var live := st.connected && st.observed && st.link != 0 && st.target != 0
                    && r.link == st.link && r.target == st.target && young;
        st.(reader := Checked(r.rows, r.target, live), seen := Seen(st.link, st.target, st.proven))
    case Recheck => if r.Checked? then st.(reader := Done(r.rows, r.live && r.target == st.target)) else st
    case Again => if r.Done? then st.(reader := Start) else st
    case _ => st
  }

  function Step(st: State, e: Event): State {
    if e.Reconfigure? || e.Clear? then Request(st, e)
    else if e.Copy? || e.Answer? || e.Recheck? || e.Again? then Snapshot(st, e)
    else PollTask(st, e)
  }

  function Run(st: State, events: seq<Event>): State
    decreases |events|
  {
    if events == [] then st else Run(Step(st, events[0]), events[1..])
  }

  predicate Marked(rows: seq<Row>, link: nat, target: nat) {
    forall i | 0 <= i < |rows| :: rows[i].link == link && rows[i].target == target
  }

  predicate PollInv(st: State) {
    var p := st.poll;
    && (p.Begun? || p.Dialled? || p.Connected? ==> p.target <= st.target)
    && (p.Reading? || p.Broken? || p.Storing? ==>
          p.target <= st.target && p.link == st.link && Marked(p.taken, p.link, p.target))
    && (p.Stored? ==> p.target <= st.target && p.link == st.link)
    && (p.Storing? <==> st.cacheHeld)
  }

  predicate ReaderInv(st: State) {
    var r := st.reader;
    && (r.Copied? ==> Marked(r.rows, r.link, r.target) && r.target <= st.target)
    && (r.Checked? && r.live ==>
          && Marked(r.rows, st.seen.link, st.seen.target)
          && st.seen.target == r.target <= st.target && st.seen.link == st.seen.proven)
    && (r.Done? && r.live ==> Marked(r.rows, st.seen.link, st.seen.target) && st.seen.link == st.seen.proven)
  }

  predicate Inv(st: State) {
    && Marked(st.cache, st.cacheLink, st.cacheTarget) && st.cacheTarget <= st.target
    && (st.connected && st.observed ==> st.proven == st.link)
    && PollInv(st) && ReaderInv(st)
  }

  lemma PollTaskKeeps(st: State, e: Event)
    requires Inv(st)
    ensures Inv(PollTask(st, e))
  {
  }

  lemma StepKeeps(st: State, e: Event)
    requires Inv(st)
    ensures Inv(Step(st, e))
  {
    PollTaskKeeps(st, e);
  }

  lemma {:induction false} RunKeeps(st: State, events: seq<Event>)
    requires Inv(st)
    ensures Inv(Run(st, events))
    decreases |events|
  {
    if events != [] {
      StepKeeps(st, events[0]);
      RunKeeps(Step(st, events[0]), events[1..]);
    }
  }

  /** A live answer holds rows of one poll: read over the session that was current at the status check, for
      the target that was current there, and that session had completed a poll. */
  lemma LiveRowsAreCurrent(events: seq<Event>)
    ensures var st := Run(Init(), events);
      st.reader.Done? && st.reader.live ==>
        Marked(st.reader.rows, st.seen.link, st.seen.target) && st.seen.link == st.seen.proven
  {
    RunKeeps(Init(), events);
  }

  lemma TargetMoves(st: State, e: Event)
    ensures Step(st, e).target == if e.Reconfigure? then st.target + 1 else st.target
  {
  }

  lemma {:induction false} TargetGrows(st: State, events: seq<Event>)
    ensures Run(st, events).target >= st.target
    ensures Reconfigure in events ==> Run(st, events).target > st.target
    decreases |events|
  {
    if events != [] {
      TargetMoves(st, events[0]);
      TargetGrows(Step(st, events[0]), events[1..]);
    }
  }

  /** The snapshot in progress holds `rows` of target `target`. */
  predicate Holding(r: Reader, rows: seq<Row>, target: nat) {
    match r
    case Start => false
    case Copied(rs, _, t) => rs == rows && t == target
    case Checked(rs, t, _) => rs == rows && t == target
    case Done(rs, _) => rs == rows
  }

  lemma {:induction false} HoldingOn(st: State, events: seq<Event>, rows: seq<Row>, target: nat)
    requires Holding(st.reader, rows, target) && Again !in events
    ensures Holding(Run(st, events).reader, rows, target)
    decreases |events|
  {
    if events != [] {
      HoldingOn(Step(st, events[0]), events[1..], rows, target);
    }
  }

  /** A snapshot that answers live returns what the cache held when it was copied, and no target change
      fell between that copy and its last check. */
  lemma LiveMeansUndisturbed(before: seq<Event>, max: nat, between: seq<Event>)
    requires Run(Init(), before).reader.Start? && !Run(Init(), before).cacheHeld && Again !in between
    ensures var st := Run(Init(), before);
      var checked := Run(Step(st, Copy(max)), between);
      var done := Step(checked, Recheck);
      checked.reader.Checked? && done.reader.live ==>
        && Reconfigure !in between
        && done.reader.rows == (if |st.cache| < max then st.cache else st.cache[..max])
        && Marked(done.reader.rows, checked.seen.link, done.target)
  {
    var st := Run(Init(), before);
    var copied := Step(st, Copy(max));
    var checked := Run(copied, between);
    RunKeeps(Init(), before);
    StepKeeps(st, Copy(max));
    RunKeeps(copied, between);
    TargetGrows(copied, between);
    HoldingOn(copied, between, copied.reader.rows, copied.reader.target);
  }

  /** Left alone, a snapshot after a finished poll is live and holds that poll's rows. */
  lemma QuietSnapshotIsLive(st: State, rows: seq<Row>, max: nat)
    requires Inv(st) && st.reader.Start? && st.poll.Storing? && st.poll.taken == rows
    requires st.poll.current && st.open && st.target == st.poll.target && st.link > 0 && st.target > 0
    ensures var finished := Step(Step(st, Store), Finish);
      Step(Step(Step(finished, Copy(max)), Answer(true)), Recheck).reader
      == Done(if |rows| < max then rows else rows[..max], true)
  {
  }
}
