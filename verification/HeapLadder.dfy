/**
 * The two recovery ladders over boots: crash boots and heap-watchdog restarts, each with its own stored
 * counter, and the one classification of every boot that both follow.
 */
module HeapLadder {
  const CAP: nat := 5
  const THRESHOLD: nat := 4
  const FAIL_MAX: nat := 100
  const CRITICAL: nat := 4096
  const RECOVERY: nat := 8192
  const HOLD: nat := 300_000
  const WRAP: nat := 0x1_0000_0000

  /** Why the chip came up: a fault it counts as a crash, a software reset, or anything else. */
  datatype Reason = CrashReset | Software | Other

  datatype Kind = Clean | Crash | HeapRestart

  /** An open critical run and the millisecond count it opened at. */
  datatype Run = Quiet | Since(ms: nat)

  datatype Action = Fine | Recovered | Armed | Watching | Restart

  /** `heapStored` and `failsStored` survive every reset; `marker` survives those that keep power. */
  datatype State = State(
    heapStored: int,
    failsStored: int,
    marker: bool,
    up: bool,
    kind: Kind,
    restarts: nat,
    safe: bool,
    run: Run)

  datatype Event =
    | Boot(reason: Reason, noise: bool, heapWrite: bool, failsWrite: bool)
    | Sample(block: nat, ms: nat, ota: bool, heldBefore: bool, write: bool, heldAfter: bool)
    | Healthy(write: bool)

  function SaneRestarts(stored: int): (n: nat)
    ensures n <= CAP
  {
    if stored < 0 || stored > CAP then 0 else stored
  }

  function SaneFails(stored: int): (n: nat)
    ensures n <= FAIL_MAX
  {
    if stored < 0 || stored > FAIL_MAX then 0 else stored
  }

  function NextFails(stored: int): nat {
    if SaneFails(stored) >= FAIL_MAX then FAIL_MAX else SaneFails(stored) + 1
  }

  function Classify(reason: Reason, marker: bool): Kind {
    if reason == CrashReset then Crash else if marker && reason == Software then HeapRestart else Clean
  }

  /** One look at the largest free block. */
  function Watch(run: Run, block: nat, ms: nat, ota: bool): (Run, Action) {
    if ota || block >= RECOVERY then (Quiet, if run.Quiet? then Fine else Recovered)
    else if run.Quiet? then if block >= CRITICAL then (Quiet, Fine) else (Since(ms), Armed)
    else (run, if Elapsed(run.ms, ms) >= HOLD then Restart else Watching)
  }

  /** The difference of two 32-bit millisecond counts. */
  function Elapsed(from: nat, to: nat): nat {
    (to - from) % WRAP
  }

  /** `safe_mode_begin` and `heap_guard_begin`. A marker that is only noise has never the right form after a
      software reset. */
  function Booted(st: State, e: Event): State
    requires e.Boot?
  {
    var kind := Classify(e.reason, if e.reason == Software then st.marker else e.noise);
    var fails :=
      match kind
      case Crash => NextFails(st.failsStored)
      case HeapRestart => SaneFails(st.failsStored)
      case Clean => 0;
    var failsStored := if kind != HeapRestart && e.failsWrite then fails else st.failsStored;
    var restarts := if kind == Clean then 0 else SaneRestarts(st.heapStored);
    var heapStored := if kind == Clean && e.heapWrite then 0 else st.heapStored;
    var safe := (kind == Crash && fails >= THRESHOLD) || restarts >= CAP;
    State(heapStored, failsStored, false, true, kind, restarts, safe, Quiet)
  }

  /** `heap_guard_sample`, which only the poll task calls; safe mode never starts it. */
  function Sampled(st: State, e: Event): State
    requires e.Sample?
  {
    if !st.up || st.safe then st
    else
      var (run, action) := Watch(st.run, e.block, e.ms, e.ota);
      if action != Restart || st.restarts >= CAP || e.heldBefore then st.(run := run)
      else
        var written := st.(run := run, heapStored := if e.write then st.restarts + 1 else st.heapStored);
        if e.heldAfter then written else written.(marker := true, up := false)
  }

  function Step(st: State, e: Event): State {
    match e
    case Boot(_, _, _, _) => Booted(st, e)
    case Sample(_, _, _, _, _, _) => Sampled(st, e)
    case Healthy(write) => if st.up && !st.safe && write then st.(failsStored := 0) else st
  }

  function After(st: State, events: seq<Event>): State
    decreases |events|
  {
    if events == [] then st else After(Step(st, events[0]), events[1..])
  }

  predicate Restarts(st: State, e: Event) {
    st.up && !Step(st, e).up
  }

  /** The watchdog restarts in a run. */
  function CountRestarts(st: State, events: seq<Event>): nat
    decreases |events|
  {
    if events == [] then 0
    else (if Restarts(st, events[0]) then 1 else 0) + CountRestarts(Step(st, events[0]), events[1..])
  }

  /** Boots in a run that start the full stack. */
  function CountFull(st: State, events: seq<Event>): nat
    decreases |events|
  {
    if events == [] then 0
    else (if events[0].Boot? && !Step(st, events[0]).safe then 1 else 0) + CountFull(Step(st, events[0]), events[1..])
  }

  predicate CleanBoot(st: State, e: Event) {
    e.Boot? && Step(st, e).kind == Clean
  }

  /** No boot of the run is a clean one and every write of the restart counter in it succeeds. */
  predicate Troubled(st: State, events: seq<Event>)
    decreases |events|
  {
    events == [] ||
    (&& !CleanBoot(st, events[0])
     && (events[0].Sample? ==> events[0].write)
     && Troubled(Step(st, events[0]), events[1..]))
  }

  /** The running boot honours what is stored; a restart under way has counted itself. */
  predicate InStep(st: State) {
    && (st.up ==> SaneRestarts(st.heapStored) >= st.restarts)
    && (!st.up ==> 1 <= st.heapStored <= CAP)
    && (st.up && st.restarts >= CAP ==> st.safe)
  }

  /** How far up the ladder the device is. */
  function Rung(st: State): nat {
    if st.up then st.restarts else SaneRestarts(st.heapStored)
  }

  lemma StepClimbs(st: State, e: Event)
    requires InStep(st) && !CleanBoot(st, e) && (e.Sample? ==> e.write)
    ensures InStep(Step(st, e))
    ensures Rung(Step(st, e)) >= Rung(st) + if Restarts(st, e) then 1 else 0
  {
  }

  /** Without a clean boot the watchdog restarts the device at most as often as there are rungs left. */
  lemma {:induction false} RestartsAreCapped(st: State, events: seq<Event>)
    requires InStep(st) && Troubled(st, events)
    ensures InStep(After(st, events))
    ensures CountRestarts(st, events) + Rung(st) <= Rung(After(st, events)) <= CAP
    decreases |events|
  {
    if events != [] {
      StepClimbs(st, events[0]);
      RestartsAreCapped(Step(st, events[0]), events[1..]);
    }
  }

  /** A clean boot runs the full stack whatever the counters hold and whether or not clearing them works. */
  lemma CleanBootIsFull(st: State, boot: Event)
    requires CleanBoot(st, boot)
    ensures var st' := Step(st, boot); st'.up && !st'.safe && st'.restarts == 0 && InStep(st')
  {
  }

  /** From a clean boot, which is a full one, five restarts at most, and the boot after the fifth is minimal. */
  lemma LadderEndsMinimal(st: State, boot: Event, events: seq<Event>)
    requires CleanBoot(st, boot) && Troubled(Step(st, boot), events)
    ensures var clean := Step(st, boot);
      && clean.up && !clean.safe
      && CountRestarts(clean, events) <= CAP
      && (CountRestarts(clean, events) == CAP ==> var last := After(clean, events); last.up ==> last.safe)
  {
    CleanBootIsFull(st, boot);
    RestartsAreCapped(Step(st, boot), events);
  }

  /** A minimal boot of the ladder cannot restart itself, and every boot after it is minimal, until a clean one. */
  lemma {:induction false} MinimalUntilClean(st: State, events: seq<Event>)
    requires st.up && st.restarts == CAP && st.safe && st.heapStored == CAP
    requires NeverClean(st, events)
    ensures var st' := After(st, events); st'.up && st'.restarts == CAP && st'.safe && st'.heapStored == CAP
    ensures CountRestarts(st, events) == 0
    decreases |events|
  {
    if events != [] {
      MinimalUntilClean(Step(st, events[0]), events[1..]);
    }
  }

  predicate NeverClean(st: State, events: seq<Event>)
    decreases |events|
  {
    events == [] || (!CleanBoot(st, events[0]) && NeverClean(Step(st, events[0]), events[1..]))
  }

  /** No boot of the run stays up long enough to count as healthy, and each boot can count its crash. */
  predicate NeverHealthy(events: seq<Event>) {
    forall i | 0 <= i < |events| :: !events[i].Healthy? && (events[i].Boot? ==> events[i].failsWrite)
  }

  /** The marker is armed exactly while a watchdog restart is under way. */
  predicate Marked(st: State) {
    InStep(st) && st.marker == !st.up
  }

  /** What is left to climb on both ladders together. */
  function Left(st: State): nat
    requires InStep(st) && st.restarts <= CAP
  {
    (if SaneFails(st.failsStored) < THRESHOLD then THRESHOLD - SaneFails(st.failsStored) else 0)
    + if st.up then CAP - st.restarts else CAP - st.heapStored + 1
  }

  lemma FullBootClimbs(st: State, e: Event)
    requires Marked(st) && st.restarts <= CAP && !CleanBoot(st, e) && !e.Healthy?
    requires (e.Sample? ==> e.write) && (e.Boot? ==> e.failsWrite)
    ensures Marked(Step(st, e)) && Step(st, e).restarts <= CAP
    ensures Left(Step(st, e)) <= Left(st)
    ensures e.Boot? && !Step(st, e).safe ==> Left(Step(st, e)) < Left(st)
  {
  }

  /** A fault that alternates between crashing early and exhausting the heap ends in safe mode too: neither
      ladder resets the other, so only so many full boots fit. */
  lemma {:induction false} AlternatingFaultsEnd(st: State, events: seq<Event>)
    requires Marked(st) && st.restarts <= CAP && Troubled(st, events) && NeverHealthy(events)
    ensures CountFull(st, events) <= Left(st) <= THRESHOLD + CAP
    decreases |events|
  {
    if events != [] {
      FullBootClimbs(st, events[0]);
      assert NeverHealthy(events[1..]);
      AlternatingFaultsEnd(Step(st, events[0]), events[1..]);
    }
  }

  /** Five minutes below the recovery mark, then a restart whose counter write fails. */
  function Wedge(n: nat): seq<Event> {
    if n == 0 then []
    else [Sample(0, 0, false, false, false, false), Sample(0, HOLD, false, false, false, false),
          Boot(Software, false, false, false)] + Wedge(n - 1)
  }

  /** With failing counter writes there is no bound. */
  lemma {:induction false} FailingWritesUncapped(st: State, n: nat)
    requires st.up && !st.safe && st.restarts == 0 && st.run.Quiet? && SaneRestarts(st.heapStored) == 0
    ensures CountRestarts(st, Wedge(n)) == n && NeverClean(st, Wedge(n))
    decreases n
  {
    if n > 0 {
      var a, b, c := Wedge(n)[0], Wedge(n)[1], Wedge(n)[2];
      var s1 := Step(st, a);
      var s2 := Step(s1, b);
      var s3 := Step(s2, c);
      assert Wedge(n)[1..][1..][1..] == Wedge(n - 1);
      FailingWritesUncapped(s3, n - 1);
      assert CountRestarts(s2, Wedge(n)[1..][1..]) == CountRestarts(s3, Wedge(n - 1));
      assert CountRestarts(s1, Wedge(n)[1..]) == 1 + CountRestarts(s2, Wedge(n)[1..][1..]);
      assert NeverClean(s2, Wedge(n)[1..][1..]);
      assert NeverClean(s1, Wedge(n)[1..]);
    }
  }

  /** A sample with its true time; the watchdog sees only the low 32 bits of that. */
  datatype Look = Look(block: nat, at: nat, ota: bool)

  function Tracked(looks: seq<Look>): Run {
    if looks == [] then Quiet
    else
      var n := |looks| - 1;
      Watch(Tracked(looks[..n]), looks[n].block, looks[n].at % WRAP, looks[n].ota).0
  }

  /** From sample `j`, which was critical, to the last one the heap never came clear and no update ran. */
  ghost predicate LowSince(looks: seq<Look>, j: nat) {
    j < |looks| && looks[j].block < CRITICAL &&
    forall k | j <= k < |looks| :: !looks[k].ota && looks[k].block < RECOVERY
  }

  lemma ElapsedExact(from: nat, to: nat)
    requires from <= to < from + WRAP
    ensures Elapsed(from % WRAP, to % WRAP) == to - from
  {
  }

  /** A run is open exactly when the heap has been low since some critical sample, and it opened at the
      first such sample. */
  lemma {:induction false} RunOpensFirst(looks: seq<Look>) returns (j: nat)
    ensures Tracked(looks).Since? ==> LowSince(looks, j) && Tracked(looks).ms == looks[j].at % WRAP
    ensures Tracked(looks).Since? ==> forall i: nat | LowSince(looks, i) :: j <= i
    ensures Tracked(looks).Quiet? ==> forall i: nat :: !LowSince(looks, i)
  {
    j := 0;
    if looks != [] {
      var n := |looks| - 1;
      var before := looks[..n];
      var i := RunOpensFirst(before);
      if Tracked(before).Since? {
        j := i;
      } else {
        j := n;
      }
      forall m: nat | LowSince(looks, m) && m < n
        ensures LowSince(before, m)
      {
        forall k | m <= k < n
          ensures !before[k].ota && before[k].block < RECOVERY
        {
          assert before[k] == looks[k];
        }
      }
    }
  }

  /** The watchdog acts on a sample exactly when the heap has been low for five minutes: since a critical
      sample at least that old, without one clear sample or an update in between, through a wrap of its clock. */
  lemma RestartExactly(looks: seq<Look>)
    requires looks != []
    requires forall i, k | 0 <= i <= k < |looks| :: looks[i].at <= looks[k].at < looks[i].at + WRAP
    ensures var n := |looks| - 1;
      Watch(Tracked(looks[..n]), looks[n].block, looks[n].at % WRAP, looks[n].ota).1 == Restart
      <==> exists j: nat :: LowSince(looks, j) && looks[n].at - looks[j].at >= HOLD
  {
    var n := |looks| - 1;
    var before := looks[..n];
    var j := RunOpensFirst(before);
    forall i: nat | LowSince(looks, i) && i < n
      ensures LowSince(before, i)
    {
      assert forall k | i <= k < n :: before[k] == looks[k];
    }
    if Tracked(before).Since? && !looks[n].ota && looks[n].block < RECOVERY {
      ElapsedExact(looks[j].at, looks[n].at);
      assert LowSince(looks, j) by {
        assert forall k | j <= k < n :: before[k] == looks[k];
      }
    }
  }

  /** The guard's own variables over boots. */
  class HeapGuard {
    var heapStored: int
    var failsStored: int
    var marker: bool
    var up: bool
    var kind: Kind
    var restarts: nat
    var safe: bool
    var run: Run

    ghost function Now(): State
      reads this
    {
      State(heapStored, failsStored, marker, up, kind, restarts, safe, run)
    }

    constructor (heapStored: int, failsStored: int)
      ensures Now() == State(heapStored, failsStored, false, false, Clean, 0, false, Quiet)
    {
      this.heapStored, this.failsStored := heapStored, failsStored;
      marker, up, kind, restarts, safe, run := false, false, Clean, 0, false, Quiet;
    }

    /** Reads the marker and clears it, whatever the reset was. */
    method TakeMarker(noise: bool, kept: bool) returns (valid: bool)
      modifies this`marker
      ensures valid == (if kept then old(marker) else noise) && !marker
    {
      valid := if kept then marker else noise;
      marker := false;
    }

    /** The crash half of a boot, then the heap half. */
    method Begin(reason: Reason, noise: bool, heapWrite: bool, failsWrite: bool)
      modifies this
      ensures Now() == Step(old(Now()), Boot(reason, noise, heapWrite, failsWrite))
    {
      var marked := TakeMarker(noise, reason == Software);
      kind := Classify(reason, marked);
      safe := false;
      if kind == Crash {
        var next := NextFails(failsStored);
        safe := next >= THRESHOLD;
        if failsWrite {
          failsStored := next;
        }
      } else if kind == Clean && failsStored != 0 && failsWrite {
        failsStored := 0;
      }
      restarts := if kind == Clean then 0 else SaneRestarts(heapStored);
      if kind == Clean && heapStored != 0 && heapWrite {
        heapStored := 0;
      }
      if restarts >= CAP {
        safe := true;
      }
      up, run := true, Quiet;
    }

    /** One sample of the poll task. */
    method Sample(block: nat, ms: nat, ota: bool, heldBefore: bool, write: bool, heldAfter: bool)
      modifies this
      ensures Now() == Step(old(Now()), Event.Sample(block, ms, ota, heldBefore, write, heldAfter))
    {
      if !up || safe {
        return;
      }
      var watched := Watch(run, block, ms, ota);
      run := watched.0;
      if watched.1 != Restart || restarts >= CAP || heldBefore {
        return;
      }
      if write {
        heapStored := restarts + 1;
      }
      if !heldAfter {
        marker, up := true, false;
      }
    }
  }
}
