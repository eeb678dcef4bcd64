/**
 * What the journal service appends next: each source's builder, the manifest that goes before its data,
 * and the round robin over the sources.
 */
module JournalService {
  import opened Options

  const CHECKUP: nat := 3
  const STOP_OBSERVATION: nat := 5
  const MANIFESTED: nat := 3
  const REFRESH: nat := 288
  const FLOOR_REACH: nat := 2
  const FUTURE_SLACK: nat := 1

  /** Checkup hours and the observation archive keep their own cursors. */
  predicate Trend(src: nat) {
    src != CHECKUP && src != STOP_OBSERVATION
  }

  /** The newest manifest of a source: its catalog, the bucket it was written for, its place in the log. */
  datatype Manifest = Manifest(catalog: int, bucket: int, sequence: nat)
  /** `adopted` is the newest real sample taken over from the previous boot, until a builder has looked at it. */
  datatype Source = Source(cursor: Option<int>, adopted: Option<int>, floor: Option<int>, manifest: Option<Manifest>)

  /** What a builder sees of its source: a trend's live ring, or the target another builder reports. */
  datatype Look = Ring(allowed: bool, anchor: Option<int>, held: nat) | Offered(target: Option<int>)

  datatype State = State(sources: seq<Source>, turn: nat, sequence: nat, catalog: int)

  predicate Valid(st: State) {
    && st.turn < |st.sources|
    && forall i | 0 <= i < |st.sources| && st.sources[i].manifest.Some? ::
         st.sources[i].manifest.value.sequence < st.sequence
  }

  /** The bucket an adopted sample was already filed under, if the cursor is close behind it. */
  function AdoptFloor(cursor: Option<int>, sampled: int): Option<int> {
    if cursor.Some? && cursor.value < sampled && sampled - cursor.value <= FLOOR_REACH then Some(sampled) else None
  }

  function Lifted(cursor: Option<int>, floor: Option<int>): Option<int> {
    if cursor.Some? && floor.Some? && cursor.value < floor.value then floor else cursor
  }

  /** One look at a source: what it would append next, and the source after the look. */
  function Build(s: Source, trend: bool, look: Look): (r: (Source, Option<int>))
  {
    if !trend then (s, if look.Offered? then look.target else None)
    else if !look.Ring? || !look.allowed || look.anchor.None? then (s, None)
    else
      var anchor := look.anchor.value;
      if (s.cursor.Some? && s.cursor.value - anchor > FUTURE_SLACK) || look.held == 0 then (s, None)
      else
        var s' := if s.adopted.Some? then s.(floor := AdoptFloor(s.cursor, s.adopted.value), adopted := None) else s;
        var from := Lifted(s'.cursor, s'.floor);
        var oldest := anchor - (look.held - 1);
        var wanted := if from.None? then oldest else from.value + 1;
        var target := if wanted < oldest then oldest else wanted;
        (s', if target > anchor then None else Some(target))
  }

  /** A manifest must precede data of another catalog, of an earlier bucket, or a whole ring later. */
  predicate Due(m: Option<Manifest>, catalog: int, bucket: int) {
    m.None? || m.value.catalog != catalog || bucket < m.value.bucket || bucket - m.value.bucket >= REFRESH
  }

  /** A record written: data of a source, or the manifest that covers it. */
  datatype Written = Data(src: nat, bucket: int) | Schema(src: nat, bucket: int)
  datatype Result = Wrote(w: Written) | Idle | Refused | Unbuilt
  /** How a round's flash work goes: the append can fail, or the manifest that is due cannot be built. */
  datatype Flash = Works | AppendFails | ManifestFails

  /** The source `offset` places after `turn`: their sum modulo the number of sources. */
  function Place(n: nat, turn: nat, offset: nat): (src: nat)
    requires turn < n && offset < n
    ensures src < n
  {
    if turn + offset < n then turn + offset else turn + offset - n
  }

  /** How many places after `turn` source `src` comes. */
  function Offset(n: nat, turn: nat, src: nat): (o: nat)
    requires turn < n && src < n
    ensures o < n && Place(n, turn, o) == src
  {
    if src >= turn then src - turn else src - turn + n
  }

  predicate Ready(st: State, looks: seq<Look>, src: nat)
    requires Valid(st) && |looks| == |st.sources| && src < |st.sources|
  {
    Build(st.sources[src], Trend(src), looks[src]).1.Some?
  }

  /** The first place, counted from `turn`, whose source has something to append; |st.sources| when none has. */
  function FirstReady(st: State, looks: seq<Look>, offset: nat): (o: nat)
    requires Valid(st) && |looks| == |st.sources| && offset <= |st.sources|
    ensures offset <= o <= |st.sources|
    ensures o < |st.sources| ==> Ready(st, looks, Place(|st.sources|, st.turn, o))
    ensures forall k | offset <= k < o :: !Ready(st, looks, Place(|st.sources|, st.turn, k))
    decreases |st.sources| - offset
  {
    if offset == |st.sources| || Ready(st, looks, Place(|st.sources|, st.turn, offset)) then offset
    else FirstReady(st, looks, offset + 1)
  }

  /** The sources after builders looked at the first `k` places from `turn`. */
  function Looked(st: State, looks: seq<Look>, k: nat): (sources: seq<Source>)
    requires Valid(st) && |looks| == |st.sources|
    ensures |sources| == |st.sources|
  {
    seq(|st.sources|, i requires 0 <= i < |st.sources| =>
      if Offset(|st.sources|, st.turn, i) < k then Build(st.sources[i], Trend(i), looks[i]).0 else st.sources[i])
  }

  /** The manifest just appended becomes current, unless a later one already is. */
  function Adopt(st: State, src: nat, bucket: int, sequence: nat): (st': State)
    requires src < |st.sources|
  {
    var m := st.sources[src].manifest;
    if m.Some? && sequence <= m.value.sequence then st
    else st.(sources := st.sources[src := st.sources[src].(manifest := Some(Manifest(st.catalog, bucket, sequence)))])
  }

  /** The append of `bucket` for `src`: the manifest when one is due, the data record otherwise. */
  function Put(st: State, src: nat, bucket: int, flash: Flash): (r: (State, Result))
    requires Valid(st) && src < |st.sources|
    ensures Valid(r.0) && r.0.catalog == st.catalog && |r.0.sources| == |st.sources|
  {
    var st' := st.(sequence := st.sequence + 1);
    var due := src < MANIFESTED && Due(st.sources[src].manifest, st.catalog, bucket);
    if due && flash.ManifestFails? then (st, Unbuilt)
    else if flash.AppendFails? then (st', Refused)
    else if due then
      (Adopt(st', src, bucket, st.sequence).(turn := src), Wrote(Schema(src, bucket)))
    else
      (st'.(sources := st.sources[src := st.sources[src].(cursor := Some(bucket))],
            turn := if src + 1 < |st.sources| then src + 1 else 0),
       Wrote(Data(src, bucket)))
  }

  /** One round: the builders look in turn, and the first that offers a record appends it. */
  function Next(st: State, looks: seq<Look>, flash: Flash): (r: (State, Result))
    requires Valid(st) && |looks| == |st.sources|
    ensures Valid(r.0) && r.0.catalog == st.catalog && |r.0.sources| == |st.sources|
  {
    var o := FirstReady(st, looks, 0);
    if o == |st.sources| then (st.(sources := Looked(st, looks, |st.sources|)), Idle)
    else
      var src := Place(|st.sources|, st.turn, o);
      Put(st.(sources := Looked(st, looks, o + 1)), src, Build(st.sources[src], Trend(src), looks[src]).1.value, flash)
  }

  datatype Round = Round(looks: seq<Look>, flash: Flash)

  predicate WellFormed(n: nat, rounds: seq<Round>) {
    forall i | 0 <= i < |rounds| :: |rounds[i].looks| == n
  }

  /** The records written by consecutive rounds. */
  function Serve(st: State, rounds: seq<Round>): (r: (State, seq<Result>))
    requires Valid(st) && WellFormed(|st.sources|, rounds)
    ensures Valid(r.0) && |r.0.sources| == |st.sources| && r.0.catalog == st.catalog && |r.1| == |rounds|
    decreases |rounds|
  {
    if rounds == [] then (st, [])
    else
      var (st1, w) := Next(st, rounds[0].looks, rounds[0].flash);
      var (st2, ws) := Serve(st1, rounds[1..]);
      (st2, [w] + ws)
  }

  /** A trend source never goes back: its next record lies beyond its cursor and within its live ring. */
  lemma TargetMovesForward(s: Source, look: Look)
    ensures var (s', target) := Build(s, true, look);
      && s'.cursor == s.cursor && s'.manifest == s.manifest
      && (target.Some? ==>
            && look.Ring? && look.anchor.Some?
            && look.anchor.value - look.held < target.value <= look.anchor.value
            && (s.cursor.Some? ==> s.cursor.value < target.value)
            && (s'.floor.Some? && s.cursor.Some? ==> s'.floor.value < target.value))
  {
  }

  /** What one round does, in terms of who was ready. */
  lemma RoundFacts(st: State, looks: seq<Look>, flash: Flash)
    requires Valid(st) && |looks| == |st.sources|
    ensures var r := Next(st, looks, flash).1;
      r.Wrote? ==>
        && r.w.src < |st.sources| && Ready(st, looks, r.w.src)
        && Build(st.sources[r.w.src], Trend(r.w.src), looks[r.w.src]).1 == Some(r.w.bucket)
        && forall k | 0 <= k < Offset(|st.sources|, st.turn, r.w.src) ::
             !Ready(st, looks, Place(|st.sources|, st.turn, k))
  {
  }

  /** Only a data record moves a trend source's cursor. */
  lemma RoundKeepsCursor(st: State, looks: seq<Look>, flash: Flash, src: nat)
    requires Valid(st) && |looks| == |st.sources| && src < |st.sources| && Trend(src)
    ensures var (st', r) := Next(st, looks, flash);
      st'.sources[src].cursor == st.sources[src].cursor || r == Wrote(Data(src, st'.sources[src].cursor.value))
  {
    var o := FirstReady(st, looks, 0);
    LookKeepsCursor(st, looks, if o < |st.sources| then o + 1 else o, src);
  }

  lemma LookKeepsCursor(st: State, looks: seq<Look>, k: nat, src: nat)
    requires Valid(st) && |looks| == |st.sources| && src < |st.sources| && Trend(src)
    ensures Looked(st, looks, k)[src].cursor == st.sources[src].cursor
  {
  }

  /** Where a round that writes leaves the turn, and what its record is covered by. */
  lemma RoundLeaves(st: State, looks: seq<Look>, flash: Flash)
    requires Valid(st) && |looks| == |st.sources|
    ensures var (st', r) := Next(st, looks, flash);
      && (r.Wrote? && r.w.Data? ==>
            && r.w.src < |st.sources|
            && st'.turn == (if r.w.src + 1 < |st.sources| then r.w.src + 1 else 0)
            && st'.sources[r.w.src].cursor == Some(r.w.bucket)
            && st'.sources[r.w.src].manifest == st.sources[r.w.src].manifest
            && (r.w.src < MANIFESTED ==> !Due(st.sources[r.w.src].manifest, st.catalog, r.w.bucket)))
      && (r.Wrote? && r.w.Schema? ==>
            && r.w.src < |st.sources| && st'.turn == r.w.src
            && !Due(st'.sources[r.w.src].manifest, st.catalog, r.w.bucket))
  {
  }

  /** The buckets filed for `src`, in order. */
  function Filed(results: seq<Result>, src: nat): (buckets: seq<int>) {
    if results == [] then []
    else if results[0].Wrote? && results[0].w.Data? && results[0].w.src == src then
      [results[0].w.bucket] + Filed(results[1..], src)
    else Filed(results[1..], src)
  }

  lemma FiledHead(w: Result, rest: seq<Result>, src: nat)
    ensures Filed([w] + rest, src) ==
      (if w.Wrote? && w.w.Data? && w.w.src == src then [w.w.bucket] else []) + Filed(rest, src)
  {
    assert ([w] + rest)[1..] == rest;
  }

  ghost predicate Increasing(above: Option<int>, buckets: seq<int>) {
    && (above.Some? ==> forall i | 0 <= i < |buckets| :: above.value < buckets[i])
    && forall i, j | 0 <= i < j < |buckets| :: buckets[i] < buckets[j]
  }

  lemma ServeFirst(st: State, round: Round, rest: seq<Round>)
    requires Valid(st) && |round.looks| == |st.sources| && WellFormed(|st.sources|, rest)
    ensures WellFormed(|st.sources|, [round] + rest)
    ensures var (st1, w) := Next(st, round.looks, round.flash);
      Serve(st, [round] + rest) == (Serve(st1, rest).0, [w] + Serve(st1, rest).1)
  {
    assert ([round] + rest)[1..] == rest;
  }

  /** One round, as far as a trend source's cursor goes. */
  lemma RoundFiles(st: State, looks: seq<Look>, flash: Flash, src: nat)
    requires Valid(st) && |looks| == |st.sources| && src < |st.sources| && Trend(src)
    ensures var (st1, w) := Next(st, looks, flash);
      var before, after := st.sources[src].cursor, st1.sources[src].cursor;
      if w.Wrote? && w.w.Data? && w.w.src == src then
        after == Some(w.w.bucket) && (before.Some? ==> before.value < w.w.bucket)
      else after == before
  {
    RoundFacts(st, looks, flash);
    RoundKeepsCursor(st, looks, flash, src);
    RoundLeaves(st, looks, flash);
    TargetMovesForward(st.sources[src], looks[src]);
  }

  lemma IncreasingFrom(above: Option<int>, bucket: int, rest: seq<int>)
    requires Increasing(Some(bucket), rest) && (above.Some? ==> above.value < bucket)
    ensures Increasing(above, [bucket] + rest)
  {
  }

  /** The buckets filed for a trend source strictly increase, from its cursor on. */
  lemma {:induction false} FiledIncreases(st: State, rounds: seq<Round>, src: nat)
    requires Valid(st) && WellFormed(|st.sources|, rounds) && src < |st.sources| && Trend(src)
    ensures Increasing(st.sources[src].cursor, Filed(Serve(st, rounds).1, src))
    decreases |rounds|
  {
    if rounds != [] {
      var first, rest := rounds[0], rounds[1..];
      var (st1, w) := Next(st, first.looks, first.flash);
      RoundFiles(st, first.looks, first.flash, src);
      FiledIncreases(st1, rest, src);
      ServeFirst(st, first, rest);
      assert rounds == [first] + rest;
      var later := Serve(st1, rest).1;
      FiledHead(w, later, src);
      if w.Wrote? && w.w.Data? && w.w.src == src {
        IncreasingFrom(st.sources[src].cursor, w.w.bucket, Filed(later, src));
      } else {
        assert [] + Filed(later, src) == Filed(later, src);
      }
    }
  }

  /** Nothing is filed for a trend source beyond its anchor or behind its live ring. */
  lemma {:induction false} FiledWithinRing(st: State, rounds: seq<Round>, i: nat)
    requires Valid(st) && WellFormed(|st.sources|, rounds) && i < |rounds|
    ensures var r := Serve(st, rounds).1[i];
      r.Wrote? && r.w.Data? && Trend(r.w.src) ==>
        r.w.src < |rounds[i].looks| &&
        var look := rounds[i].looks[r.w.src];
        look.Ring? && look.allowed && look.anchor.Some? &&
          look.anchor.value - look.held < r.w.bucket <= look.anchor.value
    decreases |rounds|
  {
    var (st1, w) := Next(st, rounds[0].looks, rounds[0].flash);
    assert Serve(st, rounds).1 == [w] + Serve(st1, rounds[1..]).1;
    if i == 0 {
      RoundFacts(st, rounds[0].looks, rounds[0].flash);
      if w.Wrote? {
        TargetMovesForward(st.sources[w.w.src], rounds[0].looks[w.w.src]);
      }
    } else {
      FiledWithinRing(st1, rounds[1..], i - 1);
    }
  }

  /** `src` is ready in every round and each round writes something else. */
  ghost predicate Waiting(st: State, rounds: seq<Round>, src: nat)
    requires Valid(st) && WellFormed(|st.sources|, rounds) && src < |st.sources|
    decreases |rounds|
  {
    rounds == [] ||
    var (st1, w) := Next(st, rounds[0].looks, rounds[0].flash);
    && Ready(st, rounds[0].looks, src)
    && w.Wrote? && !(w.w.Data? && w.w.src == src)
    && Waiting(st1, rounds[1..], src)
  }

  /** A round that writes something else, while `src` is ready, leaves the turn before `src`, and behind
      the source whose data it wrote. */
  lemma TurnMoves(st: State, looks: seq<Look>, flash: Flash, src: nat, other: nat)
    requires Valid(st) && |looks| == |st.sources| && src < |st.sources| && other < |st.sources| && other != src
    requires Ready(st, looks, src)
    requires var r := Next(st, looks, flash).1; r.Wrote? && !(r.w.Data? && r.w.src == src)
    ensures var n := |st.sources|;
      var (st', r) := Next(st, looks, flash);
      if r.w == Data(other, r.w.bucket) then
        Offset(n, st.turn, other) < Offset(n, st.turn, src) && Offset(n, st'.turn, other) >= Offset(n, st'.turn, src)
      else Offset(n, st'.turn, other) < Offset(n, st'.turn, src) ==> Offset(n, st.turn, other) < Offset(n, st.turn, src)
  {
    RoundFacts(st, looks, flash);
    RoundLeaves(st, looks, flash);
    var n, w := |st.sources|, Next(st, looks, flash).1.w;
    assert Place(n, st.turn, Offset(n, st.turn, src)) == src;
    assert Offset(n, st.turn, w.src) <= Offset(n, st.turn, src);
  }

  /** A waiting source is passed by each other source at most once: those between the turn and it. */
  lemma {:induction false} PassedAtMostOnce(st: State, rounds: seq<Round>, src: nat, other: nat)
    requires Valid(st) && WellFormed(|st.sources|, rounds) && src < |st.sources| && other < |st.sources| && other != src
    requires Waiting(st, rounds, src)
    ensures var n := |st.sources|;
      |Filed(Serve(st, rounds).1, other)| <= if Offset(n, st.turn, other) < Offset(n, st.turn, src) then 1 else 0
    decreases |rounds|
  {
    if rounds != [] {
      var first, rest := rounds[0], rounds[1..];
      var (st1, w) := Next(st, first.looks, first.flash);
      TurnMoves(st, first.looks, first.flash, src, other);
      PassedAtMostOnce(st1, rest, src, other);
      var later := Serve(st1, rest).1;
      assert Serve(st, rounds).1 == [w] + later by {
        ServeFirst(st, first, rest);
        assert rounds == [first] + rest;
      }
      FiledHead(w, later, other);
    }
  }

  /** A data record of a manifested source lies in the span of the manifest that stands; a manifest just
      appended covers its own bucket, so that the data record behind it is the next append of its source. */
  ghost predicate Covered(st: State, round: Round)
    requires Valid(st) && |round.looks| == |st.sources|
  {
    var (st', r) := Next(st, round.looks, round.flash);
    && (r.Wrote? && r.w.Data? && r.w.src < MANIFESTED ==>
          && r.w.src < |st.sources|
          && var m := st.sources[r.w.src].manifest;
            m.Some? && m.value.catalog == st.catalog && m.value.bucket <= r.w.bucket < m.value.bucket + REFRESH)
    && (r.Wrote? && r.w.Schema? ==>
          && r.w.src < |st'.sources| && st'.turn == r.w.src
          && forall flash ::
               Put(st', r.w.src, r.w.bucket, flash).1
               == if flash.AppendFails? then Refused else Wrote(Data(r.w.src, r.w.bucket)))
  }

  lemma RoundCovered(st: State, round: Round)
    requires Valid(st) && |round.looks| == |st.sources|
    ensures Covered(st, round)
  {
    RoundLeaves(st, round.looks, round.flash);
  }

  /** So it is in every round of a run, from whatever state it began in. */
  lemma {:induction false} ManifestFirst(st: State, rounds: seq<Round>, i: nat)
    requires Valid(st) && WellFormed(|st.sources|, rounds) && i < |rounds|
    ensures var st' := Serve(st, rounds[..i]).0;
      Serve(st, rounds).1[i] == Next(st', rounds[i].looks, rounds[i].flash).1 && Covered(st', rounds[i])
    decreases |rounds|
  {
    var first, rest := rounds[0], rounds[1..];
    assert rounds == [first] + rest;
    ServeFirst(st, first, rest);
    if i == 0 {
      RoundCovered(st, first);
    } else {
      assert rounds[..i] == [first] + rest[..i - 1];
      ServeFirst(st, first, rest[..i - 1]);
      ManifestFirst(Next(st, first.looks, first.flash).0, rest, i - 1);
    }
  }

  lemma {:induction false} ServeOneMore(st: State, rounds: seq<Round>, round: Round)
    requires Valid(st) && WellFormed(|st.sources|, rounds) && |round.looks| == |st.sources|
    ensures WellFormed(|st.sources|, rounds + [round])
    ensures var before, after := Serve(st, rounds), Serve(st, rounds + [round]);
      var (last, r) := Next(before.0, round.looks, round.flash);
      after.0 == last && after.1 == before.1 + [r]
    decreases |rounds|
  {
    if rounds == [] {
      ServeFirst(st, round, []);
      assert rounds + [round] == [round] + [];
    } else {
      var first, rest := rounds[0], rounds[1..];
      assert rounds == [first] + rest && rounds + [round] == [first] + (rest + [round]);
      var st1 := Next(st, first.looks, first.flash).0;
      ServeOneMore(st1, rest, round);
      ServeFirst(st, first, rest);
      ServeFirst(st, first, rest + [round]);
    }
  }

  lemma LookedNone(st: State, looks: seq<Look>)
    requires Valid(st) && |looks| == |st.sources|
    ensures Looked(st, looks, 0) == st.sources
  {
  }

  lemma LookedSound(st: State, looks: seq<Look>, k: nat)
    requires Valid(st) && |looks| == |st.sources|
    ensures Valid(st.(sources := Looked(st, looks, k)))
  {
  }

  lemma LookedOneMore(st: State, looks: seq<Look>, k: nat)
    requires Valid(st) && |looks| == |st.sources| && k < |st.sources|
    ensures var src := Place(|st.sources|, st.turn, k);
      && Looked(st, looks, k)[src] == st.sources[src]
      && Looked(st, looks, k + 1) == Looked(st, looks, k)[src := Build(st.sources[src], Trend(src), looks[src]).0]
  {
    var src := Place(|st.sources|, st.turn, k);
    assert forall i | 0 <= i < |st.sources| && i != src :: Offset(|st.sources|, st.turn, i) != k;
  }

  const PAUSED_RETRY: int := 60_000_000

  /** What a service call finds before its first round: whether the journal is scanned and restored, whether
      failures have paused it, and when the last of them was. */
  datatype Gate = Gate(open: bool, paused: bool, lastFailure: Option<int>, now: int)

  /** A paused journal tries again once an interval has passed. */
  predicate Admits(gate: Gate) {
    gate.open && (!gate.paused || gate.lastFailure.None? || gate.now - gate.lastFailure.value >= PAUSED_RETRY)
  }

  /** The service loop and the variables it keeps between ticks. */
  class Service {
    const catalog: int
    var sources: seq<Source>
    var turn: nat
    var sequence: nat

    ghost predicate Sound()
      reads this
    {
      Valid(Now())
    }

    ghost function Now(): State
      reads this
    {
      State(sources, turn, sequence, catalog)
    }

    constructor (count: nat, catalog: int, first: nat)
      requires count > 0
      ensures Sound() && Now() == State(seq(count, _ => Source(None, None, None, None)), 0, first, catalog)
    {
      this.catalog := catalog;
      sources := seq(count, _ => Source(None, None, None, None));
      turn := 0;
      sequence := first;
    }

    /** Lets the builder of `src` look once. */
    method Offer(src: nat, look: Look) returns (target: Option<int>)
      requires Sound() && src < |sources|
      modifies this`sources
      ensures sources == old(sources)[src := Build(old(sources)[src], Trend(src), look).0]
      ensures target == Build(old(sources)[src], Trend(src), look).1
    {
      var built := Build(sources[src], Trend(src), look);
      sources := sources[src := built.0];
      target := built.1;
    }

    /** Appends what the builder of `src` offered, behind its manifest when one is due. */
    method AppendFor(src: nat, bucket: int, flash: Flash) returns (r: Result)
      requires Sound() && src < |sources|
      modifies this
      ensures (Now(), r) == Put(old(Now()), src, bucket, flash)
    {
      var due := src < MANIFESTED && Due(sources[src].manifest, catalog, bucket);
      if due && flash.ManifestFails? {
        return Unbuilt;
      }
      var reserved := sequence;
      sequence := sequence + 1;
      if flash.AppendFails? {
        return Refused;
      }
      if due {
        if sources[src].manifest.None? || reserved > sources[src].manifest.value.sequence {
          sources := sources[src := sources[src].(manifest := Some(Manifest(catalog, bucket, reserved)))];
        }
        turn := src;
        return Wrote(Schema(src, bucket));
      }
      sources := sources[src := sources[src].(cursor := Some(bucket))];
      turn := if src + 1 < |sources| then src + 1 else 0;
      return Wrote(Data(src, bucket));
    }

    /** Lets the builder at the next place look. */
    method OfferNext(ghost was: State, looks: seq<Look>, tried: nat) returns (target: Option<int>)
      requires Sound() && Valid(was) && |looks| == |sources| == |was.sources| && tried < |sources| && turn == was.turn
      requires sources == Looked(was, looks, tried)
      modifies this`sources
      ensures sources == Looked(was, looks, tried + 1)
      ensures var src := Place(|was.sources|, was.turn, tried);
        target == Build(was.sources[src], Trend(src), looks[src]).1
    {
      var src := Place(|sources|, turn, tried);
      LookedOneMore(was, looks, tried);
      target := Offer(src, looks[src]);
    }

    /** The inner loop: builders look in turn until one of them offers a record. */
    method Seek(looks: seq<Look>) returns (tried: nat, target: Option<int>)
      requires Sound() && |looks| == |sources|
      modifies this`sources
      ensures |sources| == old(|sources|)
      ensures tried == FirstReady(old(Now()), looks, 0)
      ensures target.Some? == (tried < |sources|)
      ensures sources == Looked(old(Now()), looks, if tried < |sources| then tried + 1 else tried)
      ensures tried < |sources| ==>
        var src := Place(|sources|, turn, tried);
        target == Build(old(sources)[src], Trend(src), looks[src]).1
    {
      ghost var was := Now();
      LookedNone(was, looks);
      tried := 0;
      while tried < |sources|
        invariant tried <= |sources| == |was.sources|
        invariant sources == Looked(was, looks, tried)
        invariant FirstReady(was, looks, 0) == FirstReady(was, looks, tried)
      {
        LookedSound(was, looks, tried);
        target := OfferNext(was, looks, tried);
        if target.Some? {
          return;
        }
        tried := tried + 1;
      }
      target := None;
    }

    /** One pass of the inner loop: the first source from the turn that has something appends it. */
    method Pass(looks: seq<Look>, flash: Flash) returns (r: Result)
      requires Sound() && |looks| == |sources|
      modifies this
      ensures (Now(), r) == Next(old(Now()), looks, flash)
      ensures Sound() && |sources| == old(|sources|)
    {
      ghost var was := Now();
      var tried, target := Seek(looks);
      LookedSound(was, looks, if tried < |sources| then tried + 1 else tried);
      if target.None? {
        return Idle;
      }
      var src := Place(|sources|, turn, tried);
      r := AppendFor(src, target.value, flash);
    }

    /** The service stands where consecutive rounds from `was` bring it. */
    ghost predicate Reached(was: State, rounds: seq<Round>, results: seq<Result>)
      reads this
    {
      && Valid(was) && Sound() && |sources| == |was.sources|
      && |results| <= |rounds| && WellFormed(|was.sources|, rounds[..|results|])
      && (Now(), results) == Serve(was, rounds[..|results|])
    }

    /** The next round. */
    method PassAfter(ghost was: State, rounds: seq<Round>, results: seq<Result>) returns (r: Result)
      requires Reached(was, rounds, results) && |results| < |rounds| && WellFormed(|sources|, rounds)
      modifies this
      ensures Reached(was, rounds, results + [r])
    {
      var k := |results|;
      ServeOneMore(was, rounds[..k], rounds[k]);
      assert rounds[..k] + [rounds[k]] == rounds[..k + 1];
      r := Pass(rounds[k].looks, rounds[k].flash);
    }

    /** One service call: nothing at all while the journal is not open or pauses after failures; otherwise rounds
        until `limit` records are written, nothing is ready, or a manifest cannot be built or an append fails. */
    method ServiceJournal(limit: nat, gate: Gate, rounds: seq<Round>) returns (written: nat, results: seq<Result>)
      requires Sound() && |rounds| == limit && WellFormed(|sources|, rounds)
      modifies this
      ensures !Admits(gate) ==> written == 0 && results == [] && Now() == old(Now())
      ensures Reached(old(Now()), rounds, results)
      ensures written <= |results| && forall i | 0 <= i < written :: results[i].Wrote?
      ensures Admits(gate) ==>
        |results| == written == limit || (|results| == written + 1 && !results[written].Wrote?)
    {
      written, results := 0, [];
      ghost var was := Now();
      if !Admits(gate) {
        return;
      }
      while written < limit
        invariant written <= limit && |results| == written
        invariant Reached(was, rounds, results)
        invariant forall i | 0 <= i < written :: results[i].Wrote?
      {
        var r := PassAfter(was, rounds, results);
        results := results + [r];
        if !r.Wrote? {
          return;
        }
        written := written + 1;
      }
    }
  }
}
