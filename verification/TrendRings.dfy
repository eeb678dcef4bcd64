/** The trend rings in memory, and the raster that advances all of them together. */
module TrendRings {
  import opened Options
  import opened Raster

  function Index(head: nat, age: nat): (i: nat)
    requires head < WIDTH && age < WIDTH
    ensures i < WIDTH
  {
    if age < head then head - 1 - age else head + WIDTH - 1 - age
  }

  /** The newest `count` samples of a ring, newest first. */
  function Held(buf: seq<Sample>, head: nat, count: nat): (held: seq<Sample>)
    requires |buf| == WIDTH && head < WIDTH && count <= WIDTH
    ensures |held| == count && forall k | 0 <= k < count :: held[k] == buf[Index(head, k)]
  {
    seq(count, k requires 0 <= k < count => buf[Index(head, k)])
  }

  lemma PushHeld(buf: seq<Sample>, head: nat, count: nat, s: Sample)
    requires |buf| == WIDTH && head < WIDTH && count <= WIDTH
    ensures var next := if head + 1 < WIDTH then head + 1 else 0;
      Held(buf[head := s], next, if count < WIDTH then count + 1 else WIDTH) == Fitted([s] + Held(buf, head, count))
  {
    var next := if head + 1 < WIDTH then head + 1 else 0;
    var n := if count < WIDTH then count + 1 else WIDTH;
    forall k | 0 <= k < n
      ensures Held(buf[head := s], next, n)[k] == Fitted([s] + Held(buf, head, count))[k]
    {
      if k > 0 {
        assert Index(next, k) == Index(head, k - 1) != head;
      }
    }
  }

  lemma FitTwice(a: seq<Sample>, b: seq<Sample>)
    ensures Fitted(a + Fitted(b)) == Fitted(a + b)
  {
  }

  lemma GapsMore(n: nat, rest: seq<Sample>)
    ensures Fitted([NoReading] + Fitted(Gaps(n) + rest)) == Fitted(Gaps(n + 1) + rest)
  {
    FitTwice([NoReading], Gaps(n) + rest);
    assert [NoReading] + (Gaps(n) + rest) == Gaps(n + 1) + rest;
  }

  lemma FitCommitted(gaps: nat, pending: Sample, held: seq<Sample>)
    ensures Fitted(Gaps(gaps) + Fitted([pending] + held)) == Fitted(Gaps(gaps) + [pending] + held)
  {
    FitTwice(Gaps(gaps), [pending] + held);
    assert Gaps(gaps) + ([pending] + held) == Gaps(gaps) + [pending] + held;
  }

  class TrendRing {
    const buf: array<Sample>
    var count: nat
    var head: nat
    var pending: Sample

    ghost predicate Valid()
      reads this
    {
      buf.Length == WIDTH && head < WIDTH && count <= WIDTH
    }

    ghost function View(): Ring
      reads this, buf
      requires Valid()
    {
      Ring(Held(buf[..], head, count), pending)
    }

    constructor ()
      ensures Valid() && View() == Ring([], NoReading) && fresh(buf)
    {
      buf := new Sample[WIDTH](_ => NoReading);
      count, head, pending := 0, 0, NoReading;
    }

    method Push(s: Sample)
      requires Valid()
      modifies this`count, this`head, buf
      ensures Valid() && View().held == Fitted([s] + old(View().held))
    {
      ghost var was, first, held := buf[..], head, count;
      PushHeld(was, first, held, s);
      buf[head] := s;
      head := (head + 1) % 288;
      if count < WIDTH {
        count := count + 1;
      }
      assert buf[..] == was[first := s] && head == if first + 1 < WIDTH then first + 1 else 0;
    }

    method PushGaps(n: nat)
      requires Valid()
      modifies this`count, this`head, buf
      ensures Valid() && View().held == Fitted(Gaps(n) + old(View().held))
    {
      ghost var was := View().held;
      assert Gaps(0) + was == was;
      var k := 0;
      while k < n
        invariant 0 <= k <= n && Valid()
        invariant View().held == Fitted(Gaps(k) + was)
      {
        Push(NoReading);
        GapsMore(k, was);
        k := k + 1;
      }
    }

    /** Starts over, with the completed part of the day as gaps. */
    method ResetWithGaps(completed: nat)
      requires Valid()
      modifies this, buf
      ensures Valid() && View() == Gapped(completed)
    {
      count, head, pending := 0, 0, NoReading;
      assert View().held == [];
      var n := if completed < WIDTH then completed else WIDTH;
      PushGaps(n);
      assert Gaps(n) + [] == Gaps(n);
    }

    /** Closes the open bucket, and one gap for each bucket nobody visited. */
    method Commit(skipped: nat)
      requires Valid()
      modifies this, buf
      ensures Valid() && View() == Committed(old(View()), skipped)
    {
      ghost var was := View();
      Push(pending);
      var gaps := if skipped < WIDTH then skipped else WIDTH;
      PushGaps(gaps);
      FitCommitted(gaps, was.pending, was.held);
      pending := NoReading;
    }

    /** Folds a sample into the open bucket; `event` keeps an observed ON. */
    method FoldSample(event: bool, s: Sample)
      requires Valid()
      modifies this`pending
      ensures Valid() && View() == old(View()).(pending := Fold(event, old(pending), s))
    {
      if event && pending == ON {
        return;
      }
      if s.Reading? || !pending.Reading? {
        pending := s;
      }
    }

    /** The committed sample of a given age, if the ring reaches back that far. */
    method SampleFromNewest(age: nat) returns (s: Option<Sample>)
      requires Valid()
      ensures s == if age < |View().held| then Some(View().held[age]) else None
    {
      if age >= count {
        return None;
      }
      var newest := (head + 288 - 1) % 288;
      var i := (newest + 288 - age) % 288;
      assert i == Index(head, age);
      return Some(buf[i]);
    }
  }

  /** All rings of the raster, advanced together under one lock. */
  class SharedRaster {
    const rings: seq<TrendRing>
    const events: seq<bool>
    var haveBucket: bool
    var bucket: nat
    var last: int
    ghost var log: seq<map<int, seq<Sample>>>
    ghost var short: seq<bool>

    ghost function Buffers(): set<object> {
      set i | 0 <= i < |rings| :: rings[i].buf
    }

    ghost predicate Valid()
      reads this, rings
    {
      && |events| == |log| == |short| == |rings|
      && (forall i | 0 <= i < |rings| :: rings[i].Valid())
      && (forall i, j | 0 <= i < j < |rings| :: rings[i] != rings[j] && rings[i].buf != rings[j].buf)
    }

    ghost function Views(): (views: seq<Ring>)
      reads this, rings, Buffers()
      requires Valid()
      ensures |views| == |rings| && forall i | 0 <= i < |rings| :: views[i] == rings[i].View()
    {
      seq(|rings|, i requires 0 <= i < |rings| && Valid() reads this, rings, Buffers() => rings[i].View())
    }

    ghost function Now(): State
      reads this, rings, Buffers()
      requires Valid()
    {
      State(Views(), events, if haveBucket then Some(bucket) else None, last, log, short)
    }

    constructor (events: seq<bool>)
      ensures Valid() && Now() == Init(events)
      ensures fresh(rings) && fresh(Buffers())
    {
      var made: seq<TrendRing> := [];
      while |made| < |events|
        invariant |made| <= |events|
        invariant forall i | 0 <= i < |made| ::
          fresh(made[i]) && fresh(made[i].buf) && made[i].Valid() && made[i].View() == Ring([], NoReading)
        invariant forall i, j | 0 <= i < j < |made| :: made[i] != made[j] && made[i].buf != made[j].buf
      {
        var ring := new TrendRing();
        made := made + [ring];
      }
      rings := made;
      this.events := events;
      haveBucket, bucket, last := false, 0, -1;
      log, short := seq(|events|, _ => map[]), seq(|events|, _ => false);
    }

    method CommitAll(skipped: nat)
      requires Valid()
      modifies rings, Buffers()
      ensures Valid()
      ensures forall i | 0 <= i < |rings| :: rings[i].View() == Committed(old(rings[i].View()), skipped)
    {
      var i := 0;
      while i < |rings|
        invariant 0 <= i <= |rings| && Valid()
        invariant forall j | 0 <= j < i :: rings[j].View() == Committed(old(rings[j].View()), skipped)
        invariant forall j | i <= j < |rings| :: rings[j].View() == old(rings[j].View())
      {
        rings[i].Commit(skipped);
        i := i + 1;
      }
    }

    method ResetAll(completed: nat)
      requires Valid()
      modifies rings, Buffers()
      ensures Valid()
      ensures forall i | 0 <= i < |rings| :: rings[i].View() == Gapped(completed)
    {
      var i := 0;
      while i < |rings|
        invariant 0 <= i <= |rings| && Valid()
        invariant forall j | 0 <= j < i :: rings[j].View() == Gapped(completed)
      {
        rings[i].ResetWithGaps(completed);
        i := i + 1;
      }
    }

    /** Moves the raster to `to`, unless another task has moved it there or further. */
    method Advance(to: nat)
      requires Valid()
      modifies this, rings, Buffers()
      ensures Valid() && Now() == Advanced(old(Now()), to)
    {
      if !haveBucket {
        Open(to);
      } else if to > bucket {
        MoveTo(to);
      }
    }

    /** The first advance of a boot. */
    method Open(to: nat)
      requires Valid() && !haveBucket
      modifies this, rings, Buffers()
      ensures Valid() && Now() == Advanced(old(Now()), to)
    {
      ghost var was := Now();
      ResetAll(to);
      log, short := seq(|rings|, _ => map[]), seq(|rings|, _ => false);
      if to > 0 {
        last := to - 1;
      }
      bucket, haveBucket := to, true;
      assert Views() == Advanced(was, to).rings;
    }

    /** A later one, to a bucket ahead. */
    method MoveTo(to: nat)
      requires Valid() && haveBucket && to > bucket
      modifies this`bucket, this`last, rings, Buffers()
      ensures Valid() && Now() == Advanced(old(Now()), to)
    {
      ghost var was := Now();
      CommitAll(to - bucket - 1);
      last := to - 1;
      bucket := to;
      assert Views() == Advanced(was, to).rings;
    }

    method TouchAll(v: Raster.Visit)
      requires Valid() && Sized(|rings|, v)
      modifies rings, Buffers()
      ensures Valid()
      ensures forall i | 0 <= i < |rings| ::
        rings[i].View() == Touched(old(rings[i].View()), events[i], v.bucket, v.resets[i], v.folds[i])
    {
      var i := 0;
      while i < |rings|
        invariant 0 <= i <= |rings| && Valid()
        invariant forall j | 0 <= j < i ::
          rings[j].View() == Touched(old(rings[j].View()), events[j], v.bucket, v.resets[j], v.folds[j])
        invariant forall j | i <= j < |rings| :: rings[j].View() == old(rings[j].View())
      {
        if v.resets[i] {
          rings[i].ResetWithGaps(v.bucket);
        }
        if v.folds[i].Some? {
          rings[i].FoldSample(events[i], v.folds[i].value);
        }
        i := i + 1;
      }
    }

    /** One producer's critical section. */
    method Visit(v: Raster.Visit)
      requires Valid() && Sized(|rings|, v)
      modifies this, rings, Buffers()
      ensures Valid() && Now() == Visited(old(Now()), v)
    {
      Advance(v.bucket);
      TouchAll(v);
      ghost var open := bucket;
      ghost var before, shortBefore := log, short;
      log := seq(|rings|, i requires 0 <= i < |rings| => Logged(before[i], open, v.resets[i], v.folds[i]));
      short := seq(|rings|, i requires 0 <= i < |rings| => if v.resets[i] then v.bucket < open else shortBefore[i]);
    }
  }
}
