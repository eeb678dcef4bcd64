/** The HomeHub cache as its tasks run it, each with a script of what the others do between its lock sections. */
module HomeHubLink {
  import opened HomeHubSnapshot

  lemma {:induction false} RunOneMore(st: State, events: seq<Event>, e: Event)
    ensures Run(st, events + [e]) == Step(Run(st, events), e)
    decreases |events|
  {
    if events == [] {
      assert [e][1..] == [] && [] + [e] == [e];
      assert Run(st, [e]) == Run(Step(st, e), []);
    } else {
      assert (events + [e])[1..] == events[1..] + [e];
      RunOneMore(Step(st, events[0]), events[1..], e);
    }
  }

  predicate Reads(e: Event) {
    e.Copy? || e.Answer? || e.Recheck? || e.Again?
  }

  predicate NoneReads(script: seq<Event>) {
    forall i | 0 <= i < |script| :: !Reads(script[i])
  }

  /** No step of the script is the poll task's own. */
  predicate NonePolls(script: seq<Event>) {
    forall i | 0 <= i < |script| :: Reads(script[i]) || script[i].Reconfigure? || script[i].Clear?
  }

  class Hub {
    var target: nat
    var link: nat
    var connected: bool
    var observed: bool
    var open: bool
    var cache: seq<Row>
    var cacheLink: nat
    var cacheTarget: nat
    var cacheHeld: bool
    var poll: Poll
    var clearing: nat
    var reader: Reader
    var seen: Seen
    var proven: nat
    ghost var trace: seq<Event>

    ghost function Now(): State
      reads this
    {
      State(target, link, connected, observed, open, cache, cacheLink, cacheTarget, cacheHeld, poll, clearing, reader,
            seen, proven)
    }

    ghost predicate Valid()
      reads this
    {
      Now() == Run(Init(), trace)
    }

    constructor ()
      ensures Valid() && Now() == Init()
    {
      target, link, connected, observed, open := 1, 0, false, false, false;
      cache, cacheLink, cacheTarget, cacheHeld := [], 0, 0, false;
      poll, clearing, reader, seen, proven, trace := Idle, 0, Start, Seen(0, 0, 0), 0, [];
    }

    ghost method Did(before: State, e: Event)
      requires before == Run(Init(), trace) && Now() == Step(before, e)
      modifies this`trace
      ensures Valid() && trace == old(trace) + [e]
    {
      RunOneMore(Init(), trace, e);
      trace := trace + [e];
    }

    method BecomeLink(st: State)
      modifies this`target, this`link, this`connected, this`observed, this`open, this`proven, this`clearing
      ensures target == st.target && link == st.link && connected == st.connected && observed == st.observed
      ensures open == st.open && proven == st.proven && clearing == st.clearing
    {
      target, link, connected, observed := st.target, st.link, st.connected, st.observed;
      open, proven, clearing := st.open, st.proven, st.clearing;
    }

    method BecomeCache(st: State)
      modifies this`cache, this`cacheLink, this`cacheTarget, this`cacheHeld, this`poll, this`reader, this`seen
      ensures cache == st.cache && cacheLink == st.cacheLink && cacheTarget == st.cacheTarget
      ensures cacheHeld == st.cacheHeld
      ensures poll == st.poll && reader == st.reader && seen == st.seen
    {
      cache, cacheLink, cacheTarget, cacheHeld := st.cache, st.cacheLink, st.cacheTarget, st.cacheHeld;
      poll, reader, seen := st.poll, st.reader, st.seen;
    }

    method Other(e: Event)
      requires Valid()
      modifies this
      ensures Valid() && target >= old(target) && (e.Reconfigure? ==> target > old(target))
      ensures !Reads(e) ==> reader == old(reader) && seen == old(seen)
      ensures Reads(e) || e.Reconfigure? || e.Clear? ==> poll == old(poll) && (old(cacheHeld) ==> cacheHeld)
    {
      ghost var before := Now();
      StepFacts(before, e);
      var st := Step(State(target, link, connected, observed, open, cache, cacheLink, cacheTarget, cacheHeld, poll,
                           clearing, reader, seen, proven), e);
      BecomeLink(st);
      BecomeCache(st);
      Did(before, e);
    }

    /** What the others do meanwhile; the target only ever moves on. */
    method Others(script: seq<Event>)
      requires Valid()
      modifies this
      ensures Valid() && target >= old(target) && (Reconfigure in script ==> target > old(target))
      ensures NoneReads(script) ==> reader == old(reader) && seen == old(seen)
      ensures NonePolls(script) ==> poll == old(poll)
      ensures NonePolls(script) && old(cacheHeld) ==> cacheHeld
    {
      for i := 0 to |script|
        invariant Valid() && target >= old(target) && (Reconfigure in script[..i] ==> target > old(target))
        invariant NoneReads(script) ==> reader == old(reader) && seen == old(seen)
        invariant NonePolls(script) ==> poll == old(poll)
        invariant NonePolls(script) && old(cacheHeld) ==> cacheHeld
      {
        Other(script[i]);
        assert script[..i + 1] == script[..i] + [script[i]];
      }
    }

    /** The copy, under the cache's mutex. */
    method CopyCache(max: nat) returns (rows: seq<Row>)
      requires Valid() && reader.Start? && !cacheHeld
      modifies this`reader, this`trace
      ensures Valid() && rows == (if |cache| < max then cache else cache[..max])
      ensures reader == Copied(rows, cacheLink, cacheTarget)
    {
      ghost var st := Now();
      rows := if |cache| < max then cache else cache[..max];
      reader := Copied(rows, cacheLink, cacheTarget);
      Did(st, Copy(max));
    }

    /** The check of link and generations, under the status mutex. */
    method CheckLink(young: bool) returns (live: bool)
      requires Valid() && reader.Copied?
      modifies this`reader, this`seen, this`trace
      ensures Valid() && reader == Checked(old(reader).rows, old(reader).target, live)
      ensures live ==> old(reader).target == target && Marked(old(reader).rows, link, target)
      ensures seen == Seen(link, target, proven)
    {
      ghost var st := Now();
      live := connected && observed && link != 0 && target != 0 && reader.link == link && reader.target == target &&
        young;
      seen := Seen(link, target, proven);
      ReaderIsMarked(trace);
      reader := Checked(reader.rows, reader.target, live);
      Did(st, Answer(young));
    }

    /** The second look at the target. */
    method CheckAgain() returns (live: bool)
      requires Valid() && reader.Checked?
      modifies this`reader, this`trace
      ensures Valid() && reader == Done(old(reader).rows, live)
      ensures live <==> old(reader).live && old(reader).target == target
    {
      ghost var st := Now();
      live := reader.live && reader.target == target;
      reader := Done(reader.rows, live);
      Did(st, Recheck);
    }

    /** `mb_values_snapshot`: rows that it calls live were read over the session and for the target that were
        current at its check, and the target did not change between its copy and its return. */
    method ValuesSnapshot(max: nat, young: bool, gap1: seq<Event>, gap2: seq<Event>)
      returns (rows: seq<Row>, live: bool)
      requires Valid() && reader.Start? && !cacheHeld && NoneReads(gap1) && NoneReads(gap2)
      modifies this
      ensures Valid() && rows == (if |old(cache)| < max then old(cache) else old(cache)[..max])
      ensures live ==> Marked(rows, seen.link, target) && seen.target == target
      ensures live ==> Reconfigure !in gap1 && Reconfigure !in gap2
    {
      CacheIsOld(trace);
      rows := CopyCache(max);
      ghost var copied := target;
      assert reader.target <= copied;
      Others(gap1);
      live := CheckLink(young);
      Others(gap2);
      live := CheckAgain();
    }

    /** The end of a full poll: check and store under the cache's mutex, then the link state. */
    method CommitPoll(gap1: seq<Event>, gap2: seq<Event>)
      requires Valid() && poll.Reading? && !cacheHeld && NonePolls(gap1) && NonePolls(gap2)
      modifies this
      ensures Valid() && poll.Idle?
      ensures connected == observed == (open && link == old(poll).link && target == old(poll).target)
    {
      ghost var st := Now();
      var p := poll;
      poll := Storing(p.target, p.link, p.taken, target == p.target);
      cacheHeld := true;
      Did(st, Check);
      var storing := poll;
      Others(gap1);
      StoreRows(storing);
      Others(gap2);
      Conclude(p.target, p.link);
    }

    method SetCache(rows: seq<Row>, rowsLink: nat, rowsTarget: nat)
      modifies this`cache, this`cacheLink, this`cacheTarget
      ensures cache == rows && cacheLink == rowsLink && cacheTarget == rowsTarget
    {
      cache, cacheLink, cacheTarget := rows, rowsLink, rowsTarget;
    }

    /** The store of a poll's rows, or of none when its target is gone. */
    method StoreRows(p: Poll)
      requires Valid() && poll == p && p.Storing?
      modifies this`cache, this`cacheLink, this`cacheTarget, this`cacheHeld, this`poll, this`trace
      ensures Valid() && poll == Stored(p.target, p.link) && !cacheHeld
      ensures if p.current then cache == p.taken && cacheLink == p.link && cacheTarget == p.target else cache == []
    {
      ghost var st := Now();
      if p.current {
        SetCache(p.taken, p.link, p.target);
      } else {
        SetCache([], 0, 0);
      }
      cacheHeld := false;
      poll := Stored(p.target, p.link);
      StoreIs(st);
      Did(st, Store);
    }

    /** The link state a poll ends with. */
    method Conclude(cycleTarget: nat, cycleLink: nat)
      requires Valid() && poll == Stored(cycleTarget, cycleLink)
      modifies this`connected, this`observed, this`poll, this`proven, this`trace
      ensures Valid() && poll.Idle?
      ensures connected == observed == (open && link == cycleLink && target == cycleTarget)
    {
      ghost var st := Now();
      var current := open && link == cycleLink && target == cycleTarget;
      connected, observed, poll := current, current, Idle;
      if current {
        proven := cycleLink;
      }
      FinishIs(st);
      Did(st, Finish);
    }
  }

  lemma StoreIs(st: State)
    requires st.poll.Storing?
    ensures var p := st.poll;
      Step(st, Store) == st.(cache := if p.current then p.taken else [], cacheLink := if p.current then p.link else 0,
                             cacheTarget := if p.current then p.target else 0, cacheHeld := false,
                             poll := Stored(p.target, p.link))
  {
  }

  lemma FinishIs(st: State)
    requires st.poll.Stored?
    ensures Step(st, Finish) == Concluded(st, st.poll.target, st.poll.link)
  {
  }

  lemma StepFacts(st: State, e: Event)
    ensures var st' := Step(st, e);
      && st'.target >= st.target && (e.Reconfigure? ==> st'.target > st.target)
      && (!Reads(e) ==> st'.reader == st.reader && st'.seen == st.seen)
      && (Reads(e) || e.Reconfigure? || e.Clear? ==> st'.poll == st.poll && (st.cacheHeld ==> st'.cacheHeld))
  {
    if Reads(e) {
      assert Step(st, e) == Snapshot(st, e);
    } else if !e.Reconfigure? && !e.Clear? {
      assert Step(st, e) == PollTask(st, e);
    }
  }

  lemma CacheIsOld(trace: seq<Event>)
    ensures Run(Init(), trace).cacheTarget <= Run(Init(), trace).target
  {
    RunKeeps(Init(), trace);
  }

  lemma ReaderIsMarked(trace: seq<Event>)
    ensures var r := Run(Init(), trace).reader; r.Copied? ==> Marked(r.rows, r.link, r.target)
  {
    RunKeeps(Init(), trace);
  }
}
