/**
 * The register probe as its two sides run it: one atomic operation at a time on the shared variables, with
 * what the other side does in between handed in as a script.
 */
module ProbeDevice {
  import opened Options
  import opened Probe

  lemma {:induction false} RunOneMore(st: State, events: seq<Event>, e: Event)
    ensures Run(st, events + [e]) == Step(Run(st, events), e)
    ensures AllDistinct(st, events + [e]) ==> AllDistinct(st, events)
    decreases |events|
  {
    if events == [] {
      assert [e][1..] == [] && [] + [e] == [e];
      assert Run(st, [e]) == Run(Step(st, e), []);
    } else {
      assert (events + [e])[1..] == events[1..] + [e];
      RunOneMore(Step(st, events[0]), events[1..], e);
    }
  }

  predicate AllSubmits(script: seq<Event>) {
    forall i | 0 <= i < |script| :: Submits(script[i])
  }

  predicate NoneSubmits(script: seq<Event>) {
    forall i | 0 <= i < |script| :: !Submits(script[i])
  }

  /** How a probe ends: an answer is named by the requests its two halves belong to. */
  datatype Reply = NoLink | Busy | TimedOut | Answer(first: Req, second: Req)

  class Channel {
    var submitter: Submitter
    var server: Server
    var pending: Option<Req>
    var counter: nat
    var done: bool
    var stamp: Req
    var first: Req
    var second: Req
    ghost var trace: seq<Event>

    ghost function Now(): State
      reads this
    {
      State(submitter, server, pending, counter, done, stamp, first, second)
    }

    ghost predicate Valid()
      reads this
    {
      Now() == Run(Init(), trace)
    }

    constructor ()
      ensures Valid() && Now() == Init()
    {
      var none := Req(0, 0);
      submitter, server, pending, counter, done := Out, Idle, None, 0, false;
      stamp, first, second, trace := none, none, none, [];
    }

    /** Records that one operation has been done. */
    ghost method Did(before: State, e: Event)
      requires before == Run(Init(), trace) && Now() == Step(before, e)
      modifies this`trace
      ensures Valid() && trace == old(trace) + [e]
    {
      RunOneMore(Init(), trace, e);
      trace := trace + [e];
    }

    /** One operation of the other side. */
    method Other(e: Event)
      requires Valid()
      modifies this
      ensures Valid() && Now() == Step(old(Now()), e) && trace == old(trace) + [e]
    {
      ghost var before := Now();
      var st := Step(State(submitter, server, pending, counter, done, stamp, first, second), e);
      submitter, server, pending, counter := st.submitter, st.server, st.pending, st.counter;
      done, stamp, first, second := st.done, st.stamp, st.first, st.second;
      Did(before, e);
    }

    method Others(script: seq<Event>)
      requires Valid()
      modifies this
      ensures Valid()
      ensures NoneSubmits(script) ==> submitter == old(submitter)
      ensures AllSubmits(script) ==>
        server == old(server) && stamp == old(stamp) && first == old(first) && second == old(second)
    {
      for i := 0 to |script|
        invariant Valid()
        invariant NoneSubmits(script) ==> submitter == old(submitter)
        invariant AllSubmits(script) ==>
          server == old(server) && stamp == old(stamp) && first == old(first) && second == old(second)
      {
        Other(script[i]);
      }
    }

    /** Drains a completion left behind. */
    method DrainDone()
      requires Valid() && submitter.Inside?
      modifies this`done, this`submitter, this`trace
      ensures Valid() && submitter == Drained
    {
      ghost var st := Now();
      done := false;
      submitter := Drained;
      Did(st, Drain);
    }

    /** Draws the next ticket that is not zero. */
    method DrawTicket(reg: nat) returns (mine: Req)
      requires Valid() && submitter.Drained?
      modifies this`counter, this`submitter, this`trace
      ensures Valid() && submitter == Drawn(mine) && mine.reg == reg
    {
      ghost var st := Now();
      var raw := counter + 1;
      if raw % SPACE == 0 {
        raw := raw + 1;
      }
      counter := raw;
      mine := Req(raw, reg);
      submitter := Drawn(mine);
      Did(st, Draw(reg));
    }

    /** Arms a request, behind the gate. */
    method Arm(reg: nat, gap1: seq<Event>, gap2: seq<Event>, gap3: seq<Event>) returns (mine: Req)
      requires Valid() && submitter.Inside? && NoneSubmits(gap1) && NoneSubmits(gap2) && NoneSubmits(gap3)
      modifies this
      ensures Valid() && submitter == Waiting(mine) && mine.reg == reg
    {
      Others(gap1);
      DrainDone();
      Others(gap2);
      mine := DrawTicket(reg);
      Others(gap3);
      ghost var st := Now();
      pending := Some(mine);
      submitter := Waiting(mine);
      Did(st, Event.Arm);
    }

    /** Waits for the answer to `mine`: takes completions until the stamp is its own or time is up. */
    method Await(mine: Req, waits: seq<seq<Event>>) returns (matched: bool)
      requires Valid() && submitter == Waiting(mine)
      requires forall i | 0 <= i < |waits| :: NoneSubmits(waits[i])
      modifies this
      ensures Valid() && submitter == if matched then Copying(mine, None) else Withdrawn(mine)
    {
      ghost var st;
      for i := 0 to |waits|
        invariant Valid() && submitter == Waiting(mine)
      {
        Others(waits[i]);
        if done {
          st := Now();
          done := false;
          submitter := Woken(mine);
          Did(st, Wake);
          st := Now();
          if stamp.raw % SPACE == mine.raw % SPACE {
            submitter := Copying(mine, None);
            Did(st, Check);
            return true;
          }
          submitter := Waiting(mine);
          Did(st, Check);
        }
      }
      st := Now();
      if pending.Some? && Same(pending.value, mine) {
        pending := None;
      }
      submitter := Withdrawn(mine);
      Did(st, GiveUp);
      return false;
    }

    /** Copies the reply, one half after the other. */
    method Copy(mine: Req, gap: seq<Event>) returns (a: Req, b: Req)
      requires Valid() && submitter == Copying(mine, None) && NoneSubmits(gap)
      modifies this
      ensures Valid() && submitter == Accepted(mine, a, b)
      ensures AllDistinct(Init(), trace) ==> a == mine && b == mine
    {
      ghost var st := Now();
      a := first;
      submitter := Copying(mine, Some(a));
      Did(st, CopyFirst);
      Others(gap);
      st := Now();
      b := second;
      submitter := Accepted(mine, a, b);
      Did(st, CopySecond);
      if AllDistinct(Init(), trace) {
        AcceptedIsOwn(trace);
      }
    }

    /** What an admitted submitter does: a reply it accepts answers the register it asked for, and
        the request it drew, as long as no ticket in play was drawn twice. */
    method Ask(reg: nat, gaps: seq<seq<Event>>, waits: seq<seq<Event>>) returns (answer: Option<(Req, Req)>)
      requires Valid() && submitter.Inside? && |gaps| == 4
      requires (forall i | 0 <= i < |gaps| :: NoneSubmits(gaps[i])) &&
        (forall i | 0 <= i < |waits| :: NoneSubmits(waits[i]))
      modifies this
      ensures Valid() && (submitter.Accepted? || submitter.Withdrawn?) && submitter.mine.reg == reg
      ensures answer.Some? && AllDistinct(Init(), trace) ==>
        answer.value.0 == answer.value.1 == submitter.mine
    {
      var mine := Arm(reg, gaps[0], gaps[1], gaps[2]);
      var matched := Await(mine, waits);
      if !matched {
        return None;
      }
      var a, b := Copy(mine, gaps[3]);
      return Some((a, b));
    }

    method EnterGate()
      requires Valid() && submitter.Out?
      modifies this`submitter, this`trace
      ensures Valid() && submitter == Inside
    {
      ghost var st := Now();
      submitter := Inside;
      Did(st, Enter);
    }

    method LeaveGate()
      requires Valid() && (submitter.Inside? || submitter.Accepted? || submitter.Withdrawn?)
      modifies this`submitter, this`trace
      ensures Valid() && submitter == Out
      ensures AllDistinct(Init(), trace) ==> AllDistinct(Init(), old(trace))
    {
      ghost var st := Now();
      RunOneMore(Init(), trace, Leave);
      submitter := Out;
      Did(st, Leave);
    }

    /** `hp_probe_run`: refused at once when there is no channel, when another submitter is behind the gate, or
        when nothing would ever serve it; otherwise an answer to its own request, or a timeout. */
    method ProbeRun(reg: nat, created: bool, running: bool, gaps: seq<seq<Event>>, waits: seq<seq<Event>>)
      returns (reply: Reply, ghost mine: Req)
      requires Valid() && |gaps| == 5
      requires forall i | 0 <= i < |gaps| :: NoneSubmits(gaps[i])
      requires forall i | 0 <= i < |waits| :: NoneSubmits(waits[i])
      modifies this
      ensures Valid()
      ensures !created || old(submitter) != Out ==> Now() == old(Now())
      ensures created && old(submitter) == Out ==> submitter == Out
      ensures reply.NoLink? <==> !created || (old(submitter) == Out && !running)
      ensures reply.Busy? <==> created && old(submitter) != Out
      ensures reply.Answer? && AllDistinct(Init(), trace) ==> reply.first == reply.second == mine && mine.reg == reg
    {
      mine := Req(0, 0);
      if !created {
        return NoLink, mine;
      }
      if submitter != Out {
        return Busy, mine;
      }
      EnterGate();
      Others(gaps[0]);
      if !running {
        LeaveGate();
        return NoLink, mine;
      }
      var answer := Ask(reg, gaps[1..], waits);
      mine := submitter.mine;
      LeaveGate();
      reply := if answer.None? then TimedOut else Answer(answer.value.0, answer.value.1);
    }

    /** Copies the answer into the reply. */
    method WriteReply(req: Req, gap: seq<Event>)
      requires Valid() && server.Serving? && server.req == req && AllSubmits(gap)
      modifies this
      ensures Valid() && server == Written(req) && first == second == req
    {
      ghost var st := Now();
      first := req;
      server := Half(req);
      Did(st, WriteFirst);
      Others(gap);
      st := Now();
      second := req;
      server := Written(req);
      Did(st, WriteSecond);
    }

    /** Says whose answer it is. */
    method StampReply(req: Req)
      requires Valid() && server == Written(req)
      modifies this`stamp, this`server, this`trace
      ensures Valid() && server == Stamped(req) && stamp == req
    {
      ghost var st := Now();
      stamp := req;
      server := Stamped(req);
      Did(st, Stamp);
    }

    /** Withdraws the request that was answered, if it is still the pending one. */
    method WithdrawServed(req: Req)
      requires Valid() && server == Stamped(req)
      modifies this`pending, this`server, this`trace
      ensures Valid() && server == Cleared(req)
      ensures pending == if old(pending).Some? && Same(old(pending).value, req) then None else old(pending)
    {
      ghost var st := Now();
      if pending.Some? && Same(pending.value, req) {
        pending := None;
      }
      server := Cleared(req);
      Did(st, Clear);
    }

    /** Publishes an answer: the reply, then its stamp, then the withdrawal of that one request, then the
        completion. */
    method Publish(req: Req, gap1: seq<Event>, gap2: seq<Event>, gap3: seq<Event>, gap4: seq<Event>)
      requires Valid() && server.Serving? && server.req == req
      requires AllSubmits(gap1) && AllSubmits(gap2) && AllSubmits(gap3) && AllSubmits(gap4)
      modifies this
      ensures Valid() && server.Idle? && done && stamp == first == second == req
    {
      WriteReply(req, gap1);
      Others(gap2);
      StampReply(req);
      Others(gap3);
      WithdrawServed(req);
      Others(gap4);
      ghost var st := Now();
      done := true;
      server := Idle;
      Did(st, Give);
    }

    /** After a throw: serves whatever request is pending now, as a failure. */
    method CatchThrow(gap: seq<Event>) returns (again: Option<Req>)
      requires Valid() && server.Serving? && !server.caught && AllSubmits(gap)
      modifies this
      ensures Valid() && server == if again.Some? then Serving(again.value, true) else Idle
    {
      ghost var st := Now();
      server := Thrown;
      Did(st, Throw);
      Others(gap);
      st := Now();
      again := pending;
      server := if again.Some? then Serving(again.value, true) else Idle;
      Did(st, Catch);
    }

    /** `poll_probe_service` and its catch: serves the pending request, or, if that throws, whatever request
        is pending then. */
    method Serve(throws: bool, gaps: seq<seq<Event>>) returns (served: Option<Req>)
      requires Valid() && server.Idle? && |gaps| == 6 && forall i | 0 <= i < |gaps| :: AllSubmits(gaps[i])
      modifies this
      ensures Valid() && server.Idle?
      ensures served.Some? ==> done && stamp == first == second == served.value
      ensures old(pending).None? ==> served.None?
      ensures !throws ==> served == old(pending)
    {
      if pending.None? {
        return None;
      }
      ghost var st := Now();
      served := pending;
      server := Serving(served.value, false);
      Did(st, Load);
      Others(gaps[0]);
      if throws {
        served := CatchThrow(gaps[1]);
      }
      if served.Some? {
        Publish(served.value, gaps[2], gaps[3], gaps[4], gaps[5]);
      }
    }
  }
}
