/** What holds over every run of a session shared by concurrent tool calls (crates/harness/src/mcp.rs, `Session`). */
module McpSafety {
  import opened McpSession
  import opened SessionInvariant
  import opened Words
  import ToolsList

  // ----- Safety over every run -----

  lemma StartsWell()
    ensures Inv(START)
  {
  }

  /** Every list or call request carries the session id and version of one single handshake, which
      the server granted together and whose `initialized` notification succeeded. */
  lemma RequestsCarryOneHandshake(events: seq<Event>, i: nat)
    requires i < |Run(START, events).log| && !Run(START, events).log[i].kind.Initialize?
    ensures var s := Run(START, events);
            exists k :: 0 <= k < |s.stored| && s.log[i].state == s.stored[k].state
                        && s.stored[k].hs in s.granted && s.granted[s.stored[k].hs] == s.log[i].state
                        && s.stored[k].hs in s.acked && Granted(s.log[i].state)
  {
    RunKeepsInv(START, events);
    var s := Run(START, events);
    assert FromHandshake(s, s.log[i].state, s.log[i].gen);
    var h := s.stored[s.log[i].gen - 1];
    assert h.hs in s.granted && s.granted[h.hs] == h.state;
  }

  /** An `initialize` never carries a session. */
  lemma InitializeCarriesNoSession(events: seq<Event>, i: nat)
    requires i < |Run(START, events).log| && Run(START, events).log[i].kind.Initialize?
    ensures Run(START, events).log[i].state == NO_SESSION
  {
    RunKeepsInv(START, events);
  }

  /** No two requests ever take the same ticket, and their ids on the wire differ for as long as
      the 64-bit counter has not gone round. */
  lemma IdsAreNeverReused(events: seq<Event>, i: nat, j: nat)
    requires i < j < |Run(START, events).log|
    ensures var s := Run(START, events);
            && s.log[i].ticket != s.log[j].ticket
            && (s.tickets <= U64_RANGE ==> WireId(s.log[i].ticket) != WireId(s.log[j].ticket))
  {
    RunKeepsInv(START, events);
    var s := Run(START, events);
    var (a, b) := (s.log[i].ticket, s.log[j].ticket);
    assert 1 <= a <= s.tickets && 1 <= b <= s.tickets && a != b;
    if s.tickets <= U64_RANGE {
      WireIdsDifferExactly(s.tickets);
    }
  }

  /** How many ids the counter hands out before one comes round again. */
  lemma WireIdsDifferExactly(tickets: nat)
    ensures (forall a, b | 1 <= a < b <= tickets :: WireId(a) != WireId(b)) <==> tickets <= U64_RANGE
  {
    assert WireId(1) == WireId(1 + U64_RANGE);
  }

  /** One `tools/call` posts at most two call requests and one `initialize`; the connect sequence
      posts one `initialize` and at most 64 list requests. */
  lemma RequestsPerFuture(events: seq<Event>, t: nat)
    requires t in Run(START, events).tasks
    ensures var s := Run(START, events);
            && Count(s.log, t, Initialize) <= 1
            && Count(s.log, t, CallTool) <= (if s.tasks[t].role.Calling? then 2 else 0)
            && Count(s.log, t, ListTools) <= (if s.tasks[t].role.Connecting? then ToolsList.MAX_PAGES else 0)
            && (Count(s.log, t, CallTool) == 2 ==> s.tasks[t].retried)
            && (s.tasks[t].role.Calling? && !s.tasks[t].retried ==> Count(s.log, t, Initialize) == 0)
  {
    RunKeepsInv(START, events);
    assert TaskGood(Run(START, events), t, Run(START, events).tasks[t]);
  }

  /** The retry of a call never goes out under the handshake its first request was refused under:
      it carries one that was stored later. */
  lemma RetryCarriesANewerHandshake(events: seq<Event>)
    ensures CallsGetNewer(Run(START, events).log)
  {
    RunKeepsInv(START, events);
  }

  /** A call handshakes again only when it has posted a request that carried a session id. */
  lemma RetryNeedsAHeldSession(events: seq<Event>, t: nat)
    ensures var s := Run(START, events);
            t in s.tasks && s.tasks[t].retried ==>
              exists i :: 0 <= i < |s.log| && s.log[i].task == t && s.log[i].kind.CallTool?
                          && s.log[i].state.session.Some?
  {
    var s := Run(START, events);
    RunKeepsInv(START, events);
    if t in s.tasks && s.tasks[t].retried {
      assert TaskGood(s, t, s.tasks[t]);
      var i :| 0 <= i < |s.log| && s.log[i].task == t && s.log[i].kind.CallTool? && s.log[i].gen == s.tasks[t].firstGen;
      assert FromHandshake(s, s.log[i].state, s.log[i].gen);
    }
  }

  /** Whatever a future does, the shared state changes only when it stores an acknowledged grant. */
  lemma OnlyStoringReplacesTheState(s: System, e: Event)
    requires Inv(s) && Next(s, e).shared != s.shared
    ensures e.Advance? && e.task in s.tasks && s.tasks[e.task].pc.Storing?
    ensures Next(s, e).shared == s.tasks[e.task].pc.pending
    ensures s.tasks[e.task].pc.hs in s.acked && s.granted[s.tasks[e.task].pc.hs] == Next(s, e).shared
  {
    assert e.Advance? && e.task in s.tasks ==> TaskGood(s, e.task, s.tasks[e.task]);
  }
}
