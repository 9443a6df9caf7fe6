/** Where the headers of a request come from: the answers the server gave earlier in the run
    (crates/harness/src/mcp.rs, `Session::handshake`). */
module McpHandshake {
  import McpRecovery
  import McpSafety
  import opened McpSession
  import opened Outcomes
  import opened SessionInvariant

  // ----- Which answers are accepted -----

  predicate KnownVersion(version: string) {
    version == "2025-11-25" || version == "2025-06-18" || version == "2025-03-26"
  }

  predicate VisibleAscii(id: string) {
    forall i | 0 <= i < |id| :: 0x21 <= id[i] as int <= 0x7E
  }

  /** An `initialize` is accepted exactly when its answer names one of the three versions and holds
      no session id or one of visible ASCII; both then become the pending state as they are. */
  lemma InitializeAcceptedExactly(s: System, t: nat, r: Reply)
    requires t in s.tasks && s.tasks[t].pc.Awaiting? && s.tasks[t].pc.kind.Initialize?
    ensures var pc := Next(s, Answered(t, r)).tasks[t].pc;
            if r.InitResult? && r.version.Some? && KnownVersion(r.version.value)
               && (r.session == None || (r.session != Some("") && VisibleAscii(r.session.value)))
            then pc == Notifying(SessionState(r.session, r.version), s.tasks[t].pc.ticket)
            else pc == Finished
  {
    if r.InitResult? && r.session.Some? {
      assert ValidSessionId(r.session.value) <==> r.session.value != "" && VisibleAscii(r.session.value);
    }
  }

  // ----- What happened in a run -----

  /** Event `k` answers the `initialize` with ticket `hs` of future `t` by that session id and version. */
  predicate AnsweredAt(events: seq<Event>, k: nat, t: nat, hs: nat, state: SessionState) {
    && k < |events| && events[k] == Answered(t, InitResult(state.version, state.session))
    && var s := Run(START, events[..k]);
       t in s.tasks && s.tasks[t].pc.Awaiting? && s.tasks[t].pc.kind.Initialize? && s.tasks[t].pc.ticket == hs
  }

  /** Event `m` accepts the `initialized` notification of future `t` for handshake `hs`. */
  predicate AcknowledgedAt(events: seq<Event>, m: nat, t: nat, hs: nat) {
    && m < |events| && events[m] == Answered(t, Accepted)
    && var s := Run(START, events[..m]);
       t in s.tasks && s.tasks[t].pc.AwaitingAck? && s.tasks[t].pc.hs == hs
  }

  predicate AnsweredIn(events: seq<Event>, t: nat, hs: nat, state: SessionState) {
    exists k :: 0 <= k < |events| && AnsweredAt(events, k, t, hs, state)
  }

  /** The future's handshake was answered by that state, and its notification was accepted afterwards. */
  predicate HandshakeIn(events: seq<Event>, t: nat, hs: nat, state: SessionState) {
    exists k, m :: 0 <= k < m < |events| && AnsweredAt(events, k, t, hs, state) && AcknowledgedAt(events, m, t, hs)
  }

  predicate OriginOk(events: seq<Event>, t: nat, pc: Pc) {
    match pc
    case Notifying(pending, hs) => AnsweredIn(events, t, hs, pending)
    case AwaitingAck(pending, hs) => AnsweredIn(events, t, hs, pending)
    case Storing(pending, hs) => HandshakeIn(events, t, hs, pending)
    case _ => true
  }

  ghost predicate StoredInRun(events: seq<Event>, h: Handshake) {
    exists t :: HandshakeIn(events, t, h.hs, h.state)
  }

  ghost predicate OriginsOk(events: seq<Event>, s: System) {
    && (forall t | t in s.tasks :: OriginOk(events, t, s.tasks[t].pc))
    && (forall i | 0 <= i < |s.stored| :: StoredInRun(events, s.stored[i]))
  }

  lemma RunLast(events: seq<Event>, e: Event)
    ensures Run(START, events + [e]) == Next(Run(START, events), e)
  {
    McpRecovery.RunAppend(START, events, [e]);
    McpRecovery.OneStep(Run(START, events), e);
  }

  lemma AnsweredStays(events: seq<Event>, e: Event, k: nat, t: nat, hs: nat, state: SessionState)
    requires AnsweredAt(events, k, t, hs, state)
    ensures AnsweredAt(events + [e], k, t, hs, state)
  {
    assert (events + [e])[..k] == events[..k];
  }

  lemma HandshakeStays(events: seq<Event>, e: Event, t: nat, hs: nat, state: SessionState)
    requires HandshakeIn(events, t, hs, state)
    ensures HandshakeIn(events + [e], t, hs, state)
  {
    var k, m :| 0 <= k < m < |events| && AnsweredAt(events, k, t, hs, state) && AcknowledgedAt(events, m, t, hs);
    AnsweredStays(events, e, k, t, hs, state);
    assert (events + [e])[..m] == events[..m];
    assert AcknowledgedAt(events + [e], m, t, hs);
  }

  lemma OriginStays(events: seq<Event>, e: Event, t: nat, pc: Pc)
    requires OriginOk(events, t, pc)
    ensures OriginOk(events + [e], t, pc)
  {
    match pc
    case Notifying(pending, hs) => AnsweredInStays(events, e, t, hs, pending);
    case AwaitingAck(pending, hs) => AnsweredInStays(events, e, t, hs, pending);
    case Storing(pending, hs) => HandshakeStays(events, e, t, hs, pending);
    case _ =>
  }

  lemma AnsweredInStays(events: seq<Event>, e: Event, t: nat, hs: nat, state: SessionState)
    requires AnsweredIn(events, t, hs, state)
    ensures AnsweredIn(events + [e], t, hs, state)
  {
    var k :| 0 <= k < |events| && AnsweredAt(events, k, t, hs, state);
    AnsweredStays(events, e, k, t, hs, state);
  }

  lemma NotifiedOrigin(events: seq<Event>, t: nat, r: Reply)
    requires var s := Run(START, events);
             t in s.tasks && s.tasks[t].pc.Awaiting? && s.tasks[t].pc.kind.Initialize?
    ensures OriginOk(events + [Answered(t, r)], t, Next(Run(START, events), Answered(t, r)).tasks[t].pc)
  {
    InitializeAcceptedExactly(Run(START, events), t, r);
    var pc := Next(Run(START, events), Answered(t, r)).tasks[t].pc;
    if pc.Notifying? {
      assert (events + [Answered(t, r)])[..|events|] == events;
      assert AnsweredAt(events + [Answered(t, r)], |events|, t, pc.hs, pc.pending);
    }
  }

  lemma StoringOrigin(events: seq<Event>, t: nat, r: Reply)
    requires var s := Run(START, events);
             t in s.tasks && s.tasks[t].pc.AwaitingAck? && OriginOk(events, t, s.tasks[t].pc)
    ensures OriginOk(events + [Answered(t, r)], t, Next(Run(START, events), Answered(t, r)).tasks[t].pc)
  {
    var s := Run(START, events);
    var (hs, pending) := (s.tasks[t].pc.hs, s.tasks[t].pc.pending);
    if r.Accepted? {
      var k :| 0 <= k < |events| && AnsweredAt(events, k, t, hs, pending);
      AnsweredStays(events, Answered(t, r), k, t, hs, pending);
      assert (events + [Answered(t, r)])[..|events|] == events;
      assert AcknowledgedAt(events + [Answered(t, r)], |events|, t, hs);
    }
  }

  lemma MoverOrigin(events: seq<Event>, e: Event)
    requires OriginsOk(events, Run(START, events)) && e.task in Next(Run(START, events), e).tasks
    ensures OriginOk(events + [e], e.task, Next(Run(START, events), e).tasks[e.task].pc)
  {
    var (s, t) := (Run(START, events), e.task);
    if t in s.tasks {
      var pc := s.tasks[t].pc;
      OriginStays(events, e, t, pc);
      if e.Answered? && pc.Awaiting? && pc.kind.Initialize? {
        NotifiedOrigin(events, t, e.reply);
      } else if e.Answered? && pc.AwaitingAck? {
        StoringOrigin(events, t, e.reply);
      }
    }
  }

  lemma OthersStay(s: System, e: Event)
    ensures forall u | u in Next(s, e).tasks && u != e.task :: u in s.tasks && Next(s, e).tasks[u] == s.tasks[u]
  {
  }

  lemma StoreFollowsStoring(s: System, e: Event)
    ensures Next(s, e).stored == s.stored
         || (e.task in s.tasks && s.tasks[e.task].pc.Storing?
             && Next(s, e).stored == s.stored + [Handshake(s.tasks[e.task].pc.hs, s.tasks[e.task].pc.pending)])
  {
  }

  lemma StoredStays(events: seq<Event>, e: Event, h: Handshake)
    requires StoredInRun(events, h)
    ensures StoredInRun(events + [e], h)
  {
    var t :| HandshakeIn(events, t, h.hs, h.state);
    HandshakeStays(events, e, t, h.hs, h.state);
  }

  lemma StoredOrigin(events: seq<Event>, e: Event)
    requires OriginsOk(events, Run(START, events))
    ensures forall i | 0 <= i < |Next(Run(START, events), e).stored| ::
              StoredInRun(events + [e], Next(Run(START, events), e).stored[i])
  {
    var s := Run(START, events);
    var stored := Next(s, e).stored;
    StoreFollowsStoring(s, e);
    forall i | 0 <= i < |stored| ensures StoredInRun(events + [e], stored[i]) {
      if i < |s.stored| {
        assert stored[i] == s.stored[i];
        StoredStays(events, e, s.stored[i]);
      } else {
        assert OriginOk(events, e.task, s.tasks[e.task].pc);
        HandshakeStays(events, e, e.task, stored[i].hs, stored[i].state);
      }
    }
  }

  lemma NextKeepsOrigins(events: seq<Event>, e: Event)
    requires OriginsOk(events, Run(START, events))
    ensures OriginsOk(events + [e], Next(Run(START, events), e))
  {
    var (s, s') := (Run(START, events), Next(Run(START, events), e));
    OthersStay(s, e);
    forall t | t in s'.tasks ensures OriginOk(events + [e], t, s'.tasks[t].pc) {
      if t == e.task {
        MoverOrigin(events, e);
      } else {
        OriginStays(events, e, t, s.tasks[t].pc);
      }
    }
    StoredOrigin(events, e);
  }

  lemma {:induction false} RunKeepsOrigins(events: seq<Event>)
    ensures OriginsOk(events, Run(START, events))
    decreases |events|
  {
    if events != [] {
      var (before, e) := (events[..|events| - 1], events[|events| - 1]);
      RunKeepsOrigins(before);
      NextKeepsOrigins(before, e);
      RunLast(before, e);
      assert before + [e] == events;
    }
  }

  /** Every list or call request carries the session id and the version of one `initialize` answer of
      the run, whose `initialized` notification the server accepted later on. */
  lemma RequestsCarryAnAnswer(events: seq<Event>, i: nat)
    requires i < |Run(START, events).log| && !Run(START, events).log[i].kind.Initialize?
    ensures exists t, hs :: HandshakeIn(events, t, hs, Run(START, events).log[i].state)
  {
    McpSafety.StartsWell();
    RunKeepsInv(START, events);
    RunKeepsOrigins(events);
    var s := Run(START, events);
    assert FromHandshake(s, s.log[i].state, s.log[i].gen);
    assert StoredInRun(events, s.stored[s.log[i].gen - 1]);
  }

  // ----- What a run has to have seen -----

  /** Event `k` is the answer `r` to a request of that kind; a call's request held a session. */
  predicate RepliedAt(events: seq<Event>, k: nat, t: nat, kind: Kind, r: Reply) {
    && k < |events| && events[k] == Answered(t, r)
    && var s := Run(START, events[..k]);
       && t in s.tasks && s.tasks[t].pc.Awaiting? && s.tasks[t].pc.kind == kind
       && (kind.CallTool? ==> s.tasks[t].pc.state.session.Some?)
  }

  predicate RepliedIn(events: seq<Event>, t: nat, kind: Kind, r: Reply) {
    exists k :: 0 <= k < |events| && RepliedAt(events, k, t, kind, r)
  }

  lemma RepliedGrows(events: seq<Event>, e: Event, t: nat, kind: Kind, r: Reply)
    ensures RepliedIn(events + [e], t, kind, r)
        <==> RepliedIn(events, t, kind, r) || RepliedAt(events + [e], |events|, t, kind, r)
  {
    assert forall k | 0 <= k <= |events| :: (events + [e])[..k] == events[..k];
    assert forall k | 0 <= k < |events| :: RepliedAt(events + [e], k, t, kind, r) <==> RepliedAt(events, k, t, kind, r);
  }

  lemma RepliedNow(events: seq<Event>, e: Event, t: nat, kind: Kind, r: Reply)
    ensures RepliedAt(events + [e], |events|, t, kind, r) <==>
            && e == Answered(t, r)
            && var s := Run(START, events);
               && t in s.tasks && s.tasks[t].pc.Awaiting? && s.tasks[t].pc.kind == kind
               && (kind.CallTool? ==> s.tasks[t].pc.state.session.Some?)
  {
    assert (events + [e])[..|events|] == events;
  }

  /** The client is connected exactly when some listing was answered by a last page. */
  lemma {:induction false} ConnectedExactly(events: seq<Event>)
    ensures Run(START, events).connected <==> exists t :: RepliedIn(events, t, ListTools, Page(false))
    decreases |events|
  {
    if events != [] {
      var (before, e) := (events[..|events| - 1], events[|events| - 1]);
      assert before + [e] == events;
      ConnectedExactly(before);
      RunLast(before, e);
      var last := Page(false);
      forall t ensures RepliedIn(events, t, ListTools, last)
                  <==> RepliedIn(before, t, ListTools, last) || RepliedAt(events, |before|, t, ListTools, last)
      {
        RepliedGrows(before, e, t, ListTools, last);
      }
      RepliedNow(before, e, e.task, ListTools, Page(false));
      assert forall t | RepliedAt(events, |before|, t, ListTools, Page(false)) :: t == e.task;
    }
  }

  /** A call handshakes again exactly when the server answered one of its requests, sent under a
      session, by 404. */
  lemma {:induction false} RetriedExactly(events: seq<Event>, t: nat)
    ensures var s := Run(START, events);
            t in s.tasks && s.tasks[t].retried <==> RepliedIn(events, t, CallTool, NotFound)
    decreases |events|
  {
    if events != [] {
      var (before, e) := (events[..|events| - 1], events[|events| - 1]);
      assert before + [e] == events;
      RetriedExactly(before, t);
      RunLast(before, e);
      RepliedGrows(before, e, t, CallTool, NotFound);
      RepliedNow(before, e, t, CallTool, NotFound);
      OthersStay(Run(START, before), e);
      TasksStay(Run(START, before), e);
    }
  }

  lemma TasksStay(s: System, e: Event)
    ensures s.tasks.Keys <= Next(s, e).tasks.Keys
  {
  }
}
