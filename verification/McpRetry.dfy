/** The second request of a retried tool call, against the handshake that the call itself performed
    (crates/harness/src/mcp.rs, `Session::call_tool`). */
module McpRetry {
  import McpSafety
  import opened McpSession
  import opened SessionInvariant

  /** Ticket `hs` is that of an `initialize` the future posted. */
  predicate OwnInit(log: seq<Post>, t: nat, hs: nat) {
    exists i :: 0 <= i < |log| && log[i].task == t && log[i].kind.Initialize? && log[i].ticket == hs
  }

  /** Among the first `gen` stored handshakes is one that the future itself performed. */
  predicate OwnStored(s: System, t: nat, gen: nat) {
    exists m :: 0 <= m < gen && m < |s.stored| && OwnInit(s.log, t, s.stored[m].hs)
  }

  /** Where a retrying call stands, its own handshake is under way or stored. */
  predicate OwnPc(s: System, t: nat, pc: Pc) {
    match pc
    case Snapshotting(_) => OwnStored(s, t, |s.stored|)
    case Ready(kind, _, gen) => kind.CallTool? ==> OwnStored(s, t, gen)
    case Posting(kind, _, gen, _) => kind.CallTool? ==> OwnStored(s, t, gen)
    case Awaiting(kind, _, gen, ticket) =>
      (kind.CallTool? ==> OwnStored(s, t, gen)) && (kind.Initialize? ==> OwnInit(s.log, t, ticket))
    case Notifying(_, hs) => OwnInit(s.log, t, hs)
    case AwaitingAck(_, hs) => OwnInit(s.log, t, hs)
    case Storing(_, hs) => OwnInit(s.log, t, hs)
    case Finished => true
  }

  predicate OwnTasks(s: System) {
    forall t | t in s.tasks && s.tasks[t].retried :: OwnPc(s, t, s.tasks[t].pc)
  }

  /** Every `tools/call` behind another one of its future carries a handshake stored no earlier than an own one. */
  predicate OwnLog(s: System) {
    forall i, j | 0 <= i < j < |s.log| && s.log[i].task == s.log[j].task
      && s.log[i].kind.CallTool? && s.log[j].kind.CallTool? :: OwnStored(s, s.log[j].task, s.log[j].gen)
  }

  lemma OwnInitGrows(log: seq<Post>, more: seq<Post>, t: nat, hs: nat)
    requires log <= more && OwnInit(log, t, hs)
    ensures OwnInit(more, t, hs)
  {
    var i :| 0 <= i < |log| && log[i].task == t && log[i].kind.Initialize? && log[i].ticket == hs;
    assert more[i] == log[i];
  }

  lemma OwnStoredGrows(s: System, s': System, t: nat, gen: nat, more: nat)
    requires s.log <= s'.log && s.stored <= s'.stored && gen <= more && OwnStored(s, t, gen)
    ensures OwnStored(s', t, more)
  {
    var m :| 0 <= m < gen && m < |s.stored| && OwnInit(s.log, t, s.stored[m].hs);
    OwnInitGrows(s.log, s'.log, t, s.stored[m].hs);
    assert s'.stored[m] == s.stored[m];
  }

  lemma OwnPcGrows(s: System, s': System, t: nat, pc: Pc)
    requires s.log <= s'.log && s.stored <= s'.stored && OwnPc(s, t, pc)
    ensures OwnPc(s', t, pc)
  {
    match pc
    case Snapshotting(_) => OwnStoredGrows(s, s', t, |s.stored|, |s'.stored|);
    case Ready(kind, _, gen) => if kind.CallTool? { OwnStoredGrows(s, s', t, gen, gen); }
    case Posting(kind, _, gen, _) => if kind.CallTool? { OwnStoredGrows(s, s', t, gen, gen); }
    case Awaiting(kind, _, gen, ticket) =>
      if kind.CallTool? { OwnStoredGrows(s, s', t, gen, gen); }
      if kind.Initialize? { OwnInitGrows(s.log, s'.log, t, ticket); }
    case Notifying(_, hs) => OwnInitGrows(s.log, s'.log, t, hs);
    case AwaitingAck(_, hs) => OwnInitGrows(s.log, s'.log, t, hs);
    case Storing(_, hs) => OwnInitGrows(s.log, s'.log, t, hs);
    case Finished =>
  }

  lemma OwnLogKept(s: System, s': System)
    requires OwnLog(s) && s'.log == s.log && s.stored <= s'.stored
    ensures OwnLog(s')
  {
    forall i, j | 0 <= i < j < |s'.log| && s'.log[i].task == s'.log[j].task
      && s'.log[i].kind.CallTool? && s'.log[j].kind.CallTool?
      ensures OwnStored(s', s'.log[j].task, s'.log[j].gen)
    {
      OwnStoredGrows(s, s', s.log[j].task, s.log[j].gen, s.log[j].gen);
    }
  }

  /** A step changes one future; the log and the stored handshakes only grow. */
  lemma OneMoved(s: System, s': System, t: nat)
    requires OwnTasks(s) && s.log <= s'.log && s.stored <= s'.stored
    requires t in s'.tasks && forall u | u in s'.tasks && u != t :: u in s.tasks && s'.tasks[u] == s.tasks[u]
    requires s'.tasks[t].retried ==> OwnPc(s', t, s'.tasks[t].pc)
    ensures OwnTasks(s')
  {
    forall u | u in s'.tasks && s'.tasks[u].retried ensures OwnPc(s', u, s'.tasks[u].pc) {
      if u != t {
        OwnPcGrows(s, s', u, s.tasks[u].pc);
      }
    }
  }

  lemma PostedIsOwn(s: System, p: Post)
    requires p.task in s.tasks && s.tasks[p.task].pc == Posting(p.kind, p.state, p.gen, p.ticket)
    requires s.tasks[p.task].retried && OwnPc(s, p.task, s.tasks[p.task].pc)
    ensures OwnPc(SendPost(s, p), p.task, Awaiting(p.kind, p.state, p.gen, p.ticket))
  {
    var s' := SendPost(s, p);
    if p.kind.CallTool? {
      OwnStoredGrows(s, s', p.task, p.gen, p.gen);
    }
    assert s'.log[|s.log|] == p;
  }

  /** A call that posts a second `tools/call` is on its retry, so its own handshake is stored. */
  lemma PostKeepsOwnLog(s: System, p: Post)
    requires Inv(s) && OwnTasks(s) && OwnLog(s)
    requires p.task in s.tasks && s.tasks[p.task].pc == Posting(p.kind, p.state, p.gen, p.ticket)
    ensures OwnLog(SendPost(s, p))
  {
    var s' := SendPost(s, p);
    assert TaskGood(s, p.task, s.tasks[p.task]);
    forall i, j | 0 <= i < j < |s'.log| && s'.log[i].task == s'.log[j].task
      && s'.log[i].kind.CallTool? && s'.log[j].kind.CallTool?
      ensures OwnStored(s', s'.log[j].task, s'.log[j].gen)
    {
      assert s'.log[i] == s.log[i];
      if j < |s.log| {
        OwnStoredGrows(s, s', s.log[j].task, s.log[j].gen, s.log[j].gen);
      } else {
        OwnStoredGrows(s, s', p.task, p.gen, p.gen);
      }
    }
  }

  lemma SendKeepsOwn(s: System, p: Post)
    requires Inv(s) && OwnTasks(s) && OwnLog(s)
    requires p.task in s.tasks && s.tasks[p.task].pc == Posting(p.kind, p.state, p.gen, p.ticket)
    ensures OwnTasks(SendPost(s, p)) && OwnLog(SendPost(s, p))
  {
    PostKeepsOwnLog(s, p);
    if s.tasks[p.task].retried {
      PostedIsOwn(s, p);
    }
    OneMoved(s, SendPost(s, p), p.task);
  }

  lemma StoreKeepsOwn(s: System, t: nat, pending: SessionState, hs: nat)
    requires OwnTasks(s) && OwnLog(s) && t in s.tasks && s.tasks[t].pc == Storing(pending, hs)
    ensures OwnTasks(StoreState(s, t, pending, hs)) && OwnLog(StoreState(s, t, pending, hs))
  {
    var s' := StoreState(s, t, pending, hs);
    OwnLogKept(s, s');
    assert s'.stored[|s.stored|].hs == hs;
    OneMoved(s, s', t);
  }

  /** Moving one future, with log and stored handshakes left alone. */
  lemma MoveKeepsOwn(s: System, s': System, t: nat)
    requires OwnTasks(s) && OwnLog(s) && s'.log == s.log && s'.stored == s.stored && t in s'.tasks
    requires forall u | u in s'.tasks && u != t :: u in s.tasks && s'.tasks[u] == s.tasks[u]
    requires s'.tasks[t].retried ==> OwnPc(s, t, s'.tasks[t].pc)
    ensures OwnTasks(s') && OwnLog(s')
  {
    OwnLogKept(s, s');
    if s'.tasks[t].retried {
      OwnPcGrows(s, s', t, s'.tasks[t].pc);
    }
    OneMoved(s, s', t);
  }

  lemma AdvanceKeepsOwn(s: System, t: nat)
    requires Inv(s) && OwnTasks(s) && OwnLog(s) && t in s.tasks
    ensures OwnTasks(AdvanceTask(s, t)) && OwnLog(AdvanceTask(s, t))
  {
    match s.tasks[t].pc
    case Posting(kind, state, gen, ticket) => SendKeepsOwn(s, Post(t, kind, ticket, state, gen));
    case Storing(pending, hs) => StoreKeepsOwn(s, t, pending, hs);
    case Snapshotting(_) => QuietAdvanceKeepsOwn(s, t);
    case Ready(_, _, _) => QuietAdvanceKeepsOwn(s, t);
    case Notifying(_, _) => QuietAdvanceKeepsOwn(s, t);
    case _ =>
  }

  lemma QuietAdvanceKeepsOwn(s: System, t: nat)
    requires OwnTasks(s) && OwnLog(s) && t in s.tasks
    requires s.tasks[t].pc.Snapshotting? || s.tasks[t].pc.Ready? || s.tasks[t].pc.Notifying?
    ensures OwnTasks(AdvanceTask(s, t)) && OwnLog(AdvanceTask(s, t))
  {
    MoveKeepsOwn(s, AdvanceTask(s, t), t);
  }

  lemma AnswerKeepsOwn(s: System, t: nat, r: Reply)
    requires Inv(s) && OwnTasks(s) && OwnLog(s) && t in s.tasks
    ensures OwnTasks(AnswerTask(s, t, r)) && OwnLog(AnswerTask(s, t, r))
  {
    OwnPcAnswered(s, t, r);
    AnswerMovesOne(s, t, r);
    MoveKeepsOwn(s, AnswerTask(s, t, r), t);
  }

  lemma AnswerMovesOne(s: System, t: nat, r: Reply)
    requires t in s.tasks
    ensures var s' := AnswerTask(s, t, r);
            && s'.log == s.log && s'.stored == s.stored
            && forall u | u in s'.tasks && u != t :: u in s.tasks && s'.tasks[u] == s.tasks[u]
  {
  }

  lemma OwnPcAnswered(s: System, t: nat, r: Reply)
    requires t in s.tasks && TaskGood(s, t, s.tasks[t]) && (s.tasks[t].retried ==> OwnPc(s, t, s.tasks[t].pc))
    ensures t in AnswerTask(s, t, r).tasks
    ensures AnswerTask(s, t, r).tasks[t].retried ==> OwnPc(s, t, AnswerTask(s, t, r).tasks[t].pc)
  {
  }

  lemma NextKeepsOwn(s: System, e: Event)
    requires Inv(s) && OwnTasks(s) && OwnLog(s)
    ensures OwnTasks(Next(s, e)) && OwnLog(Next(s, e))
  {
    match e
    case Connect(t) => if s.tasks == map[] { MoveKeepsOwn(s, Next(s, e), t); }
    case Call(t) => if s.connected && t !in s.tasks { MoveKeepsOwn(s, Next(s, e), t); }
    case Advance(t) => if t in s.tasks { AdvanceKeepsOwn(s, t); }
    case Answered(t, r) => if t in s.tasks { AnswerKeepsOwn(s, t, r); }
    case Cancel(t) => if t in s.tasks { MoveKeepsOwn(s, Next(s, e), t); }
  }

  lemma {:induction false} RunKeepsOwn(s: System, events: seq<Event>)
    requires Inv(s) && OwnTasks(s) && OwnLog(s)
    ensures OwnTasks(Run(s, events)) && OwnLog(Run(s, events))
    decreases |events|
  {
    if events != [] {
      NextKeepsInv(s, events[0]);
      NextKeepsOwn(s, events[0]);
      RunKeepsOwn(Next(s, events[0]), events[1..]);
    }
  }

  /** Under every interleaving, a call's second `tools/call` carries a handshake stored no earlier than
      one whose `initialize` the call itself has posted. */
  lemma SecondCallFollowsItsOwnHandshake(events: seq<Event>, i: nat, j: nat)
    requires i < j < |Run(START, events).log|
    requires Run(START, events).log[i].task == Run(START, events).log[j].task
    requires Run(START, events).log[i].kind.CallTool? && Run(START, events).log[j].kind.CallTool?
    ensures var s := Run(START, events);
            && FromHandshake(s, s.log[j].state, s.log[j].gen)
            && exists m, k :: 0 <= m < s.log[j].gen && 0 <= k < |s.log| && s.stored[m].hs == s.log[k].ticket
                              && s.log[k].task == s.log[j].task && s.log[k].kind.Initialize?
  {
    McpSafety.StartsWell();
    RunKeepsInv(START, events);
    RunKeepsOwn(START, events);
    var s := Run(START, events);
    var t := s.log[j].task;
    assert OwnStored(s, t, s.log[j].gen);
    var m :| 0 <= m < s.log[j].gen && m < |s.stored| && OwnInit(s.log, t, s.stored[m].hs);
    var k :| 0 <= k < |s.log| && s.log[k].task == t && s.log[k].kind.Initialize? && s.log[k].ticket == s.stored[m].hs;
  }
}
