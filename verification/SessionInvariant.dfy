/** Every step of every future keeps the session's invariant (crates/harness/src/mcp.rs, `Session`). */
module SessionInvariant {
  import opened McpSession
  import opened Outcomes
  import ToolsList

  /** The shared parts grew by nothing that touches future `u`, which stands at `pc`. */
  predicate GrowsBeside(s: System, s': System, u: nat, pc: Pc) {
    && s.stored <= s'.stored && s.tickets <= s'.tickets && s.acked <= s'.acked
    && (forall hs | hs in s.granted :: hs in s'.granted && s'.granted[hs] == s.granted[hs])
    && (forall hs | hs in s'.granted && hs !in s.granted :: OpenTicket(pc) != Some(hs))
    && (s'.log == s.log
        || (|s'.log| == |s.log| + 1 && s'.log[..|s.log|] == s.log
            && s'.log[|s.log|].task != u && OpenTicket(pc) != Some(s'.log[|s.log|].ticket)))
  }

  lemma CalledUnderGrows(log: seq<Post>, more: seq<Post>, t: nat)
    requires log <= more
    ensures forall gen | CalledUnder(log, t, gen) :: CalledUnder(more, t, gen)
  {
    forall gen | CalledUnder(log, t, gen) ensures CalledUnder(more, t, gen) {
      var i :| 0 <= i < |log| && log[i].task == t && log[i].kind.CallTool? && log[i].gen == gen;
      assert more[i] == log[i];
    }
  }

  lemma StaysGood(s: System, s': System, u: nat, task: Task)
    requires GrowsBeside(s, s', u, task.pc) && TaskGood(s, u, task)
    ensures TaskGood(s', u, task)
  {
    if s'.log != s.log {
      assert forall kind :: Count(s'.log, u, kind) == Count(s.log, u, kind);
      CalledUnderGrows(s.log, s'.log, u);
    }
  }

  /** Growing the shared parts beside every future keeps the invariant. */
  lemma SharedKeepsInv(s: System, s': System)
    requires Inv(s) && s'.tasks == s.tasks && StoredOk(s') && LogOk(s')
    requires forall u | u in s.tasks :: GrowsBeside(s, s', u, s.tasks[u].pc)
    ensures Inv(s')
  {
    forall u | u in s.tasks ensures TaskGood(s', u, s.tasks[u]) {
      StaysGood(s, s', u, s.tasks[u]);
    }
  }

  /** Changing one future's own place keeps the invariant when the new place is in order. */
  lemma MoveKeepsInv(s: System, t: nat, task: Task)
    requires Inv(s) && TaskGood(s, t, task)
    requires OpenTicket(task.pc).Some? ==>
               forall u | u in s.tasks && u != t :: OpenTicket(s.tasks[u].pc) != OpenTicket(task.pc)
    ensures Inv(Put(s, t, task))
  {
    var s' := Put(s, t, task);
    forall u | u in s'.tasks ensures TaskGood(s', u, s'.tasks[u]) {
      if u != t {
        StaysGood(s, s', u, s.tasks[u]);
      } else {
        StaysGood(s, s', t, task);
      }
    }
  }

  lemma OpenTicketsBounded(s: System, u: nat)
    requires Inv(s) && u in s.tasks && OpenTicket(s.tasks[u].pc).Some?
    ensures OpenTicket(s.tasks[u].pc).value <= s.tickets
  {
    assert TaskGood(s, u, s.tasks[u]);
  }

  lemma TicketShared(s: System)
    requires Inv(s)
    ensures Inv(s.(tickets := s.tickets + 1))
    ensures forall u | u in s.tasks :: OpenTicket(s.tasks[u].pc) != Some(s.tickets + 1)
  {
    SharedKeepsInv(s, s.(tickets := s.tickets + 1));
    forall u | u in s.tasks ensures OpenTicket(s.tasks[u].pc) != Some(s.tickets + 1) {
      if OpenTicket(s.tasks[u].pc).Some? {
        OpenTicketsBounded(s, u);
      }
    }
  }

  lemma TicketIsNew(s: System)
    requires Inv(s)
    ensures s.tickets + 1 !in s.granted && forall i | 0 <= i < |s.log| :: s.log[i].ticket != s.tickets + 1
  {
  }

  lemma TicketKeepsInv(s: System, t: nat, kind: Kind, state: SessionState, gen: nat)
    requires Inv(s) && t in s.tasks && s.tasks[t].pc == Ready(kind, state, gen)
    ensures Inv(TakeTicket(s, t, kind, state, gen))
  {
    var s1 := s.(tickets := s.tickets + 1);
    TicketShared(s);
    TicketIsNew(s);
    NewTicketGood(s1, t, s.tasks[t], kind, state, gen);
    MoveKeepsInv(s1, t, s.tasks[t].(pc := Posting(kind, state, gen, s1.tickets)));
  }

  lemma NewTicketGood(s: System, t: nat, task: Task, kind: Kind, state: SessionState, gen: nat)
    requires TaskGood(s, t, task) && task.pc == Ready(kind, state, gen) && s.tickets > 0
    requires s.tickets !in s.granted && forall i | 0 <= i < |s.log| :: s.log[i].ticket != s.tickets
    ensures TaskGood(s, t, task.(pc := Posting(kind, state, gen, s.tickets)))
  {
  }

  lemma PostedIsCounted(log: seq<Post>, p: Post, kind: Kind)
    ensures Count(log + [p], p.task, kind) == Count(log, p.task, kind) + if p.kind == kind then 1 else 0
  {
    assert (log + [p])[..|log|] == log;
  }

  lemma PostKeepsLog(s: System, s': System, p: Post, task: Task)
    requires Inv(s) && p.task in s.tasks && s.tasks[p.task] == task
    requires task.pc == Posting(p.kind, p.state, p.gen, p.ticket)
    requires s' == s.(log := s.log + [p])
    ensures LogOk(s')
  {
    assert TaskGood(s, p.task, task);
    PostIsOk(s, p, task);
    PostIsNewer(s, p, task);
  }

  lemma PostIsOk(s: System, p: Post, task: Task)
    requires PcOk(s, task) && task.pc == Posting(p.kind, p.state, p.gen, p.ticket) && p.task in s.tasks
    requires TicketsDiffer(s.log)
    ensures EntryOk(s, p) && TicketsDiffer(s.log + [p])
  {
  }

  lemma PostIsNewer(s: System, p: Post, task: Task)
    requires PcOk(s, task) && CallsAged(s, p.task, task) && task.pc == Posting(p.kind, p.state, p.gen, p.ticket)
    requires CallsGetNewer(s.log)
    ensures CallsGetNewer(s.log + [p])
  {
  }

  lemma PosterStaysInBudget(s: System, p: Post, task: Task, next: Task)
    requires TaskGood(s, p.task, task) && task.pc == Posting(p.kind, p.state, p.gen, p.ticket)
    requires next == task.(pc := Awaiting(p.kind, p.state, p.gen, p.ticket))
    ensures forall kind :: Count(s.log + [p], p.task, kind) <= Allowance(next, kind)
  {
    forall kind ensures Count(s.log + [p], p.task, kind) <= Allowance(next, kind) {
      PostedIsCounted(s.log, p, kind);
    }
  }

  lemma PosterStaysGood(s: System, s': System, p: Post, task: Task)
    requires Inv(s) && p.task in s.tasks && s.tasks[p.task] == task
    requires task.pc == Posting(p.kind, p.state, p.gen, p.ticket)
    requires s' == s.(log := s.log + [p])
    ensures TaskGood(s', p.task, task.(pc := Awaiting(p.kind, p.state, p.gen, p.ticket)))
  {
    assert TaskGood(s, p.task, task);
    CalledUnderGrows(s.log, s'.log, p.task);
    assert s'.log[|s.log|] == p;
    PosterStaysInBudget(s, p, task, task.(pc := Awaiting(p.kind, p.state, p.gen, p.ticket)));
  }

  lemma PostKeepsInv(s: System, p: Post, task: Task)
    requires Inv(s) && p.task in s.tasks && s.tasks[p.task] == task
    requires task.pc == Posting(p.kind, p.state, p.gen, p.ticket)
    ensures Inv(SendPost(s, p))
  {
    var s1 := s.(log := s.log + [p]);
    var next := task.(pc := Awaiting(p.kind, p.state, p.gen, p.ticket));
    PostKeepsLog(s, s1, p, task);
    PosterStaysGood(s, s1, p, task);
    OthersUnmoved(s, s1, p);
    AfterPost(s, s1, p, next);
  }

  lemma OthersUnmoved(s: System, s': System, p: Post)
    requires Inv(s) && p.task in s.tasks && OpenTicket(s.tasks[p.task].pc) == Some(p.ticket)
    requires s' == s.(log := s.log + [p])
    ensures forall u | u in s.tasks && u != p.task :: TaskGood(s', u, s.tasks[u])
  {
    forall u | u in s.tasks && u != p.task ensures TaskGood(s', u, s.tasks[u]) {
      StaysGood(s, s', u, s.tasks[u]);
    }
  }

  lemma AfterPost(s: System, s': System, p: Post, next: Task)
    requires StoredOk(s) && TicketsOk(s) && p.task in s.tasks && s' == s.(log := s.log + [p]) && LogOk(s')
    requires OpenTicket(next.pc) == OpenTicket(s.tasks[p.task].pc) && TaskGood(s', p.task, next)
    requires forall u | u in s.tasks && u != p.task :: TaskGood(s', u, s.tasks[u])
    ensures Inv(Put(s', p.task, next))
  {
    var s2 := Put(s', p.task, next);
    forall u | u in s2.tasks ensures TaskGood(s2, u, s2.tasks[u]) {
      StaysGood(s', s2, u, s2.tasks[u]);
    }
  }

  /** Replacing the shared state by an acknowledged grant leaves everyone else in order. */
  lemma StoreShared(s: System, s': System, pending: SessionState, hs: nat)
    requires Inv(s) && hs in s.granted && s.granted[hs] == pending && hs in s.acked
    requires s' == s.(shared := pending, stored := s.stored + [Handshake(hs, pending)])
    ensures Inv(s')
  {
    assert forall i | 0 <= i < |s.stored| :: s'.stored[i] == s.stored[i];
    SharedKeepsInv(s, s');
  }

  lemma AfterStoreGood(s: System, s': System, t: nat, task: Task, next: Task)
    requires TaskGood(s, t, task) && task.pc.Storing?
    requires s'.log == s.log && s.stored <= s'.stored && |s'.stored| > |s.stored|
    requires next == task.(pc := Snapshotting(if task.role.Connecting? then ListTools else CallTool))
    ensures TaskGood(s', t, next)
  {
    forall kind ensures Count(s.log, t, kind) <= Allowance(next, kind) {
      assert Count(s.log, t, kind) <= Allowance(task, kind);
    }
  }

  lemma StoreKeepsInv(s: System, t: nat, pending: SessionState, hs: nat)
    requires Inv(s) && t in s.tasks && s.tasks[t].pc == Storing(pending, hs)
    ensures Inv(StoreState(s, t, pending, hs))
  {
    var task := s.tasks[t];
    var s1 := s.(shared := pending, stored := s.stored + [Handshake(hs, pending)]);
    var next := task.(pc := Snapshotting(if task.role.Connecting? then ListTools else CallTool));
    assert TaskGood(s, t, task);
    StoreShared(s, s1, pending, hs);
    AfterStoreGood(s, s1, t, task, next);
    MoveKeepsInv(s1, t, next);
  }

  lemma SnapshotGood(s: System, t: nat, task: Task, next: Task)
    requires StoredOk(s) && TaskGood(s, t, task) && task.pc.Snapshotting?
    requires task.pc.kind.ListTools? ==> task.pages < ToolsList.MAX_PAGES
    requires next == task.(pc := Ready(task.pc.kind, s.shared, |s.stored|),
                           pages := if task.pc.kind.ListTools? then task.pages + 1 else task.pages)
    ensures TaskGood(s, t, next)
  {
    forall kind ensures Count(s.log, t, kind) <= Allowance(next, kind) {
      assert Count(s.log, t, kind) <= Allowance(task, kind);
    }
  }

  lemma SnapshotKeepsInv(s: System, t: nat, kind: Kind)
    requires Inv(s) && t in s.tasks && s.tasks[t].pc == Snapshotting(kind)
    requires kind.ListTools? ==> s.tasks[t].pages < ToolsList.MAX_PAGES
    ensures Inv(TakeSnapshot(s, t, kind))
  {
    var task := s.tasks[t];
    var next := task.(pc := Ready(kind, s.shared, |s.stored|),
                      pages := if kind.ListTools? then task.pages + 1 else task.pages);
    assert TaskGood(s, t, task);
    SnapshotGood(s, t, task, next);
    MoveKeepsInv(s, t, next);
    assert TakeSnapshot(s, t, kind) == Put(s, t, next);
  }

  lemma GivingUpKeepsInv(s: System, t: nat)
    requires Inv(s) && t in s.tasks
    ensures Inv(MoveTo(s, t, Finished))
  {
    FinishKeepsInv(s, t, s.connected);
    assert s.(connected := s.connected) == s;
  }

  lemma NotifyKeepsInv(s: System, t: nat, pending: SessionState, hs: nat)
    requires Inv(s) && t in s.tasks && s.tasks[t].pc == Notifying(pending, hs)
    ensures Inv(MoveTo(s, t, AwaitingAck(pending, hs)))
  {
    assert TaskGood(s, t, s.tasks[t]);
    MoveKeepsInv(s, t, s.tasks[t].(pc := AwaitingAck(pending, hs)));
  }

  lemma AdvanceKeepsInv(s: System, t: nat)
    requires Inv(s) && t in s.tasks
    ensures Inv(AdvanceTask(s, t))
  {
    match s.tasks[t].pc
    case Snapshotting(kind) =>
      if kind.ListTools? && s.tasks[t].pages >= ToolsList.MAX_PAGES {
        assert TaskGood(s, t, s.tasks[t]);
        GivingUpKeepsInv(s, t);
      } else {
        SnapshotKeepsInv(s, t, kind);
      }
    case Ready(kind, state, gen) => TicketKeepsInv(s, t, kind, state, gen);
    case Posting(kind, state, gen, ticket) => PostKeepsInv(s, Post(t, kind, ticket, state, gen), s.tasks[t]);
    case Notifying(pending, hs) => NotifyKeepsInv(s, t, pending, hs);
    case Storing(pending, hs) => StoreKeepsInv(s, t, pending, hs);
    case _ =>
  }

  lemma TicketIsOurs(s: System, t: nat, ticket: nat)
    requires Inv(s) && t in s.tasks && s.tasks[t].pc.Awaiting? && s.tasks[t].pc.ticket == ticket
    ensures ticket <= s.tickets && ticket !in s.granted
    ensures forall u | u in s.tasks && u != t :: OpenTicket(s.tasks[u].pc) != Some(ticket)
  {
    assert TaskGood(s, t, s.tasks[t]);
    assert OpenTicket(s.tasks[t].pc) == Some(ticket);
  }

  lemma NotifyingGood(s: System, s': System, t: nat, task: Task, state: SessionState, ticket: nat)
    requires TaskGood(s, t, task) && task.pc.Awaiting? && task.pc.kind.Initialize? && task.pc.ticket == ticket
    requires s'.granted == s.granted[ticket := state] && s'.stored == s.stored && s'.log == s.log
    ensures TaskGood(s', t, task.(pc := Notifying(state, ticket)))
  {
    forall kind ensures Count(s.log, t, kind) <= Allowance(task.(pc := Notifying(state, ticket)), kind) {
      assert Count(s.log, t, kind) <= Allowance(task, kind);
    }
  }

  lemma GrantBeside(s: System, state: SessionState, ticket: nat)
    requires Inv(s) && ticket <= s.tickets && ticket !in s.granted && Granted(state)
    requires forall u | u in s.tasks :: OpenTicket(s.tasks[u].pc) != Some(ticket)
    ensures Inv(s.(granted := s.granted[ticket := state]))
  {
    SharedKeepsInv(s, s.(granted := s.granted[ticket := state]));
  }

  lemma GrantFinished(s: System, t: nat, state: SessionState, gen: nat, ticket: nat)
    requires Inv(s) && t in s.tasks && s.tasks[t].pc == Awaiting(Initialize, NO_SESSION, gen, ticket) && Granted(state)
    ensures Inv(MoveTo(s.(granted := s.granted[ticket := state]), t, Finished))
  {
    FinishKeepsInv(s, t, s.connected);
    TicketIsOurs(s, t, ticket);
    GrantBeside(MoveTo(s, t, Finished), state, ticket);
  }

  /** Recording an accepted `initialize` answer under an id no other future holds. */
  lemma GrantKeepsInv(s: System, t: nat, state: SessionState, gen: nat, ticket: nat)
    requires Inv(s) && t in s.tasks && s.tasks[t].pc == Awaiting(Initialize, NO_SESSION, gen, ticket) && Granted(state)
    ensures Inv(MoveTo(s.(granted := s.granted[ticket := state]), t, Notifying(state, ticket)))
  {
    var s1 := MoveTo(s.(granted := s.granted[ticket := state]), t, Finished);
    var task := s.tasks[t].(pc := Notifying(state, ticket));
    GrantFinished(s, t, state, gen, ticket);
    assert TaskGood(s, t, s.tasks[t]);
    NotifyingGood(s, s1, t, s.tasks[t], state, ticket);
    MoveKeepsInv(s1, t, task);
    PutTwice(s.(granted := s.granted[ticket := state]), t, s1.tasks[t], task);
  }

  lemma PutTwice(s: System, t: nat, first: Task, second: Task)
    ensures Put(Put(s, t, first), t, second) == Put(s, t, second)
  {
    assert s.tasks[t := first][t := second] == s.tasks[t := second];
  }

  lemma AckShared(s: System, hs: nat)
    requires Inv(s)
    ensures Inv(s.(acked := s.acked + {hs}))
  {
    SharedKeepsInv(s, s.(acked := s.acked + {hs}));
  }

  lemma StoringGood(s: System, s': System, t: nat, task: Task, pending: SessionState, hs: nat)
    requires TaskGood(s, t, task) && task.pc == AwaitingAck(pending, hs)
    requires s' == s.(acked := s.acked + {hs})
    ensures TaskGood(s', t, task.(pc := Storing(pending, hs)))
  {
    forall kind ensures Count(s.log, t, kind) <= Allowance(task.(pc := Storing(pending, hs)), kind) {
      assert Count(s.log, t, kind) <= Allowance(task, kind);
    }
  }

  lemma FinishedGood(s: System, t: nat, task: Task)
    requires TaskGood(s, t, task)
    ensures TaskGood(s, t, task.(pc := Finished))
  {
    forall kind ensures Count(s.log, t, kind) <= Allowance(task.(pc := Finished), kind) {
      assert Count(s.log, t, kind) <= Allowance(task, kind);
    }
  }

  lemma FinishKeepsInv(s: System, t: nat, connected: bool)
    requires Inv(s) && t in s.tasks && (connected ==> s.stored != [])
    ensures Inv(MoveTo(s.(connected := connected), t, Finished))
  {
    var s1 := s.(connected := connected);
    SharedKeepsInv(s, s1);
    FinishedGood(s1, t, s.tasks[t]);
    MoveKeepsInv(s1, t, s.tasks[t].(pc := Finished));
  }

  lemma InitializeAnswered(s: System, t: nat, r: Reply)
    requires Inv(s) && t in s.tasks && s.tasks[t].pc.Awaiting? && s.tasks[t].pc.kind.Initialize?
    ensures Inv(AnswerTask(s, t, r))
  {
    assert TaskGood(s, t, s.tasks[t]);
    if Accept(r).Some? {
      GrantKeepsInv(s, t, Accept(r).value, s.tasks[t].pc.gen, s.tasks[t].pc.ticket);
    } else {
      GivingUpKeepsInv(s, t);
    }
  }

  lemma ListAnswered(s: System, t: nat, r: Reply)
    requires Inv(s) && t in s.tasks && s.tasks[t].pc.Awaiting? && s.tasks[t].pc.kind.ListTools?
    ensures Inv(AnswerTask(s, t, r))
  {
    assert TaskGood(s, t, s.tasks[t]);
    if r == Page(true) {
      MoveKeepsInv(s, t, s.tasks[t].(pc := Snapshotting(ListTools)));
    } else {
      FinishKeepsInv(s, t, s.connected || r == Page(false));
    }
  }

  lemma CallAnswered(s: System, t: nat, r: Reply)
    requires Inv(s) && t in s.tasks && s.tasks[t].pc.Awaiting? && s.tasks[t].pc.kind.CallTool?
    ensures Inv(AnswerTask(s, t, r))
  {
    var pc := s.tasks[t].pc;
    if r.NotFound? && pc.state.session.Some? && !s.tasks[t].retried {
      var task := s.tasks[t];
      assert TaskGood(s, t, task);
      MoveKeepsInv(s, t, task.(pc := Ready(Initialize, NO_SESSION, 0), retried := true, firstGen := pc.gen));
    } else {
      GivingUpKeepsInv(s, t);
    }
  }

  lemma NoteAnswered(s: System, t: nat, r: Reply)
    requires Inv(s) && t in s.tasks && s.tasks[t].pc.AwaitingAck?
    ensures Inv(AnswerTask(s, t, r))
  {
    if r.Accepted? {
      var (pending, hs) := (s.tasks[t].pc.pending, s.tasks[t].pc.hs);
      var s1 := s.(acked := s.acked + {hs});
      AckShared(s, hs);
      assert TaskGood(s, t, s.tasks[t]);
      StoringGood(s, s1, t, s.tasks[t], pending, hs);
      MoveKeepsInv(s1, t, s.tasks[t].(pc := Storing(pending, hs)));
    } else {
      GivingUpKeepsInv(s, t);
    }
  }

  lemma AnswerKeepsInv(s: System, t: nat, r: Reply)
    requires Inv(s) && t in s.tasks
    ensures Inv(AnswerTask(s, t, r))
  {
    match s.tasks[t].pc
    case Awaiting(Initialize, _, _, _) => InitializeAnswered(s, t, r);
    case Awaiting(ListTools, _, _, _) => ListAnswered(s, t, r);
    case Awaiting(CallTool, _, _, _) => CallAnswered(s, t, r);
    case AwaitingAck(_, _) => NoteAnswered(s, t, r);
    case _ =>
  }

  lemma {:induction false} NoPosts(log: seq<Post>, t: nat, kind: Kind)
    requires forall i | 0 <= i < |log| :: log[i].task != t
    ensures Count(log, t, kind) == 0
  {
    if log != [] {
      NoPosts(log[..|log| - 1], t, kind);
    }
  }

  lemma NewTaskKeepsInv(s: System, t: nat, task: Task)
    requires Inv(s) && t !in s.tasks && OpenTicket(task.pc).None?
    requires PcOk(s, task) && task.pages == 0 && task.firstGen == 0 && !task.retried
    requires task.pc.Ready? ==> task.pc.kind.Initialize?
    ensures Inv(Put(s, t, task))
  {
    forall kind ensures Count(s.log, t, kind) == 0 {
      NoPosts(s.log, t, kind);
    }
    MoveKeepsInv(s, t, task);
  }

  lemma NextKeepsInv(s: System, e: Event)
    requires Inv(s)
    ensures Inv(Next(s, e))
  {
    match e
    case Connect(t) =>
      if s.tasks == map[] {
        NewTaskKeepsInv(s, t, Task(Connecting, Ready(Initialize, NO_SESSION, 0), 0, false, 0));
      }
    case Call(t) =>
      if s.connected && t !in s.tasks {
        NewTaskKeepsInv(s, t, Task(Calling, Snapshotting(CallTool), 0, false, 0));
      }
    case Advance(t) =>
      if t in s.tasks {
        AdvanceKeepsInv(s, t);
      }
    case Answered(t, r) =>
      if t in s.tasks {
        AnswerKeepsInv(s, t, r);
      }
    case Cancel(t) =>
      if t in s.tasks {
        FinishKeepsInv(s, t, s.connected);
      }
  }

  lemma {:induction false} RunKeepsInv(s: System, events: seq<Event>)
    requires Inv(s)
    ensures Inv(Run(s, events))
    decreases |events|
  {
    if events != [] {
      NextKeepsInv(s, events[0]);
      RunKeepsInv(Next(s, events[0]), events[1..]);
    }
  }
}
