/** One server session shared by concurrent tool calls (crates/harness/src/mcp.rs, `Session`).

    The futures of the connect sequence and of every `call_tool` are interleaved freely; each step
    below is what runs between two points where another thread may run or the future be dropped. */
module McpSession {
  import opened Outcomes
  import opened Words
  import ToolsList

  const SUPPORTED_VERSIONS: set<string> := {"2025-11-25", "2025-06-18", "2025-03-26"}

  // The headers a request carries after the handshake; both absent before it.
  datatype SessionState = SessionState(session: Option<string>, version: Option<string>)

  const NO_SESSION: SessionState := SessionState(None, None)

  datatype Kind = Initialize | ListTools | CallTool

  datatype Role = Connecting | Calling

  // Where a future stands. `gen` counts the handshakes stored when the state was snapshotted;
  // `ticket` is the value the id counter had been advanced to.
  datatype Pc =
    | Snapshotting(kind: Kind)
    | Ready(kind: Kind, state: SessionState, gen: nat)
    | Posting(kind: Kind, state: SessionState, gen: nat, ticket: nat)
    | Awaiting(kind: Kind, state: SessionState, gen: nat, ticket: nat)
    | Notifying(pending: SessionState, hs: nat)
    | AwaitingAck(pending: SessionState, hs: nat)
    | Storing(pending: SessionState, hs: nat)
    | Finished

  // `retried`: the call's one re-handshake has begun, its first request having carried `firstGen`.
  datatype Task = Task(role: Role, pc: Pc, pages: nat, retried: bool, firstGen: nat)

  // A request on the wire.
  datatype Post = Post(task: nat, kind: Kind, ticket: nat, state: SessionState, gen: nat)

  // A handshake that replaced the session state, named by the ticket of its `initialize`.
  datatype Handshake = Handshake(hs: nat, state: SessionState)

  datatype System = System(
    tickets: nat,                        // how many ids the counter has handed out
    shared: SessionState,                // the state behind the mutex
    stored: seq<Handshake>,              // every replacement of it, in order
    granted: map<nat, SessionState>,     // what each `initialize` was answered with
    acked: set<nat>,                     // handshakes whose `initialized` notification succeeded
    tasks: map<nat, Task>,
    log: seq<Post>,
    connected: bool)

  // What the server, or the transport, does to a pending exchange.
  datatype Reply =
    | InitResult(version: Option<string>, session: Option<string>)
    | Page(more: bool)
    | CallResult
    | NotFound
    | Accepted
    | Failure

  datatype Event =
    | Connect(task: nat)
    | Call(task: nat)
    | Advance(task: nat)
    | Answered(task: nat, reply: Reply)
    | Cancel(task: nat)

  const START: System := System(0, NO_SESSION, [], map[], {}, map[], [], false)

  /** The id the wire carries: the counter starts at 1 and wraps at 64 bits. */
  function WireId(ticket: nat): nat {
    ticket % U64_RANGE
  }

  predicate ValidSessionId(s: string) {
    s != "" && forall i | 0 <= i < |s| :: '\U{21}' <= s[i] <= '\U{7E}'
  }

  /** The state an `initialize` answer establishes, if the client accepts it. */
  function Accept(r: Reply): Option<SessionState> {
    if r.InitResult? && r.version.Some? && r.version.value in SUPPORTED_VERSIONS
       && (r.session.Some? ==> ValidSessionId(r.session.value))
    then Some(SessionState(r.session, r.version))
    else None
  }

  // ----- Steps -----

  function Put(s: System, t: nat, task: Task): System {
    s.(tasks := s.tasks[t := task])
  }

  function MoveTo(s: System, t: nat, pc: Pc): System
    requires t in s.tasks
  {
    Put(s, t, s.tasks[t].(pc := pc))
  }

  /** Copy the shared state for the next request; a 65th page is refused here instead. */
  function TakeSnapshot(s: System, t: nat, kind: Kind): System
    requires t in s.tasks
  {
    var task := s.tasks[t];
    if kind.ListTools? && task.pages == ToolsList.MAX_PAGES then MoveTo(s, t, Finished)
    else Put(s, t, task.(pc := Ready(kind, s.shared, |s.stored|),
                         pages := if kind.ListTools? then task.pages + 1 else task.pages))
  }

  function TakeTicket(s: System, t: nat, kind: Kind, state: SessionState, gen: nat): System
    requires t in s.tasks
  {
    MoveTo(s.(tickets := s.tickets + 1), t, Posting(kind, state, gen, s.tickets + 1))
  }

  function SendPost(s: System, p: Post): System
    requires p.task in s.tasks
  {
    MoveTo(s.(log := s.log + [p]), p.task, Awaiting(p.kind, p.state, p.gen, p.ticket))
  }

  function StoreState(s: System, t: nat, pending: SessionState, hs: nat): System
    requires t in s.tasks
  {
    MoveTo(s.(shared := pending, stored := s.stored + [Handshake(hs, pending)]), t,
           Snapshotting(if s.tasks[t].role.Connecting? then ListTools else CallTool))
  }

  /** A step the future takes by itself. */
  function AdvanceTask(s: System, t: nat): System
    requires t in s.tasks
  {
    match s.tasks[t].pc
    case Snapshotting(kind) => TakeSnapshot(s, t, kind)
    case Ready(kind, state, gen) => TakeTicket(s, t, kind, state, gen)
    case Posting(kind, state, gen, ticket) => SendPost(s, Post(t, kind, ticket, state, gen))
    case Notifying(pending, hs) => MoveTo(s, t, AwaitingAck(pending, hs))
    case Storing(pending, hs) => StoreState(s, t, pending, hs)
    case _ => s
  }

  /** The outcome of the exchange the future is waiting for. */
  function AnswerTask(s: System, t: nat, r: Reply): System
    requires t in s.tasks
  {
    var task := s.tasks[t];
    match task.pc
    case Awaiting(Initialize, _, _, ticket) =>
      (match Accept(r)
       case Some(state) => MoveTo(s.(granted := s.granted[ticket := state]), t, Notifying(state, ticket))
       case None => MoveTo(s, t, Finished))
    case Awaiting(ListTools, _, _, _) =>
      if r == Page(true) then MoveTo(s, t, Snapshotting(ListTools))
      else MoveTo(s.(connected := s.connected || r == Page(false)), t, Finished)
    case Awaiting(CallTool, state, gen, _) =>
      if r.NotFound? && state.session.Some? && !task.retried then
        Put(s, t, task.(pc := Ready(Initialize, NO_SESSION, 0), retried := true, firstGen := gen))
      else MoveTo(s, t, Finished)
    case AwaitingAck(pending, hs) =>
      if r.Accepted? then MoveTo(s.(acked := s.acked + {hs}), t, Storing(pending, hs)) else MoveTo(s, t, Finished)
    case _ => s
  }

  /** One event; an event that cannot happen changes nothing. Tools exist only once connected. */
  function Next(s: System, e: Event): System {
    match e
    case Connect(t) =>
      if s.tasks == map[] then Put(s, t, Task(Connecting, Ready(Initialize, NO_SESSION, 0), 0, false, 0)) else s
    case Call(t) =>
      if s.connected && t !in s.tasks then Put(s, t, Task(Calling, Snapshotting(CallTool), 0, false, 0)) else s
    case Advance(t) => if t in s.tasks then AdvanceTask(s, t) else s
    case Answered(t, r) => if t in s.tasks then AnswerTask(s, t, r) else s
    case Cancel(t) => if t in s.tasks then MoveTo(s, t, Finished) else s
  }

  function Run(s: System, events: seq<Event>): System
    decreases |events|
  {
    if events == [] then s else Run(Next(s, events[0]), events[1..])
  }

  // ----- What holds at every moment -----

  function Count(log: seq<Post>, t: nat, kind: Kind): nat {
    if log == [] then 0
    else Count(log[..|log| - 1], t, kind) + if log[|log| - 1].task == t && log[|log| - 1].kind == kind then 1 else 0
  }

  /** The id a future has taken and not yet had answered, if any. */
  function OpenTicket(pc: Pc): Option<nat> {
    match pc
    case Posting(_, _, _, ticket) => Some(ticket)
    case Awaiting(_, _, _, ticket) => Some(ticket)
    case _ => None
  }

  /** `state` is the whole of the `gen`-th stored handshake. */
  predicate FromHandshake(s: System, state: SessionState, gen: nat) {
    1 <= gen <= |s.stored| && state == s.stored[gen - 1].state
  }

  /** The `gen`-th stored handshake holds a session. */
  predicate HeldSession(s: System, gen: nat) {
    1 <= gen <= |s.stored| && s.stored[gen - 1].state.session.Some?
  }

  /** The future has posted a `tools/call` under the `gen`-th stored handshake. */
  predicate CalledUnder(log: seq<Post>, t: nat, gen: nat) {
    exists i :: 0 <= i < |log| && log[i].task == t && log[i].kind.CallTool? && log[i].gen == gen
  }

  predicate RequestOk(s: System, task: Task, kind: Kind, state: SessionState, gen: nat) {
    if kind.Initialize? then state == NO_SESSION && (task.role.Calling? ==> task.retried)
    else
      && FromHandshake(s, state, gen)
      && kind == (if task.role.Connecting? then ListTools else CallTool)
      && (task.retried ==> task.firstGen < gen)
  }

  predicate PcOk(s: System, task: Task) {
    match task.pc
    case Snapshotting(kind) =>
      && kind == (if task.role.Connecting? then ListTools else CallTool)
      && s.stored != [] && (task.retried ==> task.firstGen < |s.stored|)
    case Ready(kind, state, gen) => RequestOk(s, task, kind, state, gen)
    case Posting(kind, state, gen, ticket) =>
      RequestOk(s, task, kind, state, gen) && 1 <= ticket <= s.tickets && ticket !in s.granted
      && forall i | 0 <= i < |s.log| :: s.log[i].ticket != ticket
    case Awaiting(kind, state, gen, ticket) =>
      RequestOk(s, task, kind, state, gen) && 1 <= ticket <= s.tickets && ticket !in s.granted
    case Notifying(pending, hs) => hs in s.granted && s.granted[hs] == pending && (task.role.Calling? ==> task.retried)
    case AwaitingAck(pending, hs) =>
      hs in s.granted && s.granted[hs] == pending && (task.role.Calling? ==> task.retried)
    case Storing(pending, hs) =>
      hs in s.granted && s.granted[hs] == pending && hs in s.acked && (task.role.Calling? ==> task.retried)
    case Finished => true
  }

  /** How many requests of each kind the future may have posted by now. */
  function Allowance(task: Task, kind: Kind): nat {
    var opening := (task.pc.Ready? || task.pc.Posting?) && task.pc.kind == kind;
    match kind
    case Initialize =>
      if opening || (task.role.Calling? && !task.retried) then 0 else 1
    case ListTools =>
      if task.role.Calling? then 0 else if opening && task.pages > 0 then task.pages - 1 else task.pages
    case CallTool =>
      if task.role.Connecting? then 0
      else (if task.retried then 1 else 0)
           + (if task.pc.Finished? || (task.pc.Awaiting? && task.pc.kind == CallTool) then 1 else 0)
  }

  /** Every `tools/call` the future has posted carried an older state than its next one will. */
  predicate CallsAged(s: System, t: nat, task: Task) {
    forall i | 0 <= i < |s.log| && s.log[i].task == t && s.log[i].kind.CallTool? ::
      match task.pc
      case Finished => true
      case Awaiting(CallTool, _, gen, _) => s.log[i].gen <= gen
      case _ => task.retried && s.log[i].gen <= task.firstGen
  }

  predicate TaskGood(s: System, t: nat, task: Task) {
    && PcOk(s, task)
    && task.pages <= ToolsList.MAX_PAGES && task.firstGen <= |s.stored|
    && (task.pc.Ready? || task.pc.Posting? ==> task.pc.kind.ListTools? ==> task.pages > 0)
    && (task.role.Connecting? ==> !task.retried)
    && (task.retried ==> HeldSession(s, task.firstGen) && CalledUnder(s.log, t, task.firstGen))
    && (task.pc.Awaiting? && task.pc.kind.CallTool? ==> CalledUnder(s.log, t, task.pc.gen))
    && (forall kind :: Count(s.log, t, kind) <= Allowance(task, kind))
    && CallsAged(s, t, task)
  }

  predicate StoredOk(s: System) {
    && (forall i | 0 <= i < |s.stored| ::
          var h := s.stored[i];
          h.hs in s.granted && s.granted[h.hs] == h.state && h.hs in s.acked)
    && (forall hs | hs in s.granted :: hs <= s.tickets && Granted(s.granted[hs]))
    && s.shared == (if s.stored == [] then NO_SESSION else s.stored[|s.stored| - 1].state)
    && (s.connected ==> s.stored != [])
  }

  /** A state the client accepted: a supported version, and a session id only if it is well-formed. */
  predicate Granted(state: SessionState) {
    && state.version.Some? && state.version.value in SUPPORTED_VERSIONS
    && (state.session.Some? ==> ValidSessionId(state.session.value))
  }

  predicate EntryOk(s: System, p: Post) {
    && 1 <= p.ticket <= s.tickets && p.task in s.tasks
    && if p.kind.Initialize? then p.state == NO_SESSION else FromHandshake(s, p.state, p.gen)
  }

  predicate TicketsDiffer(log: seq<Post>) {
    forall i, j | 0 <= i < j < |log| :: log[i].ticket != log[j].ticket
  }

  predicate CallsGetNewer(log: seq<Post>) {
    forall i, j | 0 <= i < j < |log| && log[i].task == log[j].task && log[i].kind.CallTool? && log[j].kind.CallTool? ::
      log[i].gen < log[j].gen
  }

  predicate LogOk(s: System) {
    && (forall i | 0 <= i < |s.log| :: EntryOk(s, s.log[i]))
    && TicketsDiffer(s.log) && CallsGetNewer(s.log)
  }

  predicate TicketsOk(s: System) {
    forall t, u | t in s.tasks && u in s.tasks && t != u && OpenTicket(s.tasks[t].pc).Some? ::
      OpenTicket(s.tasks[t].pc) != OpenTicket(s.tasks[u].pc)
  }

  predicate Inv(s: System) {
    && StoredOk(s) && LogOk(s) && TicketsOk(s)
    && forall t | t in s.tasks :: TaskGood(s, t, s.tasks[t])
  }
}
