/** Registering the tools of many servers, all of a server's or none
    (crates/harness/src/mcp.rs, `register_mcp_tools`, `connect_and_register`;
    crates/harness/src/tool.rs, `ToolRegistry`). */
module Registry {
  import opened McpError
  import opened Outcomes

  const RESERVED: set<string> := {"bash", "edit_file", "finish", "list_files", "read_file", "run_checks"}

  // A tool and the server it proxies to (`None` for a native one).
  datatype Tool = Tool(name: string, server: Option<string>)

  type Tools = map<string, Tool>

  class ToolRegistry {
    var tools: Tools

    constructor (initial: Tools)
      ensures tools == initial
    {
      tools := initial;
    }

    method Register(name: string, tool: Tool)
      modifies this
      ensures tools == old(tools)[name := tool]
    {
      tools := tools[name := tool];
    }
  }

  // ----- One batch -----

  function Names(batch: seq<Tool>): seq<string> {
    seq(|batch|, i requires 0 <= i < |batch| => batch[i].name)
  }

  /** A name may not be reserved, registered, or used earlier in the batch. */
  predicate Collides(registered: Tools, batch: seq<Tool>, i: nat)
    requires i < |batch|
  {
    batch[i].name in RESERVED || batch[i].name in registered || batch[i].name in Names(batch[..i])
  }

  predicate Clean(registered: Tools, batch: seq<Tool>) {
    forall i | 0 <= i < |batch| :: !Collides(registered, batch, i)
  }

  /** The error names the first entry of the batch that collides. */
  ghost predicate NamesFirstCollision(registered: Tools, batch: seq<Tool>, error: McpError) {
    exists i :: 0 <= i < |batch| && error == NameCollision(batch[i].name) && Collides(registered, batch, i)
                && forall j | 0 <= j < i :: !Collides(registered, batch, j)
  }

  /** A name collides when it is one of the six reserved ones, is registered, or stands earlier in the batch. */
  lemma CollidesExactly(registered: Tools, batch: seq<Tool>, i: nat)
    requires i < |batch|
    ensures |Names(batch)| == |batch| && Names(batch)[i] == batch[i].name
    ensures Collides(registered, batch, i) <==>
            var name := batch[i].name;
            || name == "bash" || name == "edit_file" || name == "finish"
            || name == "list_files" || name == "read_file" || name == "run_checks"
            || name in registered || exists j :: 0 <= j < i && batch[j].name == name
  {
    var name := batch[i].name;
    if name in Names(batch[..i]) {
      var j :| 0 <= j < i && Names(batch[..i])[j] == name;
    }
    if j :| 0 <= j < i && batch[j].name == name {
      assert Names(batch[..i])[j] == name;
    }
  }

  /** The batch as a map; later entries would win, but a clean batch repeats no name. */
  function AsMap(batch: seq<Tool>): Tools {
    if batch == [] then map[] else AsMap(batch[..|batch| - 1])[batch[|batch| - 1].name := batch[|batch| - 1]]
  }

  /** Registers the whole batch when every name is free; otherwise names the first collision and
      leaves the registry as it was. */
  method RegisterMcpTools(registry: ToolRegistry, batch: seq<Tool>) returns (r: Result<seq<string>, McpError>)
    modifies registry
    ensures Clean(old(registry.tools), batch) ==>
              r == Ok(Names(batch)) && registry.tools == old(registry.tools) + AsMap(batch)
    ensures !Clean(old(registry.tools), batch) ==>
              registry.tools == old(registry.tools) && r.Err? && NamesFirstCollision(registry.tools, batch, r.error)
  {
    var names: seq<string> := [];
    for i := 0 to |batch|
      invariant registry.tools == old(registry.tools)
      invariant names == Names(batch[..i])
      invariant forall j | 0 <= j < i :: !Collides(registry.tools, batch, j)
    {
      var name := batch[i].name;
      if name in RESERVED || name in registry.tools || name in names {
        assert Collides(registry.tools, batch, i);
        return Err(NameCollision(name));
      }
      names := names + [name];
      assert names == Names(batch[..i + 1]);
    }
    assert batch[..|batch|] == batch;
    for i := 0 to |batch|
      invariant registry.tools == old(registry.tools) + AsMap(batch[..i])
    {
      assert batch[..i + 1][..i] == batch[..i];
      registry.Register(names[i], batch[i]);
    }
    r := Ok(names);
  }

  lemma {:induction false} AsMapKeys(batch: seq<Tool>)
    ensures forall n :: n in AsMap(batch) <==> n in Names(batch)
    ensures forall n | n in AsMap(batch) :: AsMap(batch)[n].name == n && AsMap(batch)[n] in batch
    decreases |batch|
  {
    if batch != [] {
      var (front, last) := (batch[..|batch| - 1], batch[|batch| - 1]);
      AsMapKeys(front);
      assert Names(batch) == Names(front) + [last.name];
      assert batch == front + [last];
    }
  }

  /** What a registered batch adds is disjoint from what was there, touches no reserved name, and
      holds every tool of the batch under its own name. */
  lemma CleanBatchAddsDisjointly(registered: Tools, batch: seq<Tool>)
    requires Clean(registered, batch)
    ensures AsMap(batch).Keys !! registered.Keys && AsMap(batch).Keys !! RESERVED
    ensures forall i | 0 <= i < |batch| :: batch[i].name in AsMap(batch) && AsMap(batch)[batch[i].name] == batch[i]
    ensures |AsMap(batch)| == |batch|
  {
    CleanBatchIsNew(registered, batch);
    CleanBatchIsExact(registered, batch);
  }

  lemma CleanBatchIsNew(registered: Tools, batch: seq<Tool>)
    requires Clean(registered, batch)
    ensures forall n | n in AsMap(batch) :: n !in registered && n !in RESERVED
  {
    AsMapKeys(batch);
    forall n | n in AsMap(batch) ensures n !in registered && n !in RESERVED {
      var i :| 0 <= i < |batch| && Names(batch)[i] == n;
      assert !Collides(registered, batch, i);
    }
  }

  lemma CleanPrefix(registered: Tools, batch: seq<Tool>, n: nat)
    requires Clean(registered, batch) && n <= |batch|
    ensures Clean(registered, batch[..n])
  {
    forall i | 0 <= i < n ensures !Collides(registered, batch[..n], i) {
      assert batch[..n][..i] == batch[..i];
      assert !Collides(registered, batch, i);
    }
  }

  lemma {:induction false} CleanBatchIsExact(registered: Tools, batch: seq<Tool>)
    requires Clean(registered, batch)
    ensures forall i | 0 <= i < |batch| :: batch[i].name in AsMap(batch) && AsMap(batch)[batch[i].name] == batch[i]
    ensures |AsMap(batch)| == |batch|
    decreases |batch|
  {
    if batch != [] {
      var n := |batch| - 1;
      var front := batch[..n];
      CleanPrefix(registered, batch, n);
      CleanBatchIsExact(registered, front);
      AsMapKeys(front);
      assert !Collides(registered, batch, n);
      assert batch[n].name !in AsMap(front);
      forall i | 0 <= i < n
        ensures batch[i].name in AsMap(batch) && AsMap(batch)[batch[i].name] == batch[i]
      {
        assert front[i] == batch[i];
      }
    }
  }

  // ----- Many servers -----

  // A server to connect to, with what its connect comes to.
  datatype Server = Server(name: string, outcome: Result<seq<Tool>, McpError>)

  datatype Report = Connected(name: string, tools: seq<string>) | Failed(name: string, error: McpError)

  /** The report and the registry after connecting one server. */
  ghost predicate ServerStep(before: Tools, server: Server, report: Report, after: Tools) {
    if server.outcome.Ok? && Clean(before, server.outcome.value) then
      && report == Connected(server.name, Names(server.outcome.value))
      && after == before + AsMap(server.outcome.value)
    else
      && report.Failed? && report.name == server.name && after == before
      && (server.outcome.Err? ==> report.error == server.outcome.error)
      && (server.outcome.Ok? ==> NamesFirstCollision(before, server.outcome.value, report.error))
  }

  /** `states[i]` is the registry before server `i`. */
  ghost predicate History(initial: Tools, servers: seq<Server>, reports: seq<Report>, states: seq<Tools>) {
    && |reports| == |servers| && |states| == |servers| + 1 && states[0] == initial
    && forall i | 0 <= i < |servers| :: ServerStep(states[i], servers[i], reports[i], states[i + 1])
  }

  method ConnectAndRegister(registry: ToolRegistry, servers: seq<Server>)
    returns (reports: seq<Report>, ghost states: seq<Tools>)
    modifies registry
    ensures History(old(registry.tools), servers, reports, states) && registry.tools == states[|servers|]
  {
    reports, states := [], [registry.tools];
    for i := 0 to |servers|
      invariant |reports| == i && |states| == i + 1 && states[0] == old(registry.tools) && registry.tools == states[i]
      invariant forall k | 0 <= k < i :: ServerStep(states[k], servers[k], reports[k], states[k + 1])
    {
      var server := servers[i];
      var outcome: Result<seq<string>, McpError>;
      match server.outcome {
        case Err(e) => outcome := Err(e);
        case Ok(batch) => outcome := RegisterMcpTools(registry, batch);
      }
      var report := match outcome case Ok(names) => Connected(server.name, names) case Err(e) => Failed(server.name, e);
      assert ServerStep(states[i], server, report, registry.tools);
      reports, states := reports + [report], states + [registry.tools];
    }
  }

  /** Server `i` is reported connected and offered `tool`. */
  ghost predicate Gave(servers: seq<Server>, reports: seq<Report>, i: nat, tool: Tool) {
    && i < |servers| && i < |reports| && reports[i].Connected?
    && servers[i].outcome.Ok? && tool in servers[i].outcome.value
  }

  lemma StepAdds(before: Tools, server: Server, report: Report, after: Tools)
    requires ServerStep(before, server, report, after)
    ensures before.Keys <= after.Keys && forall n | n in before :: after[n] == before[n]
    ensures forall n | n in after && n !in before ::
              && n !in RESERVED && after[n].name == n
              && report.Connected? && server.outcome.Ok? && after[n] in server.outcome.value
    ensures report.Connected? ==> server.outcome.Ok? && forall t | t in server.outcome.value ::
                                    t.name !in before && t.name in after && after[t.name] == t
  {
    if report.Connected? {
      var batch := server.outcome.value;
      CleanBatchAddsDisjointly(before, batch);
      AsMapKeys(batch);
      forall t | t in batch ensures t.name !in before && t.name in after && after[t.name] == t {
        var k :| 0 <= k < |batch| && batch[k] == t;
      }
    }
  }

  /** Registration only ever adds: earlier tools stay, under any later server. */
  lemma {:induction false} RegistryGrows(initial: Tools, servers: seq<Server>, reports: seq<Report>, states: seq<Tools>,
                                         i: nat, j: nat)
    requires History(initial, servers, reports, states) && i <= j <= |servers|
    ensures states[i].Keys <= states[j].Keys && forall n | n in states[i] :: states[j][n] == states[i][n]
    decreases j
  {
    if i < j {
      RegistryGrows(initial, servers, reports, states, i, j - 1);
      StepAdds(states[j - 1], servers[j - 1], reports[j - 1], states[j]);
    }
  }

  lemma {:induction false} EverythingAddedIsConnected(initial: Tools, servers: seq<Server>, reports: seq<Report>,
                                                      states: seq<Tools>, k: nat, n: string) returns (i: nat)
    requires History(initial, servers, reports, states) && k <= |servers| && n in states[k] && n !in initial
    ensures n !in RESERVED && states[k][n].name == n && Gave(servers, reports, i, states[k][n])
    decreases k
  {
    StepAdds(states[k - 1], servers[k - 1], reports[k - 1], states[k]);
    if n in states[k - 1] {
      i := EverythingAddedIsConnected(initial, servers, reports, states, k - 1, n);
    } else {
      i := k - 1;
    }
  }

  lemma GivenToolsAreRegistered(initial: Tools, servers: seq<Server>, reports: seq<Report>, states: seq<Tools>,
                                i: nat, t: Tool)
    requires History(initial, servers, reports, states) && Gave(servers, reports, i, t)
    ensures t.name !in states[i] && t.name in states[i + 1] && states[i + 1][t.name] == t
    ensures t.name !in initial && t.name in states[|servers|] && states[|servers|][t.name] == t
  {
    StepAdds(states[i], servers[i], reports[i], states[i + 1]);
    RegistryGrows(initial, servers, reports, states, 0, i);
    RegistryGrows(initial, servers, reports, states, i + 1, |servers|);
  }

  /** The final registry is the initial one, untouched, plus exactly the tools of the connected
      servers, under no reserved name; a failed server adds nothing. */
  lemma RegistrationIsAllOrNothing(initial: Tools, servers: seq<Server>, reports: seq<Report>, states: seq<Tools>)
    requires History(initial, servers, reports, states)
    ensures var final := states[|servers|];
            && initial.Keys <= final.Keys && (forall n | n in initial :: final[n] == initial[n])
            && (forall n | n in final && n !in initial ::
                  n !in RESERVED && final[n].name == n && exists i :: Gave(servers, reports, i, final[n]))
            && (forall i, t | Gave(servers, reports, i, t) ::
                  t.name !in initial && t.name in final && final[t.name] == t)
  {
    var final := states[|servers|];
    RegistryGrows(initial, servers, reports, states, 0, |servers|);
    forall n | n in final && n !in initial
      ensures n !in RESERVED && final[n].name == n && exists i :: Gave(servers, reports, i, final[n])
    {
      var i := EverythingAddedIsConnected(initial, servers, reports, states, |servers|, n);
    }
    forall i, t | Gave(servers, reports, i, t)
      ensures t.name !in initial && t.name in final && final[t.name] == t
    {
      GivenToolsAreRegistered(initial, servers, reports, states, i, t);
    }
  }

  /** There is one report per server, in order, and a connected one lists all of its tools. */
  lemma ReportsMatchServers(initial: Tools, servers: seq<Server>, reports: seq<Report>, states: seq<Tools>, i: nat)
    requires History(initial, servers, reports, states) && i < |servers|
    ensures |reports| == |servers| && reports[i].name == servers[i].name
    ensures reports[i].Connected? ==> servers[i].outcome.Ok? && reports[i].tools == Names(servers[i].outcome.value)
    ensures reports[i].Failed? ==> states[i + 1] == states[i]
  {
    assert ServerStep(states[i], servers[i], reports[i], states[i + 1]);
  }

  /** Two connected servers never share a tool name. */
  lemma ConnectedServersAreDisjoint(initial: Tools, servers: seq<Server>, reports: seq<Report>, states: seq<Tools>,
                                    i: nat, j: nat, t: Tool, u: Tool)
    requires History(initial, servers, reports, states) && i < j
    requires Gave(servers, reports, i, t) && Gave(servers, reports, j, u)
    ensures t.name != u.name
  {
    GivenToolsAreRegistered(initial, servers, reports, states, i, t);
    GivenToolsAreRegistered(initial, servers, reports, states, j, u);
    RegistryGrows(initial, servers, reports, states, i + 1, j);
  }
}
