/** A call whose held session is gone, left alone with its server (crates/harness/src/mcp.rs, `Session::call_tool`). */
module McpRecovery {
  import opened McpSession

  lemma ThreeSteps(s: System, a: Event, b: Event, c: Event)
    ensures Run(s, [a, b, c]) == Next(Next(Next(s, a), b), c)
  {
    assert [a, b, c][1..] == [b, c] && [b, c][1..] == [c] && [c][1..] == [];
    assert Run(Next(Next(s, a), b), [c]) == Next(Next(Next(s, a), b), c);
  }

  lemma {:induction false} RunAppend(s: System, a: seq<Event>, b: seq<Event>)
    ensures Run(s, a + b) == Run(Run(s, a), b)
    decreases |a|
  {
    if a == [] {
      assert a + b == b;
    } else {
      assert (a + b)[1..] == a[1..] + b;
      RunAppend(Next(s, a[0]), a[1..], b);
    }
  }

  lemma RefusedPostsInitialize(s: System, t: nat)
    requires t in s.tasks && s.tasks[t].pc.Awaiting? && s.tasks[t].pc.kind.CallTool?
    requires s.tasks[t].pc.state.session.Some? && !s.tasks[t].retried
    ensures var s' := Run(s, [Answered(t, NotFound), Advance(t), Advance(t)]);
            && s'.log == s.log + [Post(t, Initialize, s.tickets + 1, NO_SESSION, 0)]
            && s'.stored == s.stored && s'.tickets == s.tickets + 1 && t in s'.tasks
            && s'.tasks[t].pc == Awaiting(Initialize, NO_SESSION, 0, s.tickets + 1)
            && s'.tasks[t].role == s.tasks[t].role
  {
    ThreeSteps(s, Answered(t, NotFound), Advance(t), Advance(t));
    var s1 := Next(s, Answered(t, NotFound));
    assert s1.tasks[t].pc == Ready(Initialize, NO_SESSION, 0);
    PostsNext(s1, t);
  }

  /** A request that is ready takes a ticket and goes out. */
  lemma PostsNext(s: System, t: nat)
    requires t in s.tasks && s.tasks[t].pc.Ready?
    ensures var (pc, s') := (s.tasks[t].pc, Next(Next(s, Advance(t)), Advance(t)));
            && s'.log == s.log + [Post(t, pc.kind, s.tickets + 1, pc.state, pc.gen)]
            && s'.stored == s.stored && s'.tickets == s.tickets + 1 && t in s'.tasks
            && s'.tasks[t].pc == Awaiting(pc.kind, pc.state, pc.gen, s.tickets + 1)
            && s'.tasks[t].role == s.tasks[t].role
  {
    var s1 := Next(s, Advance(t));
    assert s1.tasks[t].pc == Posting(s.tasks[t].pc.kind, s.tasks[t].pc.state, s.tasks[t].pc.gen, s.tickets + 1);
  }

  lemma GrantedIsAcknowledged(s: System, t: nat, reply: Reply)
    requires t in s.tasks && s.tasks[t].pc.Awaiting? && s.tasks[t].pc.kind.Initialize? && Accept(reply).Some?
    ensures var s' := Run(s, [Answered(t, reply), Advance(t), Answered(t, Accepted)]);
            && s'.log == s.log && s'.stored == s.stored && s'.tickets == s.tickets && t in s'.tasks
            && s'.tasks[t].pc == Storing(Accept(reply).value, s.tasks[t].pc.ticket)
            && s'.tasks[t].role == s.tasks[t].role
  {
    ThreeSteps(s, Answered(t, reply), Advance(t), Answered(t, Accepted));
    var s1 := Next(s, Answered(t, reply));
    assert s1.tasks[t].pc == Notifying(Accept(reply).value, s.tasks[t].pc.ticket);
    assert s1.tasks[t].role == s.tasks[t].role;
    Acknowledged(s1, t);
  }

  lemma Acknowledged(s: System, t: nat)
    requires t in s.tasks && s.tasks[t].pc.Notifying?
    ensures var s' := Next(Next(s, Advance(t)), Answered(t, Accepted));
            && s'.log == s.log && s'.stored == s.stored && s'.tickets == s.tickets && t in s'.tasks
            && s'.tasks[t].pc == Storing(s.tasks[t].pc.pending, s.tasks[t].pc.hs) && s'.tasks[t].role == s.tasks[t].role
  {
    assert Next(s, Advance(t)).tasks[t].pc == AwaitingAck(s.tasks[t].pc.pending, s.tasks[t].pc.hs);
  }

  lemma StoredIsSnapshotted(s: System, t: nat, state: SessionState, hs: nat)
    requires t in s.tasks && s.tasks[t].pc == Storing(state, hs) && s.tasks[t].role.Calling?
    ensures var s' := Run(s, [Advance(t), Advance(t), Advance(t)]);
            && s'.log == s.log && s'.shared == state && s'.stored == s.stored + [Handshake(hs, state)] && t in s'.tasks
            && s'.tasks[t].pc == Posting(CallTool, state, |s.stored| + 1, s.tickets + 1)
  {
    ThreeSteps(s, Advance(t), Advance(t), Advance(t));
  }

  /** Left alone, a call whose held session is gone handshakes once and goes out again under exactly
      the state the server has just granted. */
  lemma RefusedCallRecovers(s: System, t: nat, reply: Reply)
    requires t in s.tasks && s.tasks[t].pc.Awaiting? && s.tasks[t].pc.kind.CallTool? && s.tasks[t].role.Calling?
    requires s.tasks[t].pc.state.session.Some? && !s.tasks[t].retried && Accept(reply).Some?
    ensures var s' := Run(s, [Answered(t, NotFound), Advance(t), Advance(t)]
                             + ([Answered(t, reply), Advance(t), Answered(t, Accepted)]
                                + ([Advance(t), Advance(t), Advance(t)] + [Advance(t)])));
            && s'.log == s.log + [Post(t, Initialize, s.tickets + 1, NO_SESSION, 0),
                                  Post(t, CallTool, s.tickets + 2, Accept(reply).value, |s.stored| + 1)]
            && s'.shared == Accept(reply).value
  {
    var (refused, granted, again) := ([Answered(t, NotFound), Advance(t), Advance(t)],
                                      [Answered(t, reply), Advance(t), Answered(t, Accepted)],
                                      [Advance(t), Advance(t), Advance(t)]);
    RunAppend(s, refused, granted + (again + [Advance(t)]));
    RefusedPostsInitialize(s, t);
    var s1 := Run(s, refused);
    RunAppend(s1, granted, again + [Advance(t)]);
    GrantedIsAcknowledged(s1, t, reply);
    var s2 := Run(s1, granted);
    RunAppend(s2, again, [Advance(t)]);
    StoredIsSnapshotted(s2, t, Accept(reply).value, s1.tasks[t].pc.ticket);
    var s3 := Run(s2, again);
    OneStep(s3, Advance(t));
    assert s1.log + [Post(t, CallTool, s.tickets + 2, Accept(reply).value, |s.stored| + 1)]
        == s.log + [Post(t, Initialize, s.tickets + 1, NO_SESSION, 0),
                    Post(t, CallTool, s.tickets + 2, Accept(reply).value, |s.stored| + 1)];
  }

  lemma OneStep(s: System, e: Event)
    ensures Run(s, [e]) == Next(s, e)
  {
    assert [e][1..] == [];
  }
}
