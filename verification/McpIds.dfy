/** Which runs keep their request ids apart on the wire (crates/harness/src/mcp.rs, `Session::request`). */
module McpIds {
  import opened McpRecovery
  import McpSafety
  import opened McpSession
  import opened Outcomes
  import SessionInvariant
  import opened Words

  const VERSION: string := "2025-11-25"

  // What the server answers to `initialize`, and the state that establishes.
  const WELCOME: Reply := InitResult(Some(VERSION), None)
  const WELCOMED: SessionState := SessionState(None, Some(VERSION))

  // ----- Runs of any length -----

  /** `n` requests are out, under the first `n` tickets in order, and futures from `n` on are still to come. */
  predicate Posted(s: System, n: nat) {
    && s.connected && s.tickets == n && |s.log| == n
    && (forall i | 0 <= i < n :: s.log[i].ticket == i + 1)
    && (forall t | t in s.tasks :: t < n)
  }

  const CONNECTING: seq<Event> := [Connect(0), Advance(0), Advance(0)]
  const GREETING: seq<Event> := [Answered(0, WELCOME), Advance(0), Answered(0, Accepted)]
  const LISTING: seq<Event> := [Advance(0), Advance(0), Advance(0)]
  const LISTED: seq<Event> := [Advance(0), Answered(0, Page(false))]

  lemma ConnectPosts()
    ensures var s := Run(START, CONNECTING);
            && s.log == [Post(0, Initialize, 1, NO_SESSION, 0)] && s.stored == [] && s.tickets == 1
            && s.tasks.Keys == {0} && s.tasks[0].pc == Awaiting(Initialize, NO_SESSION, 0, 1)
            && s.tasks[0].role == Connecting && s.tasks[0].pages == 0
  {
    ThreeSteps(START, Connect(0), Advance(0), Advance(0));
    var s1 := Next(START, Connect(0));
    assert s1.tasks == map[0 := Task(Connecting, Ready(Initialize, NO_SESSION, 0), 0, false, 0)];
    var s2 := Next(s1, Advance(0));
    assert s2.tasks == map[0 := Task(Connecting, Posting(Initialize, NO_SESSION, 0, 1), 0, false, 0)];
  }

  lemma GreetingStores(s: System)
    requires s.tasks.Keys == {0} && s.tasks[0].pc == Awaiting(Initialize, NO_SESSION, 0, 1)
    requires s.tasks[0].role == Connecting && s.tasks[0].pages == 0
    ensures var s' := Run(s, GREETING);
            && s'.log == s.log && s'.stored == s.stored && s'.tickets == s.tickets
            && s'.tasks.Keys == {0} && s'.tasks[0].pc == Storing(WELCOMED, 1)
            && s'.tasks[0].role == Connecting && s'.tasks[0].pages == 0
  {
    ThreeSteps(s, Answered(0, WELCOME), Advance(0), Answered(0, Accepted));
    assert Accept(WELCOME) == Some(WELCOMED);
    var s1 := Next(s, Answered(0, WELCOME));
    assert s1.tasks == s.tasks[0 := s.tasks[0].(pc := Notifying(WELCOMED, 1))];
    var s2 := Next(s1, Advance(0));
    assert s2.tasks == s.tasks[0 := s.tasks[0].(pc := AwaitingAck(WELCOMED, 1))];
  }

  lemma ListingIsReady(s: System)
    requires s.tasks.Keys == {0} && s.tasks[0].pc == Storing(WELCOMED, 1) && s.stored == []
    requires s.tasks[0].role == Connecting && s.tasks[0].pages == 0
    ensures var s' := Run(s, LISTING);
            && s'.log == s.log && s'.tickets == s.tickets + 1 && s'.tasks.Keys == {0}
            && s'.tasks[0].pc == Posting(ListTools, WELCOMED, 1, s.tickets + 1)
  {
    ThreeSteps(s, Advance(0), Advance(0), Advance(0));
    var s1 := Next(s, Advance(0));
    assert s1.tasks == s.tasks[0 := s.tasks[0].(pc := Snapshotting(ListTools))];
    var s2 := Next(s1, Advance(0));
    assert s2.tasks == s.tasks[0 := s.tasks[0].(pc := Ready(ListTools, WELCOMED, 1), pages := 1)];
  }

  lemma ListingConnects(s: System)
    requires s.tasks.Keys == {0} && s.tasks[0].pc == Posting(ListTools, WELCOMED, 1, 2) && s.tickets == 2
    requires s.log == [Post(0, Initialize, 1, NO_SESSION, 0)]
    ensures Posted(Run(s, LISTED), 2)
  {
    assert LISTED[1..] == [Answered(0, Page(false))];
    var s1 := Next(s, Advance(0));
    OneStep(s1, Answered(0, Page(false)));
    assert s1.tasks == s.tasks[0 := s.tasks[0].(pc := Awaiting(ListTools, WELCOMED, 1, 2))];
  }

  /** A connect sequence that succeeds posts two requests. */
  lemma ConnectedRun() returns (events: seq<Event>)
    ensures Posted(Run(START, events), 2)
  {
    events := CONNECTING + (GREETING + (LISTING + LISTED));
    RunAppend(START, CONNECTING, GREETING + (LISTING + LISTED));
    ConnectPosts();
    var s1 := Run(START, CONNECTING);
    RunAppend(s1, GREETING, LISTING + LISTED);
    GreetingStores(s1);
    var s2 := Run(s1, GREETING);
    RunAppend(s2, LISTING, LISTED);
    ListingIsReady(s2);
    ListingConnects(Run(s2, LISTING));
  }

  /** Once connected, a call posts one more request. */
  lemma CallPosts(s: System, n: nat)
    requires Posted(s, n)
    ensures Posted(Run(Run(s, [Call(n), Advance(n)]), [Advance(n), Advance(n)]), n + 1)
  {
    var s1 := Next(s, Call(n));
    var s2 := Next(s1, Advance(n));
    assert [Call(n), Advance(n)][1..] == [Advance(n)] && [Advance(n), Advance(n)][1..] == [Advance(n)];
    OneStep(s1, Advance(n));
    OneStep(Next(s2, Advance(n)), Advance(n));
    assert s1.tasks == s.tasks[n := Task(Calling, Snapshotting(CallTool), 0, false, 0)];
    assert s2.tasks == s.tasks[n := Task(Calling, Ready(CallTool, s.shared, |s.stored|), 0, false, 0)];
    PostsNext(s2, n);
    assert forall t | t in Next(Next(s2, Advance(n)), Advance(n)).tasks :: t in s.tasks || t == n;
  }

  /** There are runs with any number of requests. */
  lemma {:induction false} LongRun(n: nat) returns (events: seq<Event>)
    requires n >= 2
    ensures Posted(Run(START, events), n)
    decreases n
  {
    if n == 2 {
      events := ConnectedRun();
    } else {
      events := LongRun(n - 1);
      var t := n - 1;
      CallPosts(Run(START, events), t);
      RunAppend(START, events, [Call(t), Advance(t)]);
      RunAppend(START, events + [Call(t), Advance(t)], [Advance(t), Advance(t)]);
      events := events + [Call(t), Advance(t)] + [Advance(t), Advance(t)];
    }
  }

  // ----- Listing up to the page limit -----

  /** The connecting future waits for page `n`, having posted that many list requests. */
  predicate ListingPage(s: System, n: nat) {
    && 0 in s.tasks && s.tasks[0].pc.Awaiting? && s.tasks[0].pc.kind.ListTools?
    && s.tasks[0].role.Connecting? && s.tasks[0].pages == n && Count(s.log, 0, ListTools) == n
  }

  lemma FirstPage(s: System)
    requires s.tasks.Keys == {0} && s.tasks[0].pc == Storing(WELCOMED, 1) && s.stored == []
    requires s.tasks[0].role == Connecting && s.tasks[0].pages == 0
    requires s.log == [Post(0, Initialize, 1, NO_SESSION, 0)]
    ensures ListingPage(Next(Run(s, LISTING), Advance(0)), 1)
  {
    ListingIsReady(s);
    ThreeSteps(s, Advance(0), Advance(0), Advance(0));
    var s2 := Next(Next(s, Advance(0)), Advance(0));
    assert s2.tasks[0].pages == 1 && s2.tasks[0].role == Connecting;
    var s3 := Run(s, LISTING);
    SessionInvariant.PostedIsCounted(s3.log, Post(0, ListTools, s3.tasks[0].pc.ticket, WELCOMED, 1), ListTools);
    assert Count(s3.log, 0, ListTools) == 0;
  }

  lemma PageFollowed(s: System, n: nat)
    requires ListingPage(s, n) && n < 64
    ensures ListingPage(Run(Run(s, [Answered(0, Page(true)), Advance(0)]), [Advance(0), Advance(0)]), n + 1)
  {
    var s1 := Next(s, Answered(0, Page(true)));
    var s2 := Next(s1, Advance(0));
    assert [Answered(0, Page(true)), Advance(0)][1..] == [Advance(0)] && [Advance(0), Advance(0)][1..] == [Advance(0)];
    OneStep(s1, Advance(0));
    OneStep(Next(s2, Advance(0)), Advance(0));
    assert s2.tasks[0].pc == Ready(ListTools, s.shared, |s.stored|) && s2.tasks[0].pages == n + 1;
    PostsNext(s2, 0);
    SessionInvariant.PostedIsCounted(s.log, Post(0, ListTools, s.tickets + 1, s.shared, |s.stored|), ListTools);
  }

  /** A server that keeps handing on cursors is asked for every page up to the 64th. */
  lemma {:induction false} PagesUpTo(n: nat) returns (events: seq<Event>)
    requires 1 <= n <= 64
    ensures ListingPage(Run(START, events), n)
    decreases n
  {
    if n == 1 {
      ConnectPosts();
      var s1 := Run(START, CONNECTING);
      GreetingStores(s1);
      var s2 := Run(s1, GREETING);
      FirstPage(s2);
      RunAppend(START, CONNECTING, GREETING);
      RunAppend(START, CONNECTING + GREETING, LISTING);
      RunAppend(START, CONNECTING + GREETING + LISTING, [Advance(0)]);
      OneStep(Run(s2, LISTING), Advance(0));
      events := CONNECTING + GREETING + LISTING + [Advance(0)];
    } else {
      events := PagesUpTo(n - 1);
      PageFollowed(Run(START, events), n - 1);
      RunAppend(START, events, [Answered(0, Page(true)), Advance(0)]);
      RunAppend(START, events + [Answered(0, Page(true)), Advance(0)], [Advance(0), Advance(0)]);
      events := events + [Answered(0, Page(true)), Advance(0)] + [Advance(0), Advance(0)];
    }
  }

  // ----- When ids repeat -----

  predicate IdsDiffer(log: seq<Post>) {
    forall i, j | 0 <= i < j < |log| :: WireId(log[i].ticket) != WireId(log[j].ticket)
  }

  /** Every run that hands out at most `n` ids keeps them apart on the wire. */
  ghost predicate IdsDifferUpTo(n: nat) {
    forall events: seq<Event> | Run(START, events).tickets <= n :: IdsDiffer(Run(START, events).log)
  }

  lemma RepeatedId(s: System, n: nat)
    requires Posted(s, n) && n == U64_RANGE + 1
    ensures !IdsDiffer(s.log)
  {
    assert s.log[0].ticket == 1 && s.log[U64_RANGE].ticket == U64_RANGE + 1;
    assert WireId(s.log[0].ticket) == WireId(s.log[U64_RANGE].ticket);
  }

  /** Over all runs: ids stay apart exactly up to 2^64 of them. */
  lemma IdsDifferExactly(n: nat)
    ensures IdsDifferUpTo(n) <==> n <= U64_RANGE
  {
    if n <= U64_RANGE {
      forall events: seq<Event> | Run(START, events).tickets <= n ensures IdsDiffer(Run(START, events).log) {
        var log := Run(START, events).log;
        forall i, j | 0 <= i < j < |log| ensures WireId(log[i].ticket) != WireId(log[j].ticket) {
          McpSafety.IdsAreNeverReused(events, i, j);
        }
      }
    } else {
      var events := LongRun(U64_RANGE + 1);
      RepeatedId(Run(START, events), U64_RANGE + 1);
    }
  }
}
