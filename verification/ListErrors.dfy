/** What a server has to send, and which error listing its tools ends in otherwise
    (crates/harness/src/mcp.rs, `list_tools`, `valid_tool_name`, `validate_tool`). */
module ListErrors {
  import opened Json
  import opened McpError
  import opened Outcomes
  import opened Sequences
  import opened ToolsList

  // ----- Names and pages -----

  /** A letter, a digit, a hyphen or an underscore of ASCII. */
  predicate NameLetter(c: char) {
    var n := c as int;
    0x41 <= n <= 0x5A || 0x61 <= n <= 0x7A || 0x30 <= n <= 0x39 || n == 0x2D || n == 0x5F
  }

  predicate WellNamed(name: string) {
    1 <= |name| <= 64 && forall i | 0 <= i < |name| :: NameLetter(name[i])
  }

  /** The names a tool may have. */
  lemma WellNamedExactly(name: string)
    ensures ValidToolName(name) <==> WellNamed(name)
  {
    assert forall i | 0 <= i < |name| :: NameChar(name[i]) <==> NameLetter(name[i]);
  }

  /** A page's tools are the items of its array of that name; it points on by a string, and ends the
      listing when it holds no cursor or a null. */
  lemma PageExactly(page: Json, items: seq<Json>, cursor: string)
    ensures EntriesOf(page) == Some(items) <==>
            page.JObject? && "tools" in page.fields && page.fields["tools"] == JArray(items)
    ensures LinkOf(page) == Follow(cursor) <==>
            page.JObject? && "nextCursor" in page.fields && page.fields["nextCursor"] == JString(cursor)
    ensures LinkOf(page) == End <==>
            page.JObject? && "nextCursor" in page.fields ==> page.fields["nextCursor"] == JNull
    ensures LinkOf(page) == BadLink <==>
            page.JObject? && "nextCursor" in page.fields
            && page.fields["nextCursor"] != JNull && !page.fields["nextCursor"].JString?
  {
  }

  // ----- One page -----

  predicate HasName(entry: Json, name: string) {
    entry.JObject? && "name" in entry.fields && entry.fields["name"] == JString(name)
  }

  predicate HasObjectSchema(entry: Json) {
    && entry.JObject? && "inputSchema" in entry.fields
    && var schema := entry.fields["inputSchema"];
       schema.JObject? && "type" in schema.fields && schema.fields["type"] == JString("object")
  }

  /** What entry `i` goes wrong with behind the tools listed before: it has no name, or is no tool
      under its name, or its name is taken. */
  ghost predicate EntryGoesWrong(i: nat, entry: Json, defs: seq<ToolDef>, e: McpError) {
    match e
    case Protocol(EntryWithoutName(k)) => k == i && forall name :: !HasName(entry, name)
    case InvalidTool(name) => HasName(entry, name) && !(WellNamed(name) && HasObjectSchema(entry))
    case NameCollision(name) =>
      HasName(entry, name) && WellNamed(name) && HasObjectSchema(entry)
      && exists k :: 0 <= k < |defs| && defs[k].name == name
    case _ => false
  }

  lemma EntryStep(entries: seq<Json>, i: nat, defs: seq<ToolDef>, e: McpError)
    requires i < |entries|
    ensures EntryGoesWrong(i, entries[i], defs, e) ==> TakeEntries(entries, i, defs) == Err(e)
    ensures TakeEntries(entries, i, defs) == Err(e) && !EntryGoesWrong(i, entries[i], defs, e) ==>
              && Usable(entries[i]) && !Named(defs, ValidateTool(0, entries[i]).value.name)
              && TakeEntries(entries, i + 1, defs + [ValidateTool(0, entries[i]).value]) == Err(e)
  {
    var entry := entries[i];
    IndexOnlyInMessages(i, entry);
    var name := AsString(Get(entry, "name"));
    if name.Some? {
      WellNamedExactly(name.value);
      assert HasName(entry, name.value);
    }
  }

  /** The entries in front of the `k`-th can be listed, and this one cannot. */
  ghost predicate EntryFails(entries: seq<Json>, k: nat, defs: seq<ToolDef>, e: McpError) {
    && k < |entries| && Listable(defs, entries[..k])
    && EntryGoesWrong(k, entries[k], defs + DefsOf(entries[..k]), e)
  }

  lemma OneMoreListed(entries: seq<Json>, k: nat, defs: seq<ToolDef>)
    requires k < |entries| && Listable(defs, entries[..k])
    ensures Listable(defs, entries[..k + 1]) <==>
            Usable(entries[k]) && !Named(defs + DefsOf(entries[..k]), ValidateTool(0, entries[k]).value.name)
    ensures Listable(defs, entries[..k + 1]) ==>
              && defs + DefsOf(entries[..k + 1]) == (defs + DefsOf(entries[..k])) + [ValidateTool(0, entries[k]).value]
  {
    var (front, entry) := (entries[..k], entries[k]);
    assert entries[..k + 1] == front + [entry];
    ListableTogether(defs, front, [entry]);
    assert [entry][0] == entry && [entry][1..] == [];
    if Usable(entry) {
      var (listed, def) := (defs + DefsOf(front), ValidateTool(0, entry).value);
      assert DefsOf([entry]) == [def];
      assert DistinctNames(listed + [def]) <==> !Named(listed, def.name) by {
        assert (listed + [def])[|listed|] == def;
        assert forall i | 0 <= i < |listed| :: (listed + [def])[i] == listed[i];
      }
    }
  }

  lemma {:induction false} TakenUpTo(entries: seq<Json>, k: nat, defs: seq<ToolDef>)
    requires k <= |entries| && Listable(defs, entries[..k])
    ensures TakeEntries(entries, 0, defs) == TakeEntries(entries, k, defs + DefsOf(entries[..k]))
    decreases k
  {
    if k == 0 {
      assert defs + DefsOf(entries[..0]) == defs;
    } else {
      assert entries[..k] == entries[..k - 1] + [entries[k - 1]];
      ListableTogether(defs, entries[..k - 1], [entries[k - 1]]);
      TakenUpTo(entries, k - 1, defs);
      OneMoreListed(entries, k - 1, defs);
      IndexOnlyInMessages(k - 1, entries[k - 1]);
    }
  }

  lemma {:induction false} FailingEntry(entries: seq<Json>, i: nat, defs: seq<ToolDef>, e: McpError) returns (k: nat)
    requires i <= |entries| && Listable(defs, entries[..i])
    requires TakeEntries(entries, i, defs + DefsOf(entries[..i])) == Err(e)
    ensures EntryFails(entries, k, defs, e)
    decreases |entries| - i
  {
    EntryStep(entries, i, defs + DefsOf(entries[..i]), e);
    if EntryGoesWrong(i, entries[i], defs + DefsOf(entries[..i]), e) {
      k := i;
    } else {
      OneMoreListed(entries, i, defs);
      k := FailingEntry(entries, i + 1, defs, e);
    }
  }

  /** A page's entries end in the error of the first that cannot be listed. */
  lemma EntryErrorExactly(entries: seq<Json>, defs: seq<ToolDef>, e: McpError)
    requires DistinctNames(defs)
    ensures TakeEntries(entries, 0, defs) == Err(e) <==> exists k: nat :: EntryFails(entries, k, defs, e)
  {
    assert entries[..0] == [] && defs + DefsOf([]) == defs;
    if TakeEntries(entries, 0, defs) == Err(e) {
      var k := FailingEntry(entries, 0, defs, e);
    }
    if k: nat :| EntryFails(entries, k, defs, e) {
      TakenUpTo(entries, k, defs);
      EntryStep(entries, k, defs + DefsOf(entries[..k]), e);
    }
  }

  // ----- All pages -----

  // What a page is asked for with, and the entries of all pages in front of it.
  datatype Asked = Asked(cursor: Option<string>, entries: seq<Json>)

  /** How the client comes to ask for page `n`, if the pages in front of it lead there. */
  function AskedFor(serve: Server, n: nat): Option<Asked> {
    if n == 0 then Some(Asked(None, []))
    else
      match AskedFor(serve, n - 1)
      case None => None
      case Some(before) =>
        if serve(n - 1, before.cursor).Ok? then OnFrom(before, serve(n - 1, before.cursor).value) else None
  }

  function OnFrom(before: Asked, page: Json): Option<Asked> {
    match (EntriesOf(page), LinkOf(page))
    case (Some(entries), Follow(c)) => Some(Asked(Some(c), before.entries + entries))
    case _ => None
  }

  /** The page does not arrive, has no tools array or an entry that cannot be listed, or points
      nowhere sensible. */
  ghost predicate PageGoesWrong(reply: Result<Json, McpError>, defs: seq<ToolDef>, e: McpError) {
    match reply
    case Err(error) => e == error
    case Ok(page) =>
      match EntriesOf(page)
      case None => e == Protocol(NoToolsArray)
      case Some(entries) =>
        || (exists k: nat :: EntryFails(entries, k, defs, e))
        || (Listable(defs, entries) && LinkOf(page).BadLink? && e == Protocol(CursorNotString))
  }

  /** Everything in front of page `n` can be listed and leads there, and this page goes wrong; a 65th is
      never asked for. */
  ghost predicate PageFails(serve: Server, n: nat, e: McpError) {
    && n <= 64 && AskedFor(serve, n).Some?
    && var asked := AskedFor(serve, n).value;
       && Listable([], asked.entries)
       && if n == 64 then e == Protocol(TooManyPages)
          else PageGoesWrong(serve(n, asked.cursor), DefsOf(asked.entries), e)
  }

  lemma PageStep(serve: Server, n: nat, cursor: Option<string>, defs: seq<ToolDef>, e: McpError)
    requires n < MAX_PAGES && DistinctNames(defs)
    ensures var reply := serve(n, cursor);
            && (PageGoesWrong(reply, defs, e) ==> ListFrom(serve, n, cursor, defs) == Err(e))
            && (ListFrom(serve, n, cursor, defs) == Err(e) && !PageGoesWrong(reply, defs, e) ==>
                  && reply.Ok? && EntriesOf(reply.value).Some? && LinkOf(reply.value).Follow?
                  && Listable(defs, EntriesOf(reply.value).value))
  {
    var reply := serve(n, cursor);
    if reply.Ok? && EntriesOf(reply.value).Some? {
      TakePageExactly(EntriesOf(reply.value).value, defs);
      EntryErrorExactly(EntriesOf(reply.value).value, defs, e);
    }
  }

  /** A page in order that points on is followed by the next one. */
  lemma PageFollowed(serve: Server, n: nat, cursor: Option<string>, defs: seq<ToolDef>)
    requires n < MAX_PAGES && DistinctNames(defs) && serve(n, cursor).Ok?
    requires var page := serve(n, cursor).value;
             EntriesOf(page).Some? && LinkOf(page).Follow? && Listable(defs, EntriesOf(page).value)
    ensures var page := serve(n, cursor).value;
            ListFrom(serve, n, cursor, defs)
            == ListFrom(serve, n + 1, Some(LinkOf(page).cursor), defs + DefsOf(EntriesOf(page).value))
  {
    TakePageExactly(EntriesOf(serve(n, cursor).value).value, defs);
  }

  lemma AskedBefore(serve: Server, n: nat) returns (before: Asked, page: Json)
    requires n > 0 && AskedFor(serve, n).Some?
    ensures AskedFor(serve, n - 1) == Some(before) && serve(n - 1, before.cursor) == Ok(page)
    ensures EntriesOf(page).Some? && LinkOf(page).Follow?
    ensures AskedFor(serve, n).value == Asked(Some(LinkOf(page).cursor), before.entries + EntriesOf(page).value)
  {
    before := AskedFor(serve, n - 1).value;
    page := serve(n - 1, before.cursor).value;
  }

  lemma NothingInFront(entries: seq<Json>, more: seq<Json>)
    ensures Listable([], entries + more) <==> Listable([], entries) && Listable(DefsOf(entries), more)
    ensures Listable([], entries + more) ==> DefsOf(entries + more) == DefsOf(entries) + DefsOf(more)
    ensures Listable([], entries) ==> DistinctNames(DefsOf(entries))
  {
    ListableTogether([], entries, more);
    if AllUsable(entries) {
      assert [] + DefsOf(entries) == DefsOf(entries);
      if AllUsable(entries + more) {
        assert [] + DefsOf(entries + more) == DefsOf(entries + more);
      }
    }
  }

  lemma {:induction false} ListedUpTo(serve: Server, n: nat)
    requires n <= MAX_PAGES && AskedFor(serve, n).Some? && Listable([], AskedFor(serve, n).value.entries)
    ensures var asked := AskedFor(serve, n).value;
            ListFrom(serve, 0, None, []) == ListFrom(serve, n, asked.cursor, DefsOf(asked.entries))
    decreases n
  {
    if n > 0 {
      var before, page := AskedBefore(serve, n);
      NothingInFront(before.entries, EntriesOf(page).value);
      ListedUpTo(serve, n - 1);
      PageFollowed(serve, n - 1, before.cursor, DefsOf(before.entries));
    }
  }

  lemma {:induction false} FailingPage(serve: Server, n: nat, e: McpError) returns (m: nat)
    requires n <= MAX_PAGES && AskedFor(serve, n).Some? && Listable([], AskedFor(serve, n).value.entries)
    requires var asked := AskedFor(serve, n).value;
             ListFrom(serve, n, asked.cursor, DefsOf(asked.entries)) == Err(e)
    ensures PageFails(serve, m, e)
    decreases MAX_PAGES - n
  {
    var asked := AskedFor(serve, n).value;
    NothingInFront(asked.entries, []);
    if n == MAX_PAGES || PageGoesWrong(serve(n, asked.cursor), DefsOf(asked.entries), e) {
      m := n;
    } else {
      PageStep(serve, n, asked.cursor, DefsOf(asked.entries), e);
      NothingInFront(asked.entries, EntriesOf(serve(n, asked.cursor).value).value);
      PageFollowed(serve, n, asked.cursor, DefsOf(asked.entries));
      m := FailingPage(serve, n + 1, e);
    }
  }

  /** Against any server, listing ends in the error of the first page that goes wrong, or of the 65th. */
  lemma ListErrorExactly(serve: Server, e: McpError)
    ensures ListFrom(serve, 0, None, []) == Err(e) <==> exists n: nat :: PageFails(serve, n, e)
  {
    if ListFrom(serve, 0, None, []) == Err(e) {
      var n := FailingPage(serve, 0, e);
    }
    if n: nat :| PageFails(serve, n, e) {
      var asked := AskedFor(serve, n).value;
      ListedUpTo(serve, n);
      NothingInFront(asked.entries, []);
      if n < MAX_PAGES {
        PageStep(serve, n, asked.cursor, DefsOf(asked.entries), e);
      }
    }
  }
}
