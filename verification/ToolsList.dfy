/** Discovering a server's tools page by page (crates/harness/src/mcp.rs, `list_tools`, `validate_tool`). */
module ToolsList {
  import opened Json
  import opened McpError
  import opened Outcomes
  import opened Sequences

  const MAX_PAGES: nat := 64
  const MAX_NAME: nat := 64

  datatype ToolDef = ToolDef(name: string, description: Option<string>, schema: Json)

  // A server as the client meets it: the reply to the n-th `tools/list`, given the cursor it carried.
  type Server = (nat, Option<string>) -> Result<Json, McpError>

  predicate NameChar(c: char) {
    'a' <= c <= 'z' || 'A' <= c <= 'Z' || '0' <= c <= '9' || c == '_' || c == '-'
  }

  predicate ValidToolName(name: string) {
    1 <= |name| <= MAX_NAME && forall i | 0 <= i < |name| :: NameChar(name[i])
  }

  function Description(entry: Json): Option<string> {
    match AsString(Get(entry, "description"))
    case Some(d) => if d == "" then None else Some(d)
    case None => None
  }

  function ValidateTool(i: nat, entry: Json): Result<ToolDef, McpError> {
    match AsString(Get(entry, "name"))
    case None => Err(Protocol(EntryWithoutName(i)))
    case Some(name) =>
      if !ValidToolName(name) then Err(InvalidTool(name))
      else
        match Get(entry, "inputSchema")
        case None => Err(InvalidTool(name))
        case Some(schema) =>
          if AsString(Get(schema, "type")) != Some("object") then Err(InvalidTool(name))
          else Ok(ToolDef(name, Description(entry), schema))
  }

  // ----- What listing means -----

  predicate Named(defs: seq<ToolDef>, name: string) {
    exists i :: 0 <= i < |defs| && defs[i].name == name
  }

  /** Add a page's entries from the `i`-th on to what is already listed. */
  function TakeEntries(entries: seq<Json>, i: nat, defs: seq<ToolDef>): Result<seq<ToolDef>, McpError>
    requires i <= |entries|
    decreases |entries| - i
  {
    if i == |entries| then Ok(defs)
    else
      match ValidateTool(i, entries[i])
      case Err(e) => Err(e)
      case Ok(def) =>
        if Named(defs, def.name) then Err(NameCollision(def.name)) else TakeEntries(entries, i + 1, defs + [def])
  }

  // Where a page points.
  datatype Link = End | Follow(cursor: string) | BadLink

  function LinkOf(page: Json): Link {
    match Get(page, "nextCursor")
    case None => End
    case Some(JNull) => End
    case Some(JString(c)) => Follow(c)
    case Some(_) => BadLink
  }

  function EntriesOf(page: Json): Option<seq<Json>> {
    match Get(page, "tools")
    case Some(JArray(items)) => Some(items)
    case _ => None
  }

  /** List on from page `n`, which is asked for with `cursor`. */
  function ListFrom(serve: Server, n: nat, cursor: Option<string>, defs: seq<ToolDef>): Result<seq<ToolDef>, McpError>
    requires n <= MAX_PAGES
    decreases MAX_PAGES - n
  {
    if n == MAX_PAGES then Err(Protocol(TooManyPages))
    else
      match serve(n, cursor)
      case Err(e) => Err(e)
      case Ok(page) =>
        match EntriesOf(page)
        case None => Err(Protocol(NoToolsArray))
        case Some(entries) =>
          match TakeEntries(entries, 0, defs)
          case Err(e) => Err(e)
          case Ok(more) =>
            match LinkOf(page)
            case End => Ok(more)
            case Follow(c) => ListFrom(serve, n + 1, Some(c), more)
            case BadLink => Err(Protocol(CursorNotString))
  }

  /** The cursor page `n` hands on, if it hands one on. */
  function CursorAfter(serve: Server, n: nat, cursor: Option<string>): Option<string> {
    if serve(n, cursor).Ok? && LinkOf(serve(n, cursor).value).Follow? then Some(LinkOf(serve(n, cursor).value).cursor)
    else None
  }

  /** The requests sent: the first without a cursor, each other with the one the page before it handed on. */
  predicate FollowsCursors(serve: Server, sent: seq<Option<string>>) {
    && sent != [] && sent[0] == None
    && forall k | 0 < k < |sent| :: sent[k].Some? && sent[k] == CursorAfter(serve, k - 1, sent[k - 1])
  }

  lemma NextCursor(serve: Server, sent: seq<Option<string>>, c: string)
    requires FollowsCursors(serve, sent) && CursorAfter(serve, |sent| - 1, sent[|sent| - 1]) == Some(c)
    ensures FollowsCursors(serve, sent + [Some(c)])
  {
  }

  lemma PrefixFollows(serve: Server, sent: seq<Option<string>>, cursor: Option<string>)
    requires FollowsCursors(serve, sent + [cursor]) && sent != []
    ensures FollowsCursors(serve, sent)
  {
    assert forall k | 0 <= k < |sent| :: (sent + [cursor])[k] == sent[k];
  }

  method ListTools(serve: Server) returns (r: Result<seq<ToolDef>, McpError>, sent: seq<Option<string>>)
    ensures r == ListFrom(serve, 0, None, [])
    ensures |sent| <= MAX_PAGES && FollowsCursors(serve, sent)
  {
    var defs: seq<ToolDef> := [];
    var cursor: Option<string> := None;
    sent := [];
    while |sent| < MAX_PAGES
      invariant |sent| <= MAX_PAGES
      invariant ListFrom(serve, 0, None, []) == ListFrom(serve, |sent|, cursor, defs)
      invariant FollowsCursors(serve, sent + [cursor])
    {
      sent := sent + [cursor];
      var reply := serve(|sent| - 1, cursor);
      if reply.Err? {
        return Err(reply.error), sent;
      }
      var entries := EntriesOf(reply.value);
      if entries.None? {
        return Err(Protocol(NoToolsArray)), sent;
      }
      var taken := TakePage(entries.value, defs);
      if taken.Err? {
        return Err(taken.error), sent;
      }
      defs := taken.value;
      match LinkOf(reply.value)
      case End => return Ok(defs), sent;
      case Follow(c) =>
        cursor := Some(c);
        NextCursor(serve, sent, c);
      case BadLink => return Err(Protocol(CursorNotString)), sent;
    }
    PrefixFollows(serve, sent, cursor);
    r := Err(Protocol(TooManyPages));
  }

  method TakePage(entries: seq<Json>, before: seq<ToolDef>) returns (r: Result<seq<ToolDef>, McpError>)
    ensures r == TakeEntries(entries, 0, before)
  {
    var defs := before;
    for i := 0 to |entries|
      invariant TakeEntries(entries, 0, before) == TakeEntries(entries, i, defs)
    {
      var def := ValidateTool(i, entries[i]);
      if def.Err? {
        return Err(def.error);
      }
      if exists k :: 0 <= k < |defs| && defs[k].name == def.value.name {
        return Err(NameCollision(def.value.name));
      }
      defs := defs + [def.value];
    }
    r := Ok(defs);
  }

  // ----- When listing succeeds, and with what -----

  /** All entries the server offers, if its pages end within the limit and are all well-formed. */
  function Offered(serve: Server, n: nat, cursor: Option<string>): Option<seq<Json>>
    requires n <= MAX_PAGES
    decreases MAX_PAGES - n
  {
    if n == MAX_PAGES || serve(n, cursor).Err? || EntriesOf(serve(n, cursor).value).None? then None
    else
      var entries := EntriesOf(serve(n, cursor).value).value;
      match LinkOf(serve(n, cursor).value)
      case End => Some(entries)
      case Follow(c) =>
        (match Offered(serve, n + 1, Some(c))
         case Some(rest) => Some(entries + rest)
         case None => None)
      case BadLink => None
  }

  /** An entry a tool can be made of: a valid name and an object schema. */
  predicate Usable(entry: Json) {
    ValidateTool(0, entry).Ok?
  }

  function DefsOf(entries: seq<Json>): seq<ToolDef>
    requires forall i | 0 <= i < |entries| :: Usable(entries[i])
  {
    if entries == [] then []
    else
      assert Usable(entries[0]);
      [ValidateTool(0, entries[0]).value] + DefsOf(entries[1..])
  }

  predicate DistinctNames(defs: seq<ToolDef>) {
    forall i, j | 0 <= i < j < |defs| :: defs[i].name != defs[j].name
  }

  predicate AllUsable(entries: seq<Json>) {
    forall i | 0 <= i < |entries| :: Usable(entries[i])
  }

  /** Entries that can all be listed behind `defs`. */
  predicate Listable(defs: seq<ToolDef>, entries: seq<Json>) {
    AllUsable(entries) && DistinctNames(defs + DefsOf(entries))
  }

  /** What the listing asks of an entry: a string name of 1 to 64 letters, digits, '_' and '-', and an input
      schema whose `type` is "object"; the tool then has that name, that schema and any non-empty description. */
  lemma UsableExactly(entry: Json, i: nat)
    ensures Usable(entry) <==>
            && entry.JObject? && "name" in entry.fields && entry.fields["name"].JString?
            && ValidToolName(entry.fields["name"].s)
            && "inputSchema" in entry.fields && entry.fields["inputSchema"].JObject?
            && "type" in entry.fields["inputSchema"].fields
            && entry.fields["inputSchema"].fields["type"] == JString("object")
    ensures ValidateTool(i, entry).Ok? ==>
            && ValidateTool(i, entry).value.name == entry.fields["name"].s
            && ValidateTool(i, entry).value.schema == entry.fields["inputSchema"]
            && (ValidateTool(i, entry).value.description == None <==>
                  "description" !in entry.fields || !entry.fields["description"].JString?
                  || entry.fields["description"].s == "")
            && (ValidateTool(i, entry).value.description.Some? ==>
                  entry.fields["description"] == JString(ValidateTool(i, entry).value.description.value))
  {
  }

  lemma IndexOnlyInMessages(i: nat, entry: Json)
    ensures ValidateTool(i, entry).Ok? <==> Usable(entry)
    ensures Usable(entry) ==> ValidateTool(i, entry) == ValidateTool(0, entry)
  {
  }

  lemma {:induction false} DefsAppend(a: seq<Json>, b: seq<Json>)
    requires AllUsable(a) && AllUsable(b)
    ensures AllUsable(a + b) && DefsOf(a + b) == DefsOf(a) + DefsOf(b)
  {
    assert forall i | 0 <= i < |a + b| :: (a + b)[i] == if i < |a| then a[i] else b[i - |a|];
    if a == [] {
      assert a + b == b;
    } else {
      assert (a + b)[1..] == a[1..] + b;
      DefsAppend(a[1..], b);
    }
  }

  /** A page is taken exactly when all its entries are usable and no name repeats. */
  lemma {:induction false} TakeEntriesExactly(entries: seq<Json>, i: nat, defs: seq<ToolDef>)
    requires i <= |entries| && DistinctNames(defs)
    ensures TakeEntries(entries, i, defs).Ok? <==> Listable(defs, entries[i..])
    ensures TakeEntries(entries, i, defs).Ok? ==> TakeEntries(entries, i, defs).value == defs + DefsOf(entries[i..])
    decreases |entries| - i
  {
    if i == |entries| {
      assert defs + DefsOf(entries[i..]) == defs;
    } else {
      var rest := entries[i + 1..];
      assert entries[i..] == [entries[i]] + rest;
      IndexOnlyInMessages(i, entries[i]);
      AllUsableAppend([entries[i]], rest);
      assert AllUsable([entries[i]]) <==> Usable([entries[i]][0]);
      if Usable(entries[i]) {
        var def := ValidateTool(0, entries[i]).value;
        if Named(defs, def.name) {
          var k :| 0 <= k < |defs| && defs[k].name == def.name;
          if AllUsable(rest) {
            var all := defs + DefsOf(entries[i..]);
            assert all[k] == defs[k] && all[|defs|] == def;
          }
        } else {
          TakeEntriesExactly(entries, i + 1, defs + [def]);
          if AllUsable(rest) {
            Associate(defs, [def], DefsOf(rest));
          }
        }
      }
    }
  }

  lemma TakePageExactly(entries: seq<Json>, defs: seq<ToolDef>)
    requires DistinctNames(defs)
    ensures TakeEntries(entries, 0, defs).Ok? <==> Listable(defs, entries)
    ensures TakeEntries(entries, 0, defs).Ok? ==> TakeEntries(entries, 0, defs).value == defs + DefsOf(entries)
  {
    assert entries[0..] == entries;
    TakeEntriesExactly(entries, 0, defs);
  }

  lemma {:induction false} ListFromExactly(serve: Server, n: nat, cursor: Option<string>, defs: seq<ToolDef>)
    requires n <= MAX_PAGES && DistinctNames(defs)
    ensures var (offered, listed) := (Offered(serve, n, cursor), ListFrom(serve, n, cursor, defs));
            && (listed.Ok? <==> offered.Some? && Listable(defs, offered.value))
            && (listed.Ok? ==> listed.value == defs + DefsOf(offered.value))
    decreases MAX_PAGES - n
  {
    if n < MAX_PAGES && serve(n, cursor).Ok? && EntriesOf(serve(n, cursor).value).Some? {
      var page := serve(n, cursor).value;
      var entries := EntriesOf(page).value;
      TakePageExactly(entries, defs);
      if LinkOf(page).Follow? {
        var next := Some(LinkOf(page).cursor);
        if Offered(serve, n + 1, next).Some? {
          ListableTogether(defs, entries, Offered(serve, n + 1, next).value);
        }
        if Listable(defs, entries) {
          ListFromExactly(serve, n + 1, next, defs + DefsOf(entries));
        }
      }
    }
  }

  lemma AllUsableAppend(a: seq<Json>, b: seq<Json>)
    ensures AllUsable(a + b) <==> AllUsable(a) && AllUsable(b)
  {
    assert forall i | 0 <= i < |a| :: (a + b)[i] == a[i];
    assert forall i | 0 <= i < |b| :: (a + b)[|a| + i] == b[i];
  }

  lemma DistinctPrefix(a: seq<ToolDef>, b: seq<ToolDef>)
    ensures DistinctNames(a + b) ==> DistinctNames(a)
  {
    assert forall i | 0 <= i < |a| :: (a + b)[i] == a[i];
  }

  /** A list and its continuation can be taken exactly when each can, the one behind the other. */
  lemma ListableTogether(defs: seq<ToolDef>, a: seq<Json>, b: seq<Json>)
    ensures Listable(defs, a + b) <==> Listable(defs, a) && Listable(defs + DefsOf(a), b)
    ensures Listable(defs, a + b) ==> defs + DefsOf(a + b) == (defs + DefsOf(a)) + DefsOf(b)
  {
    AllUsableAppend(a, b);
    if AllUsable(a) && AllUsable(b) {
      DefsAppend(a, b);
      Associate(defs, DefsOf(a), DefsOf(b));
      DistinctPrefix(defs + DefsOf(a), DefsOf(b));
    }
  }

  /** Against any server, listing succeeds exactly when its pages end within the limit, every entry is
      usable and no name repeats; the result is then all entries of all pages, in order. */
  lemma ListingSucceedsExactly(serve: Server)
    ensures var offered := Offered(serve, 0, None);
            && (ListFrom(serve, 0, None, []).Ok? <==>
                  offered.Some? && Listable([], offered.value))
            && (ListFrom(serve, 0, None, []).Ok? ==> ListFrom(serve, 0, None, []).value == DefsOf(offered.value))
  {
    ListFromExactly(serve, 0, None, []);
    if Offered(serve, 0, None).Some? && AllUsable(Offered(serve, 0, None).value) {
      assert [] + DefsOf(Offered(serve, 0, None).value) == DefsOf(Offered(serve, 0, None).value);
    }
  }

  lemma {:induction false} ListedNamesAreValid(entries: seq<Json>)
    requires AllUsable(entries)
    ensures |DefsOf(entries)| == |entries|
    ensures forall i | 0 <= i < |entries| ::
              && ValidToolName(DefsOf(entries)[i].name)
              && AsString(Get(entries[i], "name")) == Some(DefsOf(entries)[i].name)
  {
    if entries != [] {
      ListedNamesAreValid(entries[1..]);
    }
  }

  // ----- A server that never stops handing on cursors -----

  /** From page `n` on, every page the client would ask for arrives and points on. */
  predicate LeadsOn(serve: Server, n: nat, cursor: Option<string>)
    requires n <= MAX_PAGES
    decreases MAX_PAGES - n
  {
    n == MAX_PAGES
    || (serve(n, cursor).Ok? && LinkOf(serve(n, cursor).value).Follow?
        && LeadsOn(serve, n + 1, Some(LinkOf(serve(n, cursor).value).cursor)))
  }

  /** All entries of the pages up to the limit, if each has a tools array. */
  function EntriesOnward(serve: Server, n: nat, cursor: Option<string>): Option<seq<Json>>
    requires n <= MAX_PAGES && LeadsOn(serve, n, cursor)
    decreases MAX_PAGES - n
  {
    if n == MAX_PAGES then Some([])
    else
      var page := serve(n, cursor).value;
      match (EntriesOf(page), EntriesOnward(serve, n + 1, Some(LinkOf(page).cursor)))
      case (Some(entries), Some(rest)) => Some(entries + rest)
      case _ => None
  }

  lemma TakingNeverRunsOutOfPages(entries: seq<Json>, i: nat, defs: seq<ToolDef>)
    requires i <= |entries|
    ensures TakeEntries(entries, i, defs) != Err(Protocol(TooManyPages))
    decreases |entries| - i
  {
  }

  lemma {:induction false} CutOffExactly(serve: Server, n: nat, cursor: Option<string>, defs: seq<ToolDef>)
    requires n <= MAX_PAGES && LeadsOn(serve, n, cursor) && DistinctNames(defs)
    ensures var (entries, listed) := (EntriesOnward(serve, n, cursor), ListFrom(serve, n, cursor, defs));
            && listed.Err?
            && (listed == Err(Protocol(TooManyPages)) <==> entries.Some? && Listable(defs, entries.value))
    decreases MAX_PAGES - n
  {
    if n == MAX_PAGES {
      assert defs + DefsOf([]) == defs;
    } else if EntriesOf(serve(n, cursor).value).Some? {
      var (page, next) := (serve(n, cursor).value, Some(LinkOf(serve(n, cursor).value).cursor));
      var entries := EntriesOf(page).value;
      TakePageExactly(entries, defs);
      TakingNeverRunsOutOfPages(entries, 0, defs);
      if EntriesOnward(serve, n + 1, next).Some? {
        ListableTogether(defs, entries, EntriesOnward(serve, n + 1, next).value);
      }
      if Listable(defs, entries) {
        CutOffExactly(serve, n + 1, next, defs + DefsOf(entries));
      }
    }
  }

  /** Against a server that always hands on a cursor, listing always fails; it fails for the number of
      pages exactly when all 64 have a tools array, all their entries are usable and no name repeats. */
  lemma EndlessServerIsCutOff(serve: Server)
    ensures LeadsOn(serve, 0, None) ==>
              var entries := EntriesOnward(serve, 0, None);
              && ListFrom(serve, 0, None, []).Err?
              && (ListFrom(serve, 0, None, []) == Err(Protocol(TooManyPages)) <==>
                    entries.Some? && Listable([], entries.value))
  {
    if LeadsOn(serve, 0, None) {
      CutOffExactly(serve, 0, None, []);
    }
  }
}
