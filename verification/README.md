# Verified model of the harness core

This project models the parts of the harness repository that carry the most branching, state and
arithmetic, and proves what they promise for every input, schedule or chunking. `dafny verify
dfyconfig.toml` checks all of it.

| Component | Modules | What is proved |
|---|---|---|
| Calculator front end (`fixtures/calc`) | `CalcLexer`, `CalcParser`, `CalcGrammar`, `CalcErrors`, `CalcPrinter` | The tokenizing loop and the binding-power parser with its shared cursor are proved against functional specifications. The parser accepts exactly an unambiguous layered grammar and returns the tree it denotes; a printer with minimal parentheses and the parser undo each other, also through text. Each error is tied to the place in the list that causes it. |
| Civil dates and timestamps (`time.rs`) | `CivilDate`, `Rfc3339`, `StampLimits` | The closed-form day-to-date arithmetic inverts counting days by the Gregorian rules. Timestamps read back, sort by time and are pairwise different, each up to an exact bound. |
| Tool-server client (`mcp.rs`) | `SseStream`, `SseStandard`, `SseParser`, `Json`, `McpError`, `JsonRpc`, `SseRequest`, `SseServer`, `McpSession`, `SessionInvariant`, `McpSafety`, `McpHandshake`, `McpRecovery`, `McpRetry`, `McpIds`, `ToolsList`, `ListErrors`, `Registry` | The incremental event-stream parser refines a whole-stream reading; a request's answer is the first decisive message however the bytes are cut and whatever lines a server writes around it; session safety over all interleavings and cancellations, each request tied to the answer its headers come from; bounded pagination, with the error of the first page that goes wrong; all-or-nothing registration. |
| Change evidence and process groups (`exec.rs`) | `ChangeEvidence`, `HeadReadings`, `FlatteningLimits`, `TreeEvidence`, `ProcessGroup` | What flattening many repositories into two strings keeps, for all names: the exact pairs of name lists under which every verdict is right, and the verdict over every branch of the observation. Never more than one signal over every schedule of completion, timeout and drop, exactly which timeouts kill the group, and exactly which schedules signal late. |
| Harbor text layer (`mined_harbor.rs`) | `TomlString`, `UvLock`, `LockText`, `LockErrors` | TOML quoting reads back whatever follows it; the `uv.lock` scan, its deduplication and the conflict rule of the merge are characterized exactly. |
| Memory deny policy (`memory.rs`) | `DenyPolicy` | Over every run, what is denied is determined by what was denied before: at most two denies, none twice. |
| Pricing (`model.rs`) | `Pricing` | The saturating chain is one saturation of the exact sum; billing totals against summing turns differs by less than one micro-dollar a turn. |

`Outcomes`, `Words`, `Sequences`, `Bytes`, `Utf8`, `Text` and `Decimal` hold shared vocabulary.

Code that loops over mutable state is a method, with the source's loop, proved equal to a function; the
lemmas are about that function. An inner loop or block of the source that carries an invariant of its own is
a method of its own (`TakeDigits`, `DrainLine`, `TakeLine`, `FindAnswer`, `TakePage`, `AppendPrefixed`, `ScanLine`,
`MergeInto`).
The parser's cursor, the event-stream parser, the tool registry and the
process-group guard are classes whose methods update their fields. The session shared by concurrent
calls is a state machine: one event is what one future does between two points at which another may
move or the future be dropped, and every statement is about all event lists.

## Where the code and its documentation differ

The model follows the code.

- The comment at `fixtures/calc/src/parser.rs:93-97` says that the `*` and `/` entries make those
  operators right-associative. The table at lines 98-104 makes every operator left-associative.
- `days_to_ymd` says that its casts cannot truncate in practice. `DaysToYmdExactlyWhenYearFits` gives
  the exact bound: day 1568703873082, the first day of year 4294967296.
- `format_rfc3339` promises the form `YYYY-MM-DDTHH:MM:SSZ`. Reading back to the same second and text
  order hold exactly up to the end of year 9999 (`RoundTripExactlyBeforeYear10000`, `TextOrderExactly`).
  The twenty-character form holds exactly while the year, after its cast to 32 bits, is below 10000
  (`TwentyCharactersExactly`), so it comes back once the cast wraps: the first second of year 4294969266
  is printed as the epoch (`WrappedInstant`), and from there on texts repeat (`TextsDifferExactly`).
- `run` promises that a timeout kills the whole group. It does exactly when the timer is the first thing to
  end the wait for a spawned child and the leader has not been reaped before (`TimeoutKillsExactly`); a
  group whose leader is gone, with the pipes still open, is left alive.
- `ProcessGroupGuard` is described as firing while the child is unreaped. It stays armed until the pipes
  are drained as well. A signal goes out after the leader was reaped exactly when the future is dropped
  between the reaping and the end of the pipes, with no timeout or drop since the spawn
  (`LateSignalExactly`).
- An event-stream line that is not UTF-8 discards the events completed by the same chunk. Chunking is
  therefore irrelevant exactly when every line is readable or no answer precedes the first unreadable
  one (`ChunkingIrrelevantExactly`).
- An event whose only data is one empty line is dropped, unlike in section 9.2.6 of the HTML Standard.
  On lines as the client cuts them, the events agree with the standard's exactly when no dispatched block
  is of this kind (`DispatchMatchesStandardExactly`). The standard also ends lines at a bare carriage return
  and strips a leading byte order mark; the client does neither.
- `combine_child_observations` trims the joined status, which removes leading blanks of the first name,
  and joins head lines whose names may hold line breaks. A name falls into parts wherever it spells the end
  of a head line: a blank, then `none` or a whole commit, then a line break. For two lists of file names,
  every verdict is right exactly when the lists are the same and no two names agree up to leading blanks, or
  when the parts differ in a name or in a head that both sides spell (`PairFaithfulExactly`,
  `ScansJudgedRightExactly`). Two equal names are possible because names are converted lossily from the
  file system.

## Model

| member | source | states |
|---|---|---|
| CalcLexer.Tokenize | fixtures/calc/src/lexer.rs:17-63 | the tokenizing loop computes `Lex`: blanks skipped, digits taken greedily, an error at the first character outside the alphabet |
| CalcLexer.TakeDigits | fixtures/calc/src/lexer.rs:26-33 | the inner loop takes exactly the longest digit run and moves past it |
| CalcLexer.LexAppend | fixtures/calc/src/lexer.rs:17-63 | tokenizing `a + b` is tokenizing `a` and then `b`, at every cut that does not split a number |
| CalcLexer.GluedFuses | fixtures/calc/src/lexer.rs:26-33 | a cut inside a number fuses two literals: exactly one token fewer than the parts have |
| CalcLexer.LexSplitsExactlyWhenNotGlued | fixtures/calc/src/lexer.rs:17-63 | two well-formed texts tokenize separately if and only if the cut is not between two digits |
| CalcLexer.LexFailsExactlyOnForeignCharacters | fixtures/calc/src/lexer.rs:58-59 | tokenizing fails if and only if some character is outside the alphabet, and names the first such character |
| CalcLexer.SpacedTokensLexBack | fixtures/calc/src/lexer.rs:17-63 | tokens written with any spaces, tabs and newlines between them tokenize to exactly themselves, provided two adjacent numbers are separated |
| CalcLexer.RenderRoundTrip | fixtures/calc/src/lexer.rs:17-63 | the tightest rendering of any token list tokenizes back to it |
| CalcLexer.DigitsLex | fixtures/calc/src/lexer.rs:26-33 | any digit string, leading zeros included, is one number token with the value its digits spell |
| CalcLexer.CharactersLex | fixtures/calc/src/lexer.rs:22-59 | what each character of the alphabet is, and that there are no others |
| CalcParser.ParsePrefix | fixtures/calc/src/parser.rs:56-82 | outcome and cursor after an operand, on success and on each failure, are those of `Prefix` on the tokens ahead |
| CalcParser.ParseExpr | fixtures/calc/src/parser.rs:26-50 | the operator loop, over a shared cursor, leaves the outcome and the cursor that `Expression` gives for the tokens ahead; it terminates because each step moves the cursor |
| CalcParser.Parse | fixtures/calc/src/parser.rs:15-22 | the whole list must be consumed; a leftover token is reported by its position |
| CalcGrammar.SumParses | fixtures/calc/src/parser.rs:26-104 | in front of any text that cannot continue it, every derivation is parsed to its tree with exactly its tokens consumed |
| CalcGrammar.SumDerives | fixtures/calc/src/parser.rs:26-104 | whatever the parser consumes has a derivation with those tokens and that tree |
| CalcGrammar.ParseExactlyWhenDerived | fixtures/calc/src/parser.rs:15-104 | parsing returns `Ok(e)` if and only if the whole token list derives `e` in the layered grammar, chains associating to the left |
| CalcGrammar.RejectExactlyWhenUnderivable | fixtures/calc/src/parser.rs:15-104 | parsing fails if and only if no tree is derived |
| CalcErrors.ErrorIsFirst | fixtures/calc/src/parser.rs:15-82 | the error is the first one a single pass from left to right meets, which only counts open parentheses and whether an operand is due |
| CalcErrors.AcceptedExactly | fixtures/calc/src/parser.rs:15-22 | a list is accepted if and only if that pass reaches its end behind an operand with nothing open |
| CalcErrors.UnexpectedEndExactly | fixtures/calc/src/parser.rs:80 | the unexpected-end error comes if and only if the list stops where an operand is due |
| CalcErrors.UnexpectedTokenExactly | fixtures/calc/src/parser.rs:56-79 | a token is reported as unexpected if and only if it stands where an operand is due and can start none; a minus can |
| CalcErrors.ExpectedRParenExactly | fixtures/calc/src/parser.rs:67-77 | the missing parenthesis is reported if and only if an operand inside an open one is followed by neither an operator nor `)` |
| CalcErrors.TrailingTokenExactly | fixtures/calc/src/parser.rs:17-20 | position `n` is reported as trailing if and only if the tokens before it derive a tree and the one at `n` is no operator |
| CalcGrammar.DerivedTreeIsUnique | fixtures/calc/src/parser.rs:15-104 | a token list denotes at most one tree |
| CalcGrammar.DerivationIsUnique | fixtures/calc/src/parser.rs:15-104 | the grammar is unambiguous: equal tokens mean the same derivation, parentheses included |
| CalcPrinter.PrintedParses | fixtures/calc/src/parser.rs:26-104 | after a printed operand the operator loop resumes with exactly that operand in hand, at every binding power its position allows |
| CalcPrinter.ParseUndoesPrint | fixtures/calc/src/parser.rs:15-82 | printing any tree with parentheses only where binding powers need them, then parsing, gives the tree back |
| CalcPrinter.TextRoundTrip | fixtures/calc/src/lexer.rs:17-63 | the same round trip through rendered text |
| CalcPrinter.PrintIsShortest | fixtures/calc/src/parser.rs:98-104 | no token list that parses to a tree is shorter than the printed one |
| CivilDate.YearOfEraBrackets | crates/harness/src/time.rs:156 | the year of the era, computed with divisions by 1460, 36524 and 146096, is the one whose first and last day enclose the given day |
| CivilDate.IntermediateRanges | crates/harness/src/time.rs:155-161 | every range named in the comments holds for every day count |
| CivilDate.CivilCountsBack | crates/harness/src/time.rs:150-163 | the computed triple is a Gregorian date, and summing year and month lengths up to it gives the day count back |
| CivilDate.DayNumberOrders | crates/harness/src/time.rs:145-150 | the reference count orders dates as the calendar does, so each day has one date |
| CivilDate.CivilInverts | crates/harness/src/time.rs:150-163 | the arithmetic maps every valid date's day number back to that date |
| CivilDate.DaysToYmdExactlyWhenYearFits | crates/harness/src/time.rs:150-169 | with the 32-bit casts, the result is the right date if and only if the day comes before year 4294967296 |
| CivilDate.EveryDateIsHit | crates/harness/src/time.rs:150-169 | every valid date from 1970 on whose year fits in 32 bits is the result for its own day number |
| Rfc3339.StampReadsBack | crates/harness/src/time.rs:130-142 | before year 10000 the text has twenty characters and a reader of the RFC 3339 form gets the same second |
| Rfc3339.RoundTripExactlyBeforeYear10000 | crates/harness/src/time.rs:130-142 | the text reads back to its second if and only if the instant is before year 10000 |
| Rfc3339.FormatNamesTheSecond | crates/harness/src/time.rs:130-142 | for an instant in nanoseconds, the text names the second it falls in, and the epoch for any earlier instant |
| Rfc3339.StampOrders | crates/harness/src/time.rs:130-142 | before year 10000 the order of timestamps as text is the order of their seconds, and equal texts mean equal seconds |
| StampLimits.Year10000BreaksTextOrder | crates/harness/src/time.rs:130-142 | the first second of year 10000 sorts before the last second of year 9999 |
| StampLimits.TextOrderExactly | crates/harness/src/time.rs:130-142 | comparing the timestamps of all seconds below `n` as text compares the seconds if and only if `n` is at most the first second of year 10000 |
| StampLimits.TwentyCharactersExactly | crates/harness/src/time.rs:124-142 | a timestamp has the twenty characters of the documented form if and only if its year after the cast is below 10000 |
| StampLimits.WrappedInstant | crates/harness/src/time.rs:167-168 | the first second of year 4294969266 is printed, in twenty characters, as the epoch |
| StampLimits.TextsDifferExactly | crates/harness/src/time.rs:130-142 | the timestamps of all seconds below `n` are pairwise different if and only if `n` is at most the first second of year 4294969266 |
| SseStream.LinesAppend | crates/harness/src/mcp.rs:246-254 | a stream's lines are those before any cut and those of its open line continued |
| SseStream.OneMoreLine | crates/harness/src/mcp.rs:257-274 | one more line either dispatches the pending data or adds to it, against the reading of the whole stream |
| SseStandard.DispatchMatchesStandardExactly | crates/harness/src/mcp.rs:257-264 | on lines as the client cuts them, the events are those of the HTML Standard's dispatch if and only if no block that a blank line ends has one empty data line as all its data |
| SseStandard.EmptyDataIsDropped | crates/harness/src/mcp.rs:260-262 | a lone `data:` line is such a block: the standard dispatches an empty event, the parser nothing |
| SseServer.LineCarries | crates/harness/src/mcp.rs:265-274 | a line counts for exactly the data it carries: a comment or another field for none, `data:` for its value without one leading blank, a bare `data` for an empty line |
| SseServer.EveryLineIsWritten | crates/harness/src/mcp.rs:265-274 | every line that is not blank is of one of these forms |
| SseServer.OtherLinesDoNotMatter | crates/harness/src/mcp.rs:257-274 | a comment or a field other than data may stand anywhere without changing the events or the pending data |
| Utf8.ValidExactly | crates/harness/src/mcp.rs:255-256 | a line passes as UTF-8 if and only if it is the encoding of some scalar values, one behind the other |
| SseParser.Parser.DrainLine | crates/harness/src/mcp.rs:249-254 | draining the buffer up to the line feed takes exactly the first line, without its LF or CRLF |
| SseParser.Parser.TakeLine | crates/harness/src/mcp.rs:257-274 | a blank line dispatches and clears the data, dropping an empty payload; any other line adds what its `data` field carries and nothing else |
| SseParser.Parser.Push | crates/harness/src/mcp.rs:246-278 | after any pushes the fields hold the unterminated line and the data since the last blank line, and the payloads returned are exactly the events the bytes complete; an unreadable line fails |
| JsonRpc.StreamSkipsExactlyNonAnswers | crates/harness/src/mcp.rs:292-338 | on a stream, a message is skipped if and only if it carries a method or answers somebody else |
| JsonRpc.BodyIsAlwaysDecisive | crates/harness/src/mcp.rs:445-446 | a JSON body is never skipped, so the fallback error of the JSON arm is not reached |
| JsonRpc.OkExactlyForResult | crates/harness/src/mcp.rs:292-338 | success comes from a message with the wanted id, a result, no method and no error, and from no other |
| JsonRpc.OneResultOneRequest | crates/harness/src/mcp.rs:292-338 | a message that is one request's result is skipped, or an id mismatch, for every other request |
| JsonRpc.ErrorReportedExactly | crates/harness/src/mcp.rs:309-322 | a code and a message are reported if and only if the message is a response with that code and message as its error, for the wanted id, for none or for null |
| JsonRpc.MalformedExactly | crates/harness/src/mcp.rs:313-321 | an error is malformed if and only if it has no 64-bit integer code or no text |
| JsonRpc.NeitherExactly | crates/harness/src/mcp.rs:334-337 | a message is reported for having neither result nor error if and only if it answers the wanted id with neither |
| JsonRpc.MismatchExactly | crates/harness/src/mcp.rs:323-333 | an id mismatch is reported if and only if a body carries a method, or has another id and no error meant for nobody; it names both ids |
| JsonRpc.NotJsonExactly | crates/harness/src/mcp.rs:293-301 | text that is no JSON ends the exchange on either transport, each with its own error |
| SseRequest.ReadAnswer | crates/harness/src/mcp.rs:449-461 | the reading loop returns the first answer in the chunks up to the first unreadable one, and otherwise why it stopped |
| SseRequest.ReadableStreamAnswer | crates/harness/src/mcp.rs:449-461 | on readable lines the answer is that of the whole stream, for every way of cutting it |
| SseRequest.UnreadableStreamAnswer | crates/harness/src/mcp.rs:449-461 | with no answer ahead of an unreadable line, every cutting reports that line |
| SseRequest.CutDeliversAnswer | crates/harness/src/mcp.rs:449-461 | with an answer ahead of an unreadable line, some cutting delivers the answer |
| SseRequest.ChunkingIrrelevantExactly | crates/harness/src/mcp.rs:238-278 | all cuttings agree if and only if the stream is readable or no answer precedes its first unreadable line |
| SseRequest.ReadableStreamDecided | crates/harness/src/mcp.rs:449-461 | on readable lines the first event that is not skipped decides; without one, a closed body ends in the "no response" error and a broken one in a transport error |
| SseServer.EventReadsBack | crates/harness/src/mcp.rs:246-278 | an event a server writes with any comments, other fields and `data` lines, ended by LF or CRLF, reads back as its data lines joined, whatever follows |
| SseServer.AnswerSurvivesNoiseAndChunking | crates/harness/src/mcp.rs:292-461 | any number of skippable events so written, then an answer, then anything readable: under every chunking the request returns that answer |
| SseRequest.SuccessNeedsResult | crates/harness/src/mcp.rs:449-461 | for every chunking, the request succeeds with a value if and only if one of the events read before the first unreadable chunk is a proper result with it for this request and every event before that was to be skipped |
| SessionInvariant.NextKeepsInv | crates/harness/src/mcp.rs:417-574 | every step of every future, answer and cancellation keeps the session invariant |
| SessionInvariant.RunKeepsInv | crates/harness/src/mcp.rs:417-574 | so does every event list |
| McpSafety.RequestsCarryOneHandshake | crates/harness/src/mcp.rs:470-522 | every list or call request carries the session id and version that one handshake was granted together and whose `initialized` notification succeeded |
| McpHandshake.InitializeAcceptedExactly | crates/harness/src/mcp.rs:483-515 | an `initialize` answer is accepted if and only if it names one of the three versions and its session id is absent or non-empty visible ASCII; that id and that version become the pending state |
| McpHandshake.RequestsCarryAnAnswer | crates/harness/src/mcp.rs:474-522 | over every event list, a list or call request carries the session id and version of an answer that was taken while its future awaited the `initialize` of that handshake, and whose notification was accepted later |
| McpHandshake.ConnectedExactly | crates/harness/src/mcp.rs:553-557 | over every event list, tools can be called if and only if some listing was answered by a last page |
| McpHandshake.RetriedExactly | crates/harness/src/mcp.rs:562-574 | over every event list, a call handshakes again if and only if a request of its own, sent under a session, was answered by 404 |
| McpSafety.InitializeCarriesNoSession | crates/harness/src/mcp.rs:480-482 | an `initialize` carries neither session nor version |
| McpSafety.IdsAreNeverReused | crates/harness/src/mcp.rs:423 | no two requests take the same ticket, and their 64-bit ids differ until the counter has gone round |
| McpSafety.WireIdsDifferExactly | crates/harness/src/mcp.rs:423 | the ids of the first `n` tickets are pairwise different on the wire if and only if `n` is at most 2^64 |
| McpIds.IdsDifferExactly | crates/harness/src/mcp.rs:417-424 | in every run that hands out at most `n` ids the logged requests carry pairwise different ids on the wire, if and only if `n` is at most 2^64 |
| McpIds.LongRun | crates/harness/src/mcp.rs:417-574 | there are runs with any number of requests from two on, each under the next ticket |
| McpIds.PagesUpTo | crates/harness/src/mcp.rs:525-559 | the page limit is reached: for every `n` up to 64 some run posts `n` list requests |
| McpSafety.RequestsPerFuture | crates/harness/src/mcp.rs:525-574 | one tool call posts at most two `tools/call` and one `initialize`, none without a retry; connecting posts one `initialize` and at most 64 `tools/list` |
| McpSafety.RetryCarriesANewerHandshake | crates/harness/src/mcp.rs:562-574 | the second `tools/call` of a call goes out under a handshake stored later than that of the first |
| McpSafety.RetryNeedsAHeldSession | crates/harness/src/mcp.rs:565 | a call handshakes again only after it has posted a request that carried a session id |
| McpRecovery.RefusedCallRecovers | crates/harness/src/mcp.rs:562-574 | left alone, a call whose first request met a 404 on a held session, with its handshake accepted and acknowledged, posts exactly one `initialize` and one more `tools/call`, under the state just granted |
| McpRetry.SecondCallFollowsItsOwnHandshake | crates/harness/src/mcp.rs:562-574 | under every interleaving, the second `tools/call` of a call carries a stored handshake no earlier than one whose `initialize` that call itself posted |
| McpSafety.OnlyStoringReplacesTheState | crates/harness/src/mcp.rs:516-520 | the shared state changes only when a future stores a granted, acknowledged state, and then to that state |
| ToolsList.ListTools | crates/harness/src/mcp.rs:525-559 | the page loop computes `ListFrom`, sends between 1 and 64 requests, the first without a cursor and each other with the cursor of the page before it |
| ToolsList.TakePage | crates/harness/src/mcp.rs:546-552 | a page is added entry by entry, failing at the first invalid or repeated one |
| ToolsList.UsableExactly | crates/harness/src/mcp.rs:591-618 | an entry is usable if and only if it has a valid string name and an input schema object whose `type` is "object"; the tool made of it has that name, that schema and its text as description, unless that is missing, empty or no string |
| ToolsList.TakeEntriesExactly | crates/harness/src/mcp.rs:546-552 | a page is taken if and only if all entries are usable and no name repeats, on it or on an earlier page |
| ToolsList.ListingSucceedsExactly | crates/harness/src/mcp.rs:525-559 | against any server, listing succeeds if and only if its pages end within 64, all entries are usable and all names differ; the result is all entries of all pages in order |
| ToolsList.ListedNamesAreValid | crates/harness/src/mcp.rs:584-618 | each listed tool has its entry's name, which passes validation |
| ToolsList.EndlessServerIsCutOff | crates/harness/src/mcp.rs:525-559 | against a server that always hands on a cursor listing always fails, and with the page-limit error if and only if all 64 pages have a tools array, all their entries are usable and all names differ |
| ListErrors.WellNamedExactly | crates/harness/src/mcp.rs:584-589 | a valid name has 1 to 64 letters, digits, hyphens and underscores of ASCII |
| ListErrors.PageExactly | crates/harness/src/mcp.rs:541-557 | which pages hold tools, which point on and by what cursor, which end the listing |
| ListErrors.EntryErrorExactly | crates/harness/src/mcp.rs:546-552 | a page ends in an error if and only if it is that of its first entry that cannot be listed: no name, no valid tool, or a name listed before |
| ListErrors.ListErrorExactly | crates/harness/src/mcp.rs:525-559 | against any server, listing ends in an error if and only if it is that of the first page that goes wrong, everything before it listable, or that of the 65th page |
| Registry.RegisterMcpTools | crates/harness/src/mcp.rs:808-828 | a batch free of collisions is added whole; otherwise the registry is unchanged and the error names the first colliding entry |
| Registry.CollidesExactly | crates/harness/src/mcp.rs:815-820 | a name collides if and only if it is one of the six reserved ones, is registered, or stands earlier in the batch |
| Registry.CleanBatchAddsDisjointly | crates/harness/src/mcp.rs:808-828 | what a batch adds is disjoint from the registry and the reserved names and holds every tool of the batch under its own name |
| Registry.ConnectAndRegister | crates/harness/src/mcp.rs:833-884 | servers are taken in order, each step adding its whole batch or nothing, with one report each |
| Registry.RegistrationIsAllOrNothing | crates/harness/src/mcp.rs:801-884 | the final registry is the initial one unchanged plus exactly the tools of the connected servers, under no reserved name |
| Registry.ReportsMatchServers | crates/harness/src/mcp.rs:833-884 | one report per server in order; a connected one lists all its tools and a failed one leaves the registry as it was |
| Registry.ConnectedServersAreDisjoint | crates/harness/src/mcp.rs:830-884 | two connected servers never share a tool name |
| ChangeEvidence.CombineChildObservations | crates/harness/src/exec.rs:730-773 | the combining loops compute `Combine`: the first failing child, or the joined status and head lines |
| ChangeEvidence.FirstFailureIsNamed | crates/harness/src/exec.rs:731-746 | an unobservable workspace names its first unreadable child with its reason, cut off behind exactly 200 characters |
| ChangeEvidence.CombinedTextExactly | crates/harness/src/exec.rs:753-772 | when every child was seen: the status is each status line behind its child's name and a slash, one under the other and trimmed; the head is one line per child with its commit or `none` |
| ChangeEvidence.NamedLinesDetermined | crates/harness/src/exec.rs:756-770 | status lines are determined by their joined text, whatever line breaks the names hold |
| ChangeEvidence.StatusLinesDetermine | crates/harness/src/exec.rs:756-766 | with the names known, the flattened status lines determine every child's status |
| ChangeEvidence.HeadLinesDetermine | crates/harness/src/exec.rs:767-771 | when no name spells a head line, the joined head lines determine the names and every child's head |
| ChangeEvidence.HeadsDeterminedUnderNames | crates/harness/src/exec.rs:767-771 | with the names known, any names at all, the joined head lines determine every child's head |
| ChangeEvidence.StatusText | crates/harness/src/exec.rs:769-770 | of the joined status, trimming removes leading blanks of the first line's name and nothing else |
| ChangeEvidence.FlatteningKeepsTheVerdict | crates/harness/src/exec.rs:730-819 | under file names that spell no head line, and of which no two before the change agree up to leading blanks, the verdict on two flattened workspaces is unobservable if and only if some child is, and unchanged if and only if all children were seen and are the same |
| ChangeEvidence.SameNamesKeepTheVerdict | crates/harness/src/exec.rs:730-819 | with the same file names on both sides, line breaks or not, no two of which agree up to leading blanks, the verdict is unchanged if and only if all children were seen and are the same |
| FlatteningLimits.FlatteningIsFaithfulExactly | crates/harness/src/exec.rs:730-819 | for any file names, the same on both sides, every verdict is right if and only if no two names agree up to leading blanks |
| HeadReadings.ReadingReads | crates/harness/src/exec.rs:767-771 | whatever the names of some children spell, their joined head lines are also those of their reading: children under names that spell no head line |
| HeadReadings.SameReadingExactly | crates/harness/src/exec.rs:767-771 | joined head lines are the same text if and only if they have the same reading |
| HeadReadings.SameStatusExactly | crates/harness/src/exec.rs:756-770 | trimmed statuses are the same text if and only if their lines agree up to leading blanks of the first |
| HeadReadings.FlattenedEqualExactly | crates/harness/src/exec.rs:730-773 | under any file names, two flattened workspaces are equal if and only if their heads have the same reading and their status lines agree up to leading blanks of the first |
| FlatteningLimits.PairFaithfulExactly | crates/harness/src/exec.rs:730-819 | for any two lists of file names, every verdict between children under them is right if and only if the lists are the same and no two names agree up to leading blanks, or their parts differ |
| FlatteningLimits.SafeExactly | crates/harness/src/exec.rs:651-819 | for sorted, non-empty file names, every verdict against every such list of names that spell no head line is right if and only if these names spell none either and no two agree up to leading blanks, or some spells one and the names of the parts are not sorted or not all non-empty |
| FlatteningLimits.LineBreakHidesAChange | crates/harness/src/exec.rs:767-772 | any two names with anything that reads as a head and a line break between them, as one name, hide a child |
| TreeEvidence.ScansExactly | crates/harness/src/exec.rs:612-624 | from the git results of two child scans, under any file names: unchanged if and only if every child was read and the flattened texts look alike |
| TreeEvidence.ScansJudgedRightExactly | crates/harness/src/exec.rs:612-624 | for any two lists of file names, every pair of scans that find them reads as unchanged just when every child was read and the same children are there with the same trimmed status and head, if and only if the names tell apart |
| TreeEvidence.WorkspaceVerdict | crates/harness/src/exec.rs:612-624 | where the names of two scans tell apart, the pair is judged right, whatever the status texts are |
| TreeEvidence.TreeVerdict | crates/harness/src/exec.rs:581-819 | over every pair of workspaces under any file names and every branch: unobservable if and only if a root that is no work tree has a `.git` entry, no child or an unreadable child; unchanged if and only if both are repositories with the same results, or both are scans whose flattened texts look alike, which means the same children wherever the names tell apart; moving between two readable ones of different kind is a change |
| Text.TrimSplits | crates/harness/src/exec.rs:704-710 | trimming takes white space off both ends of a git output and nothing else |
| Text.SameTrimExactly | crates/harness/src/exec.rs:704-710 | two outputs trim to the same text if and only if they are one trimmed text with white space around it |
| Text.WhitespaceExactly | crates/harness/src/exec.rs:704-710 | the code points that count as white space |
| TreeEvidence.RawVerdict | crates/harness/src/exec.rs:581-819 | on what git printed: two repositories are unchanged if and only if their statuses agree up to surrounding white space, and their heads are both missing or agree likewise; two scans whose names tell apart, if and only if the same children are there and each agrees in this way |
| TreeEvidence.ReasonIsNamed | crates/harness/src/exec.rs:776-819 | what could not be seen is named: the current workspace before the baseline, and of a scan its first unreadable child |
| ProcessGroup.Run | crates/harness/src/exec.rs:158-225 | over any schedule, phase, leader, guard and signals are those of the state machine |
| ProcessGroup.AtMostOneSignal | crates/harness/src/exec.rs:190-277 | over every schedule: never two signals, never to another group, none on completion or spawn failure, exactly one on a timeout or drop while the leader is unreaped |
| ProcessGroup.NothingAfterTheEnd | crates/harness/src/exec.rs:203-216 | after a timeout, completion or drop nothing sends a further signal |
| ProcessGroup.TimeoutKillsExactly | crates/harness/src/exec.rs:202-215 | over every schedule, a timer sends a signal if and only if it is the first timer or drop since the spawn and the leader was not reaped between |
| ProcessGroup.LateSignalExactly | crates/harness/src/exec.rs:174-216 | over every schedule, a signal goes out after the leader was reaped if and only if the future is dropped after a spawn and the reaping, with no timeout or drop since the spawn and the pipes still open |
| ProcessGroup.CompletesExactly | crates/harness/src/exec.rs:185-201 | over every schedule, a run completes if and only if its leader is reaped and then its pipes are drained, with neither timer nor drop before |
| ProcessGroup.EndsExactly | crates/harness/src/exec.rs:185-224 | over every schedule, a run times out if and only if the timer is first to end the wait and the killed child is then reaped before a drop; likewise for a drop in either wait, and each end tells whether the leader had been reaped |
| ProcessGroup.DropAfterReapStillSignals | crates/harness/src/exec.rs:177-192 | the shortest such schedule signals, and a timeout at the same point does not |
| TomlString.TomlBasicString | crates/harness/src/mined_harbor.rs:304-322 | the loop writes the opening quote, every character's escape in order, and the closing quote |
| TomlString.QuotedReadsBack | crates/harness/src/mined_harbor.rs:304-322 | a reader of TOML basic strings gets the original text back and stops at the closing quote, whatever follows |
| TomlString.QuotedIsInjective | crates/harness/src/mined_harbor.rs:304-322 | two quoted strings at the front of equal texts quote the same string |
| TomlString.QuotedHasNoControl | crates/harness/src/mined_harbor.rs:314-316 | the output holds no raw control character |
| TomlString.EscapesExactly | crates/harness/src/mined_harbor.rs:308-318 | the spelling of every character: five short escapes, four upper-case hex digits for other control characters, itself for the rest |
| TomlString.QuotedSpells | crates/harness/src/mined_harbor.rs:304-322 | a quoted string is its characters' spellings in order, between quotes |
| UvLock.SshExactly | crates/harness/src/mined_harbor.rs:767-778 | a url counts as ssh if and only if it starts with `ssh://`, or has no scheme and the form `user@host:path` with user and host not empty |
| UvLock.ScanLine | crates/harness/src/mined_harbor.rs:788-813 | the search loop over one line computes `TakeLine`, with the errors in source order |
| UvLock.ParseUvLockGitDeps | crates/harness/src/mined_harbor.rs:784-816 | the line loop computes `ParseLock` |
| UvLock.ScanFollowsShape | crates/harness/src/mined_harbor.rs:789-795 | a line made of needle-free gaps and quoted urls yields exactly those urls, non-overlapping and left to right |
| UvLock.EveryLineHasAShape | crates/harness/src/mined_harbor.rs:789-795 | every line has such a form |
| UvLock.LockIsReadExactly | crates/harness/src/mined_harbor.rs:780-816 | reading succeeds if and only if every source is terminated and every ssh source pinned; the result is the ssh sources at their first appearance, without duplicates |
| UvLock.FirstSeenKeepsMembers | crates/harness/src/mined_harbor.rs:810-812 | keeping first appearances loses no member and repeats none |
| UvLock.LockSplitsAtLineEnds | crates/harness/src/mined_harbor.rs:784-816 | at every line end, two parts are readable together if and only if each is, and the result is the first part's dependencies and the second part's, at their first appearance |
| UvLock.LockDepsArePinned | crates/harness/src/mined_harbor.rs:799-809 | every dependency has a 40-hex commit, a url without query or fragment, and comes from an ssh source of the lockfile |
| LockText.TextLinesExactly | crates/harness/src/mined_harbor.rs:787 | the lines of a text are the only ones that, each ended by a line feed or a carriage return and a line feed, a last one perhaps by nothing, spell that text |
| LockText.SourcesOfLine | crates/harness/src/mined_harbor.rs:788-796 | a line without the opening words holds no source; behind them stands a source up to the next quote, or one that nothing closes |
| LockText.PinsExactly | crates/harness/src/mined_harbor.rs:800-809 | a url pins a dependency if and only if it consists of the dependency's url without `#` and `?`, perhaps a query, and its commit of 40 lower-case hex digits as the fragment |
| LockText.LockSaysExactly | crates/harness/src/mined_harbor.rs:780-816 | reading succeeds if and only if every source is closed and every ssh url pins something; the dependencies are then what those urls pin and nothing else |
| LockText.FirstSeenInOrder | crates/harness/src/mined_harbor.rs:810-812 | of two dependencies read, the earlier one was pinned first |
| LockErrors.LockErrorExactly | crates/harness/src/mined_harbor.rs:780-816 | reading ends in an error if and only if it is that of the first line not in order: its first ssh url that pins nothing, or else its open source |
| UvLock.MergeInto | crates/harness/src/mined_harbor.rs:870-883 | the inner merge loop computes `Merge`, stopping at the first conflicting pin |
| UvLock.DiscoverGitDeps | crates/harness/src/mined_harbor.rs:864-886 | the loop over repositories merges the lockfiles in order and skips those without one |
| UvLock.DiscoveryExactly | crates/harness/src/mined_harbor.rs:855-886 | merging succeeds if and only if each lockfile is readable and no url is pinned twice differently; each fetch url then has one commit |
| LockErrors.DiscoveryErrorExactly | crates/harness/src/mined_harbor.rs:855-886 | merging ends in an error if and only if it is that of the first repository whose lockfile cannot be read, or pins a url to another commit than one before; a conflict names the url and both commits in order |
| DenyPolicy.DecideByHistory | crates/harness/src/memory.rs:594-631 | against a bookkeeping of past denies, a call is denied if and only if the mode denies, the advice is a non-blank deny, fewer than two were denied, and neither its entry nor its call was |
| DenyPolicy.StateIsHistory | crates/harness/src/engine.rs:5666-5670 | over every run the recorded entries, calls and counter are exactly the history of applied denies |
| DenyPolicy.DenyExactly | crates/harness/src/memory.rs:594-631 | after any run, a call is denied if and only if the policy allows it given what was denied before |
| DenyPolicy.DeniesAreBounded | crates/harness/src/memory.rs:42 | at most two denies, one per entry, no call twice, none in the other modes, and the counter is the size of both records |
| DenyPolicy.RetryGoesThrough | crates/harness/src/memory.rs:612-618 | an unchanged retry of a denied call is never denied, whatever advice follows |
| DenyPolicy.DecisionExactly | crates/harness/src/memory.rs:594-631 | after any run, each of the eight outcomes comes if and only if its condition on the mode, the advice and the calls and entries denied before holds; advice is blank if and only if its fact or its entry is all white space |
| Pricing.ChainSaturatesTheExactSum | crates/harness/src/model.rs:271-284 | saturating at every step equals saturating the exact sum once, before the division |
| Pricing.TurnCostsExactly | crates/harness/src/model.rs:258-284 | a turn costs the sum of its four kinds of tokens, each at its own price, absent cache counts as zero, cut at 64 bits and rounded down once |
| Pricing.BilledSumSaturatesOnce | crates/harness/src/model.rs:209-219 | the billed token count is the exact sum, saturated once |
| Pricing.PublishedPricesNeverSaturate | crates/harness/src/model.rs:302-313 | no published price saturates for any 32-bit usage |
| Pricing.PublishedPricesExactly | crates/harness/src/model.rs:243-313 | exactly five names are priced, each by its published table; a cache read costs a tenth of an input token and a cache write five quarters |
| Pricing.TotalsCostSlightlyMore | crates/harness/src/model.rs:250-284 | pricing a run's totals costs at least the sum of its turns' prices and less than one micro-dollar per turn more, while the totals do not saturate |
| Pricing.TotalsAddUp | crates/harness/src/model.rs:265-270 | a run's totals add up each kind of token by itself |

## Left out

- FlatteningLimits.PairFaithfulExactly: is about file names, in which no `/` occurs, and claims nothing about which lists of names a file system produces.
- TreeEvidence.TreeVerdict: is about whole commits of 40 or 64 hex digits, as `git rev-parse HEAD` prints them.
- SseParser.Parser.Push: says nothing about the fields after an unreadable line, because the request drops the parser at that point.
- Floating point: literals and trees carry the natural number their digits spell, and `eval.rs` is not modelled; the conversion of a literal to `f64` cannot fail on digits.
- `^`: not in the shipped grammar, so not in the model.
- HTTP, TLS, content types, headers other than the session's and redaction of error bodies: reduced to the replies and failures a state machine needs.
- JSON text: decoding a payload is a parameter, and a message is a JSON value; the lossy UTF-8 decoding of JSON bodies is not modelled.
- Timeouts of connects and calls: a future may be cancelled at every step, which covers them; no clock is modelled.
- The future of a call is modelled on values as a state machine, not as a class, because its steps interleave with those of other futures.
- `connect_server` in registration: its outcome for each server is an input; `render_call_result`, the tool wrapper and server names and versions in reports are not modelled.
- Processes, git, the file system and `discover_child_repos`: their results are inputs. Reaping, completion, the timer and the drop are events in any order.
- Whether a signal reaches its group, its log line, and the kills aimed at the child alone (`start_kill`, `kill_on_drop`): only the group signals are counted.
- The reason text of a failed git status: an input.
- Clones, bundles, `GitDep::name`, `source_repos` and reading lockfiles from git: lockfiles are optional texts in order.
- The engine loop: the record of an applied deny is taken from `crates/harness/src/engine.rs:5666-5670`, and tool arguments are texts compared for equality.
- Leap seconds: the timestamp reader does not take a seconds field of 60, which the formatter never prints.
- Wording of error messages: reduced to which rule was broken and the values it names.
- `anthropic.rs`, `bedrock.rs`, `mined_task.rs`, `task_spec.rs`, prompts, Dockerfiles and the other fixtures: tables, wire mapping and string templates without state or arithmetic of interest here.
