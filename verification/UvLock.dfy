/** Finding the ssh git dependencies a `uv.lock` pins (crates/harness/src/mined_harbor.rs,
    `parse_uv_lock_git_deps` and the merge loop of `discover_git_deps`). */
module UvLock {
  import opened Outcomes
  import opened Sequences

  datatype GitDep = GitDep(fetchUrl: string, commit: string)

  datatype LockError =
    | Unterminated(line: string)
    | Unpinned(url: string)
    | Conflict(fetchUrl: string, first: string, second: string)

  type Deps = Result<seq<GitDep>, LockError>

  const NEEDLE: string := "source = { git = \""

  // ----- Text search -----

  predicate OccursAt(s: string, t: string, i: nat) {
    i + |t| <= |s| && s[i..i + |t|] == t
  }

  predicate Occurs(s: string, t: string) {
    exists i: nat :: i <= |s| && OccursAt(s, t, i)
  }

  lemma OccursAtShift(s: string, t: string, k: nat)
    requires s != "" && k >= 1
    ensures OccursAt(s, t, k) <==> OccursAt(s[1..], t, k - 1)
  {
    if k + |t| <= |s| {
      var (a, b) := (s[k..k + |t|], s[1..][k - 1..k - 1 + |t|]);
      assert |a| == |b| && forall i | 0 <= i < |t| :: a[i] == s[k + i] == b[i];
      assert a == b;
    }
  }

  lemma OccursInTail(s: string, t: string)
    requires s != ""
    ensures forall k: nat | k >= 1 :: OccursAt(s, t, k) <==> OccursAt(s[1..], t, k - 1)
  {
    forall k: nat | k >= 1 ensures OccursAt(s, t, k) <==> OccursAt(s[1..], t, k - 1) {
      OccursAtShift(s, t, k);
    }
  }

  /** The first occurrence of `t`, if any. */
  function Find(s: string, t: string): (r: Option<nat>)
    ensures r.Some? ==> OccursAt(s, t, r.value) && forall j: nat | j < r.value :: !OccursAt(s, t, j)
    ensures r.None? ==> !Occurs(s, t)
  {
    if t <= s then Some(0)
    else if s == "" then None
    else
      OccursInTail(s, t);
      match Find(s[1..], t)
      case Some(i) => Some(i + 1)
      case None => None
  }

  /** The lines of a text, as `str::lines` cuts them: the last line feed ends a line and opens none. */
  function TextLines(s: string): seq<string>
    decreases |s|
  {
    if s == "" then []
    else
      var i := IndexOf(s, '\n');
      if i == |s| then [s]
      else
        [LineAt(s, i)] + TextLines(s[i + 1..])
  }

  /** The line in front of the line feed at `i`, without a carriage return before it. */
  function LineAt(s: string, i: nat): string
    requires i < |s|
  {
    if i > 0 && s[i - 1] == '\r' then s[..i - 1] else s[..i]
  }

  // ----- One url -----

  predicate IsFullSha(s: string) {
    |s| == 40 && forall i | 0 <= i < |s| :: '0' <= s[i] <= '9' || 'a' <= s[i] <= 'f'
  }

  predicate IsSshGitUrl(url: string) {
    if "ssh://" <= url then true
    else if Find(url, "://").Some? then false
    else
      var (at, colon) := (IndexOf(url, '@'), IndexOf(url, ':'));
      at < |url| && colon < |url| && at > 0 && colon > at + 1
  }

  function Fragment(url: string): string {
    var i := IndexOf(url, '#');
    if i == |url| then "" else url[i + 1..]
  }

  function FetchUrl(url: string): string {
    var base := url[..IndexOf(url, '#')];
    base[..IndexOf(base, '?')]
  }

  predicate IsPinned(url: string) {
    IsFullSha(Fragment(url))
  }

  function DepOf(url: string): GitDep {
    GitDep(FetchUrl(url), Fragment(url))
  }

  /** The scp form of a git url. */
  ghost predicate IsScpForm(url: string, user: string, host: string, path: string) {
    && user != "" && host != "" && '@' !in user && ':' !in user && ':' !in host
    && url == user + ("@" + (host + (":" + path)))
  }

  lemma ScpFormIsSsh(url: string, user: string, host: string, path: string)
    requires !("ssh://" <= url) && !Occurs(url, "://") && IsScpForm(url, user, host, path)
    ensures IsSshGitUrl(url)
  {
    assert url[..|user|] == user;
    IndexOfIs(url, '@', |user|);
    assert url[..|user| + 1 + |host|] == user + ("@" + host);
    IndexOfIs(url, ':', |user| + 1 + |host|);
  }

  lemma SshIsScpForm(url: string) returns (user: string, host: string, path: string)
    requires !("ssh://" <= url) && IsSshGitUrl(url)
    ensures IsScpForm(url, user, host, path)
  {
    var (at, colon) := (IndexOf(url, '@'), IndexOf(url, ':'));
    user, host, path := url[..at], url[at + 1..colon], url[colon + 1..];
    assert forall i | 0 <= i < colon :: url[i] == url[..colon][i];
  }

  /** A url is fetched over ssh exactly when it is an `ssh://` url, or has no scheme and the form
      `user@host:path` with a non-empty user and host. */
  lemma SshExactly(url: string)
    ensures IsSshGitUrl(url) <==>
            "ssh://" <= url || (!Occurs(url, "://") && exists user, host, path :: IsScpForm(url, user, host, path))
  {
    if !("ssh://" <= url) && !Occurs(url, "://") {
      if IsSshGitUrl(url) {
        var user, host, path := SshIsScpForm(url);
      }
      if user: string, host: string, path: string :| IsScpForm(url, user, host, path) {
        ScpFormIsSsh(url, user, host, path);
      }
    }
  }

  // ----- One line -----

  // The quoted urls of a line's sources, left to right; `open` when the last one is not closed.
  datatype Sources = Sources(urls: seq<string>, open: bool)

  /** The url quoted behind the needle at `start`, and the text behind it; nothing when it is not closed. */
  function SourceAt(rest: string, start: nat): (r: Option<(string, string)>)
    requires start + |NEEDLE| <= |rest|
    ensures r.Some? ==> |r.value.1| < |rest|
  {
    var after := rest[start + |NEEDLE|..];
    var end := IndexOf(after, '"');
    if end == |after| then None else Some((after[..end], after[end + 1..]))
  }

  function SourcesOf(rest: string): Sources
    decreases |rest|
  {
    match Find(rest, NEEDLE)
    case None => Sources([], false)
    case Some(start) =>
      match SourceAt(rest, start)
      case None => Sources([], true)
      case Some((url, behind)) => WithUrl(url, SourcesOf(behind))
  }

  function WithUrl(url: string, more: Sources): Sources {
    Sources([url] + more.urls, more.open)
  }

  /** The urls of a line from the first on, added to what was found before. */
  function TakeUrls(urls: seq<string>, deps: seq<GitDep>): Deps
    decreases |urls|
  {
    if urls == [] then Ok(deps)
    else if !IsSshGitUrl(urls[0]) then TakeUrls(urls[1..], deps)
    else if !IsPinned(urls[0]) then Err(Unpinned(urls[0]))
    else TakeUrls(urls[1..], if DepOf(urls[0]) in deps then deps else deps + [DepOf(urls[0])])
  }

  function TakeLine(line: string, deps: seq<GitDep>): Deps {
    var found := SourcesOf(line);
    match TakeUrls(found.urls, deps)
    case Err(e) => Err(e)
    case Ok(more) => if found.open then Err(Unterminated(line)) else Ok(more)
  }

  function TakeLines(lines: seq<string>, deps: seq<GitDep>): Deps
    decreases |lines|
  {
    if lines == [] then Ok(deps)
    else
      match TakeLine(lines[0], deps)
      case Err(e) => Err(e)
      case Ok(more) => TakeLines(lines[1..], more)
  }

  function ParseLock(lock: string): Deps {
    TakeLines(TextLines(lock), [])
  }

  method ScanLine(line: string, before: seq<GitDep>) returns (r: Deps)
    ensures r == TakeLine(line, before)
  {
    var deps := before;
    var rest := line;
    var next := Find(rest, NEEDLE);
    while next.Some?
      invariant next == Find(rest, NEEDLE)
      invariant match TakeUrls(SourcesOf(rest).urls, deps)
                case Err(e) => TakeLine(line, before) == Err(e)
                case Ok(d) => TakeLine(line, before) == if SourcesOf(rest).open then Err(Unterminated(line)) else Ok(d)
      decreases |rest|
    {
      var source := SourceAt(rest, next.value);
      if source.None? {
        return Err(Unterminated(line));
      }
      var (url, behind) := source.value;
      assert SourcesOf(rest).urls[0] == url && SourcesOf(rest).urls[1..] == SourcesOf(behind).urls;
      rest := behind;
      next := Find(rest, NEEDLE);
      if !IsSshGitUrl(url) {
        continue;
      }
      if !IsFullSha(Fragment(url)) {
        return Err(Unpinned(url));
      }
      var dep := GitDep(FetchUrl(url), Fragment(url));
      if dep !in deps {
        deps := deps + [dep];
      }
    }
    r := Ok(deps);
  }

  method ParseUvLockGitDeps(lock: string) returns (r: Deps)
    ensures r == ParseLock(lock)
  {
    var deps: seq<GitDep> := [];
    var lines := TextLines(lock);
    for i := 0 to |lines|
      invariant TakeLines(lines, []) == TakeLines(lines[i..], deps)
    {
      assert lines[i..][1..] == lines[i + 1..];
      var taken := ScanLine(lines[i], deps);
      if taken.Err? {
        return taken;
      }
      deps := taken.value;
    }
    r := Ok(deps);
  }

  // ----- What a line's sources are -----

  // A line as the scanner should see it: text without the needle, then perhaps a source.
  datatype Shape =
    | Plain(gap: string)
    | Opened(gap: string, tail: string)
    | Source(gap: string, url: string, more: Shape)

  function TextOf(sh: Shape): string {
    match sh
    case Plain(gap) => gap
    case Opened(gap, tail) => gap + (NEEDLE + tail)
    case Source(gap, url, more) => gap + (NEEDLE + (url + ("\"" + TextOf(more))))
  }

  ghost predicate IsShape(sh: Shape) {
    !Occurs(sh.gap, NEEDLE) &&
    match sh
    case Plain(_) => true
    case Opened(_, tail) => '"' !in tail
    case Source(_, url, more) => '"' !in url && IsShape(more)
  }

  function MeaningOf(sh: Shape): Sources {
    match sh
    case Plain(_) => Sources([], false)
    case Opened(_, _) => Sources([], true)
    case Source(_, url, more) => Sources([url] + MeaningOf(more).urls, MeaningOf(more).open)
  }

  /** `t` ends in a character it holds nowhere else, so it cannot overlap itself. */
  predicate EndsUniquely(t: string) {
    t != "" && Last(t) !in t[..|t| - 1]
  }

  lemma NeedleEndsUniquely()
    ensures EndsUniquely(NEEDLE)
  {
  }

  lemma OccurrenceSpells(s: string, t: string, j: nat)
    requires t != ""
    ensures OccursAt(s, t, j) ==> s[j + |t| - 1] == Last(t)
  {
    if OccursAt(s, t, j) {
      assert s[j..j + |t|][|t| - 1] == s[j + |t| - 1];
    }
  }

  lemma NoEarlierOccurrence(gap: string, t: string, tail: string, j: nat)
    requires EndsUniquely(t) && !Occurs(gap, t) && j < |gap|
    ensures !OccursAt(gap + (t + tail), t, j)
  {
    var s := gap + (t + tail);
    if j + |t| <= |gap| {
      assert !OccursAt(gap, t, j);
      assert gap[j..j + |t|] == s[j..j + |t|];
    } else {
      OccurrenceSpells(s, t, j);
      var k := j + |t| - 1 - |gap|;
      assert s[j + |t| - 1] == t[..|t| - 1][k];
    }
  }

  /** Behind a gap without it, the needle is found exactly where it was put. */
  lemma FoundBehindGap(gap: string, t: string, tail: string)
    requires EndsUniquely(t) && !Occurs(gap, t)
    ensures Find(gap + (t + tail), t) == Some(|gap|)
  {
    var s := gap + (t + tail);
    assert s[|gap|..|gap| + |t|] == t;
    assert OccursAt(s, t, |gap|);
    forall j: nat | j < |gap| ensures !OccursAt(s, t, j) {
      NoEarlierOccurrence(gap, t, tail, j);
    }
  }

  lemma GapBeforeFirst(s: string, t: string, i: nat)
    requires OccursAt(s, t, i) && t != "" && forall j: nat | j < i :: !OccursAt(s, t, j)
    ensures !Occurs(s[..i], t) && s == s[..i] + (t + s[i + |t|..])
  {
    forall j: nat | j <= i ensures !OccursAt(s[..i], t, j) {
      if j + |t| <= i {
        assert !OccursAt(s, t, j);
        assert s[..i][j..j + |t|] == s[j..j + |t|];
      }
    }
  }

  /** Whatever shape a line has, scanning it yields that shape's urls. */
  lemma {:induction false} ScanFollowsShape(sh: Shape)
    requires IsShape(sh)
    ensures SourcesOf(TextOf(sh)) == MeaningOf(sh)
  {
    match sh
    case Plain(gap) =>
      assert Find(gap, NEEDLE).Some? ==> Occurs(gap, NEEDLE);
    case Opened(gap, tail) =>
      NeedleEndsUniquely();
      FoundBehindGap(gap, NEEDLE, tail);
      assert TextOf(sh)[|gap| + |NEEDLE|..] == tail;
      assert tail[..|tail|] == tail;
      IndexOfIs(tail, '"', |tail|);
    case Source(gap, url, more) =>
      var after := url + ("\"" + TextOf(more));
      NeedleEndsUniquely();
      FoundBehindGap(gap, NEEDLE, after);
      assert TextOf(sh)[|gap| + |NEEDLE|..] == after;
      assert after[..|url|] == url && after[|url| + 1..] == TextOf(more);
      IndexOfIs(after, '"', |url|);
      ScanFollowsShape(more);
  }

  lemma SourceShape(gap: string, after: string, end: nat, more: Shape)
    requires !Occurs(gap, NEEDLE) && end < |after| && after[end] == '"' && '"' !in after[..end]
    requires IsShape(more) && TextOf(more) == after[end + 1..]
    ensures IsShape(Source(gap, after[..end], more))
    ensures TextOf(Source(gap, after[..end], more)) == gap + (NEEDLE + after)
  {
    assert after == after[..end] + ("\"" + after[end + 1..]);
  }

  lemma FirstNeedle(line: string) returns (gap: string, after: string)
    requires Find(line, NEEDLE).Some?
    ensures !Occurs(gap, NEEDLE) && line == gap + (NEEDLE + after) && |after| < |line|
  {
    var i := Find(line, NEEDLE).value;
    gap, after := line[..i], line[i + |NEEDLE|..];
    GapBeforeFirst(line, NEEDLE, i);
  }

  /** Every line has a shape. */
  lemma {:induction false} EveryLineHasAShape(line: string) returns (sh: Shape)
    ensures IsShape(sh) && TextOf(sh) == line
    decreases |line|
  {
    if Find(line, NEEDLE).None? {
      return Plain(line);
    }
    var gap, after := FirstNeedle(line);
    var end := IndexOf(after, '"');
    if end == |after| {
      assert after[..end] == after;
      sh := Opened(gap, after);
    } else {
      var more := EveryLineHasAShape(after[end + 1..]);
      SourceShape(gap, after, end, more);
      sh := Source(gap, after[..end], more);
    }
  }

  // ----- What a lockfile's dependencies are -----

  function AllUrls(lines: seq<string>): seq<string> {
    if lines == [] then [] else SourcesOf(lines[0]).urls + AllUrls(lines[1..])
  }

  predicate AllClosed(lines: seq<string>) {
    forall i | 0 <= i < |lines| :: !SourcesOf(lines[i]).open
  }

  predicate AllPinned(urls: seq<string>) {
    forall i | 0 <= i < |urls| && IsSshGitUrl(urls[i]) :: IsPinned(urls[i])
  }

  function SshDeps(urls: seq<string>): seq<GitDep> {
    if urls == [] then []
    else if IsSshGitUrl(urls[0]) then [DepOf(urls[0])] + SshDeps(urls[1..])
    else SshDeps(urls[1..])
  }

  /** The elements at their first appearance, in that order. */
  function FirstSeen<T(==)>(s: seq<T>): seq<T> {
    if s == [] then []
    else
      var front := s[..|s| - 1];
      if s[|s| - 1] in front then FirstSeen(front) else FirstSeen(front) + [s[|s| - 1]]
  }

  lemma {:induction false} FirstSeenKeepsMembers<T>(s: seq<T>)
    ensures forall x :: x in FirstSeen(s) <==> x in s
    ensures forall i, j | 0 <= i < j < |FirstSeen(s)| :: FirstSeen(s)[i] != FirstSeen(s)[j]
  {
    if s != [] {
      var (front, last) := (s[..|s| - 1], s[|s| - 1]);
      FirstSeenKeepsMembers(front);
      assert s == front + [last];
    }
  }

  lemma FirstSeenOneMore<T>(s: seq<T>, x: T)
    ensures FirstSeen(s + [x]) == if x in FirstSeen(s) then FirstSeen(s) else FirstSeen(s) + [x]
  {
    assert (s + [x])[..|s|] == s;
    FirstSeenKeepsMembers(s);
  }

  lemma {:induction false} FirstSeenAppend<T>(a: seq<T>, b: seq<T>, x: T)
    ensures FirstSeen(a + ([x] + b)) == FirstSeen((a + [x]) + b)
  {
    assert a + ([x] + b) == (a + [x]) + b;
  }

  /** Taking urls fails at the first unpinned ssh url, and otherwise collects first appearances. */
  lemma {:induction false} TakeUrlsExactly(urls: seq<string>, seen: seq<GitDep>)
    ensures TakeUrls(urls, FirstSeen(seen)).Ok? <==> AllPinned(urls)
    ensures AllPinned(urls) ==> TakeUrls(urls, FirstSeen(seen)) == Ok(FirstSeen(seen + SshDeps(urls)))
    decreases |urls|
  {
    if urls == [] {
      assert seen + SshDeps(urls) == seen;
    } else {
      var rest := urls[1..];
      assert AllPinned(urls) <==> (IsSshGitUrl(urls[0]) ==> IsPinned(urls[0])) && AllPinned(rest) by {
        assert forall i | 0 <= i < |rest| :: rest[i] == urls[i + 1];
      }
      if IsSshGitUrl(urls[0]) {
        FirstSeenOneMore(seen, DepOf(urls[0]));
        TakeUrlsExactly(rest, seen + [DepOf(urls[0])]);
        FirstSeenAppend(seen, SshDeps(rest), DepOf(urls[0]));
      } else {
        TakeUrlsExactly(rest, seen);
      }
    }
  }

  lemma {:induction false} SshDepsAppend(a: seq<string>, b: seq<string>)
    ensures SshDeps(a + b) == SshDeps(a) + SshDeps(b)
  {
    if a == [] {
      assert a + b == b;
    } else {
      assert (a + b)[1..] == a[1..] + b;
      SshDepsAppend(a[1..], b);
    }
  }

  lemma AllPinnedAppend(a: seq<string>, b: seq<string>)
    ensures AllPinned(a + b) <==> AllPinned(a) && AllPinned(b)
  {
    assert forall i | 0 <= i < |a| :: (a + b)[i] == a[i];
    assert forall i | 0 <= i < |b| :: (a + b)[|a| + i] == b[i];
  }

  lemma AllClosedCons(lines: seq<string>)
    requires lines != []
    ensures AllClosed(lines) <==> !SourcesOf(lines[0]).open && AllClosed(lines[1..])
  {
    assert forall i | 0 <= i < |lines| - 1 :: lines[1..][i] == lines[i + 1];
  }

  lemma {:induction false} TakeLinesExactly(lines: seq<string>, seen: seq<GitDep>)
    ensures TakeLines(lines, FirstSeen(seen)).Ok? <==> AllClosed(lines) && AllPinned(AllUrls(lines))
    ensures TakeLines(lines, FirstSeen(seen)).Ok? ==>
              TakeLines(lines, FirstSeen(seen)).value == FirstSeen(seen + SshDeps(AllUrls(lines)))
    decreases |lines|
  {
    if lines == [] {
      assert seen + SshDeps(AllUrls(lines)) == seen;
    } else {
      var (found, rest) := (SourcesOf(lines[0]), lines[1..]);
      TakeUrlsExactly(found.urls, seen);
      AllPinnedAppend(found.urls, AllUrls(rest));
      AllClosedCons(lines);
      if AllPinned(found.urls) && !found.open {
        TakeLinesExactly(rest, seen + SshDeps(found.urls));
        SshDepsAppend(found.urls, AllUrls(rest));
        Associate(seen, SshDeps(found.urls), SshDeps(AllUrls(rest)));
      }
    }
  }

  lemma StartFromNothing(lines: seq<string>, none: seq<GitDep>)
    requires none == []
    ensures TakeLines(lines, none).Ok? <==> AllClosed(lines) && AllPinned(AllUrls(lines))
    ensures TakeLines(lines, none).Ok? ==> TakeLines(lines, none).value == FirstSeen(SshDeps(AllUrls(lines)))
  {
    TakeLinesExactly(lines, none);
    assert FirstSeen(none) == none;
    assert none + SshDeps(AllUrls(lines)) == SshDeps(AllUrls(lines));
  }

  /** A lockfile is read exactly when every source is closed and every ssh source pinned; the result
      is its ssh sources at their first appearance, in order and without duplicates. */
  lemma LockIsReadExactly(lock: string)
    ensures ParseLock(lock).Ok? <==> AllClosed(TextLines(lock)) && AllPinned(AllUrls(TextLines(lock)))
    ensures ParseLock(lock).Ok? ==> ParseLock(lock).value == FirstSeen(SshDeps(AllUrls(TextLines(lock))))
  {
    StartFromNothing(TextLines(lock), []);
  }

  lemma FirstLineOfAppend(a: string, b: string, i: nat)
    requires a != "" && Last(a) == '\n' && i == IndexOf(a, '\n')
    ensures i < |a| && IndexOf(a + b, '\n') == i
    ensures LineAt(a + b, i) == LineAt(a, i) && (a + b)[i + 1..] == a[i + 1..] + b
  {
    assert a[..|a|] == a;
    assert (a + b)[..i] == a[..i];
    IndexOfIs(a + b, '\n', i);
    assert i > 0 ==> (a + b)[..i - 1] == a[..i - 1];
  }

  lemma {:induction false} TextLinesAppend(a: string, b: string)
    requires a == "" || Last(a) == '\n'
    ensures TextLines(a + b) == TextLines(a) + TextLines(b)
    decreases |a|
  {
    if a == "" {
      assert a + b == b;
    } else {
      var i := IndexOf(a, '\n');
      FirstLineOfAppend(a, b, i);
      TextLinesAppend(a[i + 1..], b);
      assert TextLines(a) == [LineAt(a, i)] + TextLines(a[i + 1..]);
      Associate([LineAt(a, i)], TextLines(a[i + 1..]), TextLines(b));
    }
  }

  lemma {:induction false} AllUrlsAppend(a: seq<string>, b: seq<string>)
    ensures AllUrls(a + b) == AllUrls(a) + AllUrls(b)
  {
    if a == [] {
      assert a + b == b;
    } else {
      assert (a + b)[1..] == a[1..] + b;
      AllUrlsAppend(a[1..], b);
      Associate(SourcesOf(a[0]).urls, AllUrls(a[1..]), AllUrls(b));
    }
  }

  lemma AllClosedAppend(a: seq<string>, b: seq<string>)
    ensures AllClosed(a + b) <==> AllClosed(a) && AllClosed(b)
  {
    assert forall i | 0 <= i < |a| :: (a + b)[i] == a[i];
    assert forall i | 0 <= i < |b| :: (a + b)[|a| + i] == b[i];
  }

  lemma {:induction false} FirstSeenOfFirstSeen<T>(a: seq<T>, b: seq<T>)
    ensures FirstSeen(FirstSeen(a) + FirstSeen(b)) == FirstSeen(a + b)
    decreases |b|
  {
    if b == [] {
      assert FirstSeen(a) + FirstSeen(b) == FirstSeen(a) && a + b == a;
      FirstSeenTwice(a);
    } else {
      var (front, last) := (b[..|b| - 1], b[|b| - 1]);
      assert b == front + [last] && a + b == (a + front) + [last];
      FirstSeenOfFirstSeen(a, front);
      FirstSeenOneMore(front, last);
      FirstSeenOneMore(a + front, last);
      FirstSeenKeepsMembers(a + front);
      FirstSeenKeepsMembers(front);
      if last !in FirstSeen(front) {
        Associate(FirstSeen(a), FirstSeen(front), [last]);
        FirstSeenOneMore(FirstSeen(a) + FirstSeen(front), last);
      }
    }
  }

  lemma {:induction false} FirstSeenTwice<T>(s: seq<T>)
    ensures FirstSeen(FirstSeen(s)) == FirstSeen(s)
    decreases |s|
  {
    if s != [] {
      var (front, last) := (s[..|s| - 1], s[|s| - 1]);
      FirstSeenTwice(front);
      FirstSeenKeepsMembers(front);
      FirstSeenOneMore(FirstSeen(front), last);
    }
  }

  /** Scanning is compositional at line ends: two parts are readable together exactly when each is,
      and their dependencies are those of the one followed by the new ones of the other. */
  lemma LockSplitsAtLineEnds(a: string, b: string)
    requires a == "" || Last(a) == '\n'
    ensures ParseLock(a + b).Ok? <==> ParseLock(a).Ok? && ParseLock(b).Ok?
    ensures ParseLock(a + b).Ok? ==>
              ParseLock(a + b).value == FirstSeen(ParseLock(a).value + ParseLock(b).value)
  {
    var (x, y) := (TextLines(a), TextLines(b));
    TextLinesAppend(a, b);
    AllUrlsAppend(x, y);
    AllClosedAppend(x, y);
    AllPinnedAppend(AllUrls(x), AllUrls(y));
    SshDepsAppend(AllUrls(x), AllUrls(y));
    LockIsReadExactly(a);
    LockIsReadExactly(b);
    LockIsReadExactly(a + b);
    FirstSeenOfFirstSeen(SshDeps(AllUrls(x)), SshDeps(AllUrls(y)));
  }

  /** Every dependency read is pinned to a full commit and its url carries no query or fragment. */
  lemma LockDepsArePinned(lock: string, dep: GitDep)
    requires ParseLock(lock).Ok? && dep in ParseLock(lock).value
    ensures IsFullSha(dep.commit) && '#' !in dep.fetchUrl && '?' !in dep.fetchUrl
    ensures exists url :: url in AllUrls(TextLines(lock)) && IsSshGitUrl(url) && dep == DepOf(url)
  {
    LockIsReadExactly(lock);
    var urls := AllUrls(TextLines(lock));
    FirstSeenKeepsMembers(SshDeps(urls));
    var url := SshDepComesFromUrl(urls, dep);
    var base := url[..IndexOf(url, '#')];
    var i := IndexOf(base, '?');
    assert dep.fetchUrl == base[..i];
    assert forall k | 0 <= k < i :: base[..i][k] == base[k];
  }

  lemma {:induction false} SshDepComesFromUrl(urls: seq<string>, dep: GitDep) returns (url: string)
    requires dep in SshDeps(urls) && AllPinned(urls)
    ensures url in urls && IsSshGitUrl(url) && IsPinned(url) && dep == DepOf(url)
  {
    if IsSshGitUrl(urls[0]) && dep == DepOf(urls[0]) {
      url := urls[0];
    } else {
      assert forall i | 0 <= i < |urls| - 1 :: urls[1..][i] == urls[i + 1];
      url := SshDepComesFromUrl(urls[1..], dep);
    }
  }

  // ----- Several lockfiles -----

  /** Two pins of one url disagree. */
  predicate Clash(a: GitDep, b: GitDep) {
    a.fetchUrl == b.fetchUrl && a.commit != b.commit
  }

  function FirstClash(deps: seq<GitDep>, dep: GitDep): (i: nat)
    ensures i <= |deps| && (forall k | 0 <= k < i :: !Clash(deps[k], dep)) && (i < |deps| ==> Clash(deps[i], dep))
  {
    if deps == [] || Clash(deps[0], dep) then 0 else 1 + FirstClash(deps[1..], dep)
  }

  function Merge(deps: seq<GitDep>, more: seq<GitDep>): Deps
    decreases |more|
  {
    if more == [] then Ok(deps)
    else
      var i := FirstClash(deps, more[0]);
      if i < |deps| then Err(Conflict(more[0].fetchUrl, deps[i].commit, more[0].commit))
      else Merge(if more[0] in deps then deps else deps + [more[0]], more[1..])
  }

  /** Merge the lockfiles in order; a repository without one contributes nothing. */
  function MergeLocks(locks: seq<Option<string>>, deps: seq<GitDep>): Deps
    decreases |locks|
  {
    if locks == [] then Ok(deps)
    else if locks[0].None? then MergeLocks(locks[1..], deps)
    else
      match ParseLock(locks[0].value)
      case Err(e) => Err(e)
      case Ok(found) =>
        match Merge(deps, found)
        case Err(e) => Err(e)
        case Ok(merged) => MergeLocks(locks[1..], merged)
  }

  method MergeInto(before: seq<GitDep>, found: seq<GitDep>) returns (r: Deps)
    ensures r == Merge(before, found)
  {
    var deps := before;
    for i := 0 to |found|
      invariant Merge(before, found) == Merge(deps, found[i..])
    {
      var dep := found[i];
      assert found[i..][1..] == found[i + 1..];
      var other := FirstClash(deps, dep);
      if other < |deps| {
        return Err(Conflict(dep.fetchUrl, deps[other].commit, dep.commit));
      }
      if dep !in deps {
        deps := deps + [dep];
      }
    }
    r := Ok(deps);
  }

  method DiscoverGitDeps(locks: seq<Option<string>>) returns (r: Deps)
    ensures r == MergeLocks(locks, [])
  {
    var deps: seq<GitDep> := [];
    for i := 0 to |locks|
      invariant MergeLocks(locks, []) == MergeLocks(locks[i..], deps)
    {
      assert locks[i..][1..] == locks[i + 1..];
      if locks[i].None? {
        continue;
      }
      var found := ParseUvLockGitDeps(locks[i].value);
      if found.Err? {
        return found;
      }
      var merged := MergeInto(deps, found.value);
      if merged.Err? {
        return merged;
      }
      deps := merged.value;
    }
    r := Ok(deps);
  }

  /** Every url is pinned once. */
  predicate Agreeing(deps: seq<GitDep>) {
    forall i, j | 0 <= i < |deps| && 0 <= j < |deps| :: !Clash(deps[i], deps[j])
  }

  lemma AgreeingMembers(a: seq<GitDep>, b: seq<GitDep>)
    requires forall x :: x in a <==> x in b
    ensures Agreeing(a) <==> Agreeing(b)
  {
    AgreeingSubset(a, b);
    AgreeingSubset(b, a);
  }

  lemma AgreeingSubset(a: seq<GitDep>, b: seq<GitDep>)
    requires forall x :: x in a ==> x in b
    ensures Agreeing(b) ==> Agreeing(a)
  {
    if Agreeing(b) {
      forall i, j | 0 <= i < |a| && 0 <= j < |a| ensures !Clash(a[i], a[j]) {
        assert a[i] in b && a[j] in b;
        var k :| 0 <= k < |b| && b[k] == a[i];
        var l :| 0 <= l < |b| && b[l] == a[j];
      }
    }
  }

  /** A batch merges exactly when it agrees with itself and with everything merged before. */
  lemma {:induction false} MergeExactly(seen: seq<GitDep>, more: seq<GitDep>)
    requires Agreeing(seen)
    ensures Merge(FirstSeen(seen), more).Ok? <==> Agreeing(seen + more)
    ensures Merge(FirstSeen(seen), more).Ok? ==> Merge(FirstSeen(seen), more).value == FirstSeen(seen + more)
    decreases |more|
  {
    if more == [] {
      assert seen + more == seen;
    } else {
      var (dep, rest) := (more[0], more[1..]);
      var deps := FirstSeen(seen);
      FirstSeenKeepsMembers(seen);
      assert seen + more == (seen + [dep]) + rest;
      var i := FirstClash(deps, dep);
      if i < |deps| {
        assert deps[i] in seen;
        var k :| 0 <= k < |seen| && seen[k] == deps[i];
        assert (seen + more)[k] == seen[k] && (seen + more)[|seen|] == dep;
      } else {
        NoClashAgrees(seen, deps, dep);
        FirstSeenOneMore(seen, dep);
        MergeExactly(seen + [dep], rest);
      }
    }
  }

  lemma NoClashAgrees(seen: seq<GitDep>, deps: seq<GitDep>, dep: GitDep)
    requires Agreeing(seen) && (forall x :: x in deps <==> x in seen)
    requires forall k | 0 <= k < |deps| :: !Clash(deps[k], dep)
    ensures Agreeing(seen + [dep])
  {
    forall i | 0 <= i < |seen| ensures !Clash(seen[i], dep) {
      assert seen[i] in deps;
      var k :| 0 <= k < |deps| && deps[k] == seen[i];
    }
  }

  predicate AllRead(locks: seq<Option<string>>) {
    forall i | 0 <= i < |locks| && locks[i].Some? :: ParseLock(locks[i].value).Ok?
  }

  function AllDeps(locks: seq<Option<string>>): seq<GitDep>
    requires AllRead(locks)
  {
    if locks == [] then []
    else (if locks[0].Some? then ParseLock(locks[0].value).value else []) + AllDeps(locks[1..])
  }

  lemma {:induction false} MergeLocksExactly(locks: seq<Option<string>>, seen: seq<GitDep>)
    requires Agreeing(seen)
    ensures MergeLocks(locks, FirstSeen(seen)).Ok? <==> AllRead(locks) && Agreeing(seen + AllDeps(locks))
    ensures MergeLocks(locks, FirstSeen(seen)).Ok? ==>
              MergeLocks(locks, FirstSeen(seen)).value == FirstSeen(seen + AllDeps(locks))
    decreases |locks|
  {
    if locks == [] {
      assert seen + AllDeps(locks) == seen;
    } else {
      var rest := locks[1..];
      assert AllRead(locks) <==> (locks[0].Some? ==> ParseLock(locks[0].value).Ok?) && AllRead(rest) by {
        assert forall i | 0 <= i < |rest| :: rest[i] == locks[i + 1];
      }
      if locks[0].None? {
        MergeLocksExactly(rest, seen);
        assert AllRead(rest) ==> [] + AllDeps(rest) == AllDeps(rest);
      } else if ParseLock(locks[0].value).Ok? {
        var found := ParseLock(locks[0].value).value;
        MergeExactly(seen, found);
        if Agreeing(seen + found) {
          MergeLocksExactly(rest, seen + found);
        }
        if AllRead(rest) {
          Associate(seen, found, AllDeps(rest));
          AgreeingSubset(seen + found, seen + AllDeps(locks));
        }
      }
    }
  }

  /** Merging several lockfiles succeeds exactly when each is readable and no url is pinned to two
      commits anywhere; each url then has one commit, and first appearances keep their order. */
  lemma DiscoveryExactly(locks: seq<Option<string>>)
    ensures MergeLocks(locks, []).Ok? <==> AllRead(locks) && Agreeing(AllDeps(locks))
    ensures MergeLocks(locks, []).Ok? ==>
              && MergeLocks(locks, []).value == FirstSeen(AllDeps(locks))
              && forall a, b | a in MergeLocks(locks, []).value && b in MergeLocks(locks, []).value ::
                   a.fetchUrl == b.fetchUrl ==> a == b
  {
    MergeLocksExactly(locks, []);
    if AllRead(locks) {
      assert [] + AllDeps(locks) == AllDeps(locks);
      FirstSeenKeepsMembers(AllDeps(locks));
      AgreeingMembers(FirstSeen(AllDeps(locks)), AllDeps(locks));
    }
  }
}
