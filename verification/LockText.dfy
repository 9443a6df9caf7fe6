/** What a `uv.lock` says, in terms of its text: where its lines end, where a line's sources begin and
    what a pinned url consists of (crates/harness/src/mined_harbor.rs, `parse_uv_lock_git_deps`). */
module LockText {
  import opened Sequences
  import opened UvLock

  // ----- Lines -----

  /** The lines, each followed by its ending. */
  function Glued(lines: seq<string>, ends: seq<string>): string
    requires |lines| == |ends|
  {
    if lines == [] then "" else lines[0] + (ends[0] + Glued(lines[1..], ends[1..]))
  }

  /** A line holds no line feed, and what ends it is a line feed, alone or behind a carriage return;
      nothing at all ends a last line that is not empty. */
  predicate EndsWell(line: string, end: string, last: bool) {
    && '\n' !in line
    && (end == "\r\n" || (end == "\n" && (line == "" || Last(line) != '\r')) || (last && end == "" && line != ""))
  }

  predicate WellCut(lines: seq<string>, ends: seq<string>) {
    |lines| == |ends| && forall i | 0 <= i < |lines| :: EndsWell(lines[i], ends[i], i == |lines| - 1)
  }

  lemma WellCutTail(lines: seq<string>, ends: seq<string>)
    requires lines != [] && |lines| == |ends|
    ensures WellCut(lines, ends)
        <==> EndsWell(lines[0], ends[0], |lines| == 1) && WellCut(lines[1..], ends[1..])
  {
    assert forall i | 0 <= i < |lines| - 1 :: lines[1..][i] == lines[i + 1] && ends[1..][i] == ends[i + 1];
  }

  lemma LastCut(s: string)
    requires s != "" && '\n' !in s
    ensures TextLines(s) == [s] && EndsWell(s, "", true)
  {
    IndexOfMember(s, '\n');
  }

  /** The text in front of a line feed is the line and perhaps a carriage return. */
  lemma LineEndsAt(s: string, i: nat) returns (end: string)
    requires i < |s| && s[i] == '\n' && '\n' !in s[..i]
    ensures s == LineAt(s, i) + (end + s[i + 1..]) && EndsWell(LineAt(s, i), end, false)
  {
    if i > 0 && s[i - 1] == '\r' {
      end := "\r\n";
      assert s[..i] == s[..i - 1] + "\r";
    } else {
      end := "\n";
    }
  }

  lemma CutAtLf(s: string) returns (line: string, end: string, more: string)
    requires '\n' in s
    ensures TextLines(s) == [line] + TextLines(more) && s == line + (end + more) && |more| < |s|
    ensures EndsWell(line, end, false)
  {
    IndexOfMember(s, '\n');
    var i := IndexOf(s, '\n');
    line, more := LineAt(s, i), s[i + 1..];
    end := LineEndsAt(s, i);
  }

  /** The first line of a text and its ending. */
  lemma FirstCut(s: string) returns (end: string, more: string)
    requires s != ""
    ensures TextLines(s) != [] && s == TextLines(s)[0] + (end + more) && |more| < |s|
    ensures TextLines(s)[1..] == TextLines(more) && EndsWell(TextLines(s)[0], end, more == "")
  {
    if '\n' in s {
      var line;
      line, end, more := CutAtLf(s);
    } else {
      LastCut(s);
      end, more := "", "";
    }
  }

  lemma {:induction false} CutOf(s: string) returns (ends: seq<string>)
    ensures WellCut(TextLines(s), ends) && s == Glued(TextLines(s), ends)
    decreases |s|
  {
    if s == "" {
      return [];
    }
    var end, more := FirstCut(s);
    var rest := CutOf(more);
    ends := [end] + rest;
    assert ends[1..] == rest;
    assert more == "" <==> TextLines(more) == [];
    WellCutTail(TextLines(s), ends);
  }

  lemma EndedLine(line: string, end: string, more: string)
    requires EndsWell(line, end, false)
    ensures TextLines(line + (end + more)) == [line] + TextLines(more)
  {
    var s := line + (end + more);
    var raw := line + end[..|end| - 1];
    assert s == raw + (['\n'] + more);
    assert s[..|raw|] == raw && s[|raw| + 1..] == more;
    IndexOfIs(s, '\n', |raw|);
    assert s[..|line|] == line;
  }

  lemma FirstLineGlued(line: string, end: string, more: string)
    requires EndsWell(line, end, more == "")
    ensures TextLines(line + (end + more)) == [line] + TextLines(more)
  {
    if end == "" {
      assert line + (end + more) == line;
      LastCut(line);
    } else {
      EndedLine(line, end, more);
    }
  }

  lemma FirstGlued(lines: seq<string>, ends: seq<string>)
    requires WellCut(lines, ends) && lines != []
    ensures WellCut(lines[1..], ends[1..]) && EndsWell(lines[0], ends[0], Glued(lines[1..], ends[1..]) == "")
  {
    WellCutTail(lines, ends);
    assert |lines| > 1 ==> EndsWell(lines[1..][0], ends[1..][0], |lines| == 2);
  }

  lemma {:induction false} GluedReadsBack(lines: seq<string>, ends: seq<string>)
    requires WellCut(lines, ends)
    ensures TextLines(Glued(lines, ends)) == lines
    decreases |lines|
  {
    if lines != [] {
      FirstGlued(lines, ends);
      GluedReadsBack(lines[1..], ends[1..]);
      FirstLineGlued(lines[0], ends[0], Glued(lines[1..], ends[1..]));
      assert lines == [lines[0]] + lines[1..];
    }
  }

  /** The lines of a text are the only ones that, well ended, spell it. */
  lemma TextLinesExactly(s: string, lines: seq<string>)
    ensures TextLines(s) == lines <==> exists ends :: WellCut(lines, ends) && s == Glued(lines, ends)
  {
    if TextLines(s) == lines {
      var ends := CutOf(s);
    }
    if ends :| WellCut(lines, ends) && s == Glued(lines, ends) {
      GluedReadsBack(lines, ends);
    }
  }

  // ----- Sources -----

  /** A line holds no source without the opening words; behind them stands a source, read up to the
      next quote, or one that nothing closes. */
  lemma SourcesOfLine(gap: string, behind: string, url: string, more: string)
    requires !Occurs(gap, "source = { git = \"")
    ensures SourcesOf(gap) == Sources([], false)
    ensures '"' !in behind ==> SourcesOf(gap + ("source = { git = \"" + behind)) == Sources([], true)
    ensures '"' !in url ==>
              SourcesOf(gap + ("source = { git = \"" + (url + ("\"" + more))))
              == Sources([url] + SourcesOf(more).urls, SourcesOf(more).open)
  {
    ScanFollowsShape(Plain(gap));
    if '"' !in behind {
      ScanFollowsShape(Opened(gap, behind));
    }
    if '"' !in url {
      var sh := EveryLineHasAShape(more);
      ScanFollowsShape(sh);
      ScanFollowsShape(Source(gap, url, sh));
    }
  }

  // ----- Urls -----

  predicate IsCommit(s: string) {
    |s| == 40 && forall i | 0 <= i < |s| :: s[i] in "0123456789abcdef"
  }

  /** What follows a fetch url up to the fragment: nothing, or a query. */
  predicate IsQuery(q: string) {
    '#' !in q && (q == "" || q[0] == '?')
  }

  /** The url consists of the fetch url, perhaps a query, and the commit as its fragment. */
  ghost predicate Pins(url: string, dep: GitDep) {
    && '#' !in dep.fetchUrl && '?' !in dep.fetchUrl && IsCommit(dep.commit)
    && exists q :: IsQuery(q) && url == dep.fetchUrl + (q + ("#" + dep.commit))
  }

  lemma HexIsListed(c: char)
    ensures '0' <= c <= '9' || 'a' <= c <= 'f' <==> c in "0123456789abcdef"
  {
    var hex := "0123456789abcdef";
    if '0' <= c <= '9' {
      assert hex[c as int - '0' as int] == c;
    } else if 'a' <= c <= 'f' {
      assert hex[c as int - 'a' as int + 10] == c;
    }
  }

  lemma CommitExactly(s: string)
    ensures IsFullSha(s) <==> IsCommit(s)
  {
    forall i | 0 <= i < |s| ensures ('0' <= s[i] <= '9' || 'a' <= s[i] <= 'f') <==> s[i] in "0123456789abcdef" {
      HexIsListed(s[i]);
    }
  }

  lemma QuerySplits(base: string) returns (fetchUrl: string, q: string)
    requires '#' !in base
    ensures fetchUrl == base[..IndexOf(base, '?')] && base == fetchUrl + q && '?' !in fetchUrl && '#' !in fetchUrl
    ensures IsQuery(q)
  {
    var j := IndexOf(base, '?');
    fetchUrl, q := base[..j], base[j..];
  }

  lemma PinnedUrlSplits(url: string)
    requires IsPinned(url)
    ensures Pins(url, DepOf(url))
  {
    var i := IndexOf(url, '#');
    CommitExactly(Fragment(url));
    SplitAt(url, i);
    var fetchUrl, q := QuerySplits(url[..i]);
    Associate(fetchUrl, q, "#" + url[i + 1..]);
  }

  lemma CutUrl(a: string, mark: char, b: string)
    requires mark !in a
    ensures IndexOf(a + ([mark] + b), mark) == |a|
    ensures (a + ([mark] + b))[..|a|] == a && (a + ([mark] + b))[|a| + 1..] == b
  {
    var s := a + ([mark] + b);
    assert s[..|a|] == a;
    IndexOfIs(s, mark, |a|);
  }

  lemma CutQuery(fetchUrl: string, q: string)
    requires '?' !in fetchUrl && IsQuery(q)
    ensures (fetchUrl + q)[..IndexOf(fetchUrl + q, '?')] == fetchUrl
  {
    assert (fetchUrl + q)[..|fetchUrl|] == fetchUrl;
    IndexOfIs(fetchUrl + q, '?', |fetchUrl|);
  }

  lemma PinningUrlIsRead(url: string, dep: GitDep)
    requires Pins(url, dep)
    ensures IsPinned(url) && DepOf(url) == dep
  {
    var q :| IsQuery(q) && url == dep.fetchUrl + (q + ("#" + dep.commit));
    Associate(dep.fetchUrl, q, "#" + dep.commit);
    CutUrl(dep.fetchUrl + q, '#', dep.commit);
    CutQuery(dep.fetchUrl, q);
    CommitExactly(dep.commit);
  }

  /** A url pins what it consists of, and nothing else. */
  lemma PinsExactly(url: string, dep: GitDep)
    ensures IsPinned(url) && DepOf(url) == dep <==> Pins(url, dep)
  {
    if IsPinned(url) {
      PinnedUrlSplits(url);
    }
    if Pins(url, dep) {
      PinningUrlIsRead(url, dep);
    }
  }

  lemma {:induction false} UrlGivesDep(urls: seq<string>, i: nat, dep: GitDep)
    requires i < |urls| && IsSshGitUrl(urls[i]) && DepOf(urls[i]) == dep
    ensures dep in SshDeps(urls)
  {
    if i > 0 {
      UrlGivesDep(urls[1..], i - 1, dep);
    }
  }

  lemma SshDepsAre(urls: seq<string>, dep: GitDep)
    requires AllPinned(urls)
    ensures dep in SshDeps(urls) <==> exists i :: 0 <= i < |urls| && IsSshGitUrl(urls[i]) && Pins(urls[i], dep)
  {
    if dep in SshDeps(urls) {
      var url := SshDepComesFromUrl(urls, dep);
      PinsExactly(url, dep);
    }
    if i :| 0 <= i < |urls| && IsSshGitUrl(urls[i]) && Pins(urls[i], dep) {
      PinsExactly(urls[i], dep);
      UrlGivesDep(urls, i, dep);
    }
  }

  /** A lockfile is read exactly when its sources are closed and each of its ssh urls pins something;
      its dependencies are then what those urls pin, and nothing else. */
  lemma LockSaysExactly(lock: string)
    ensures var urls := AllUrls(TextLines(lock));
            && (ParseLock(lock).Ok? <==>
                AllClosed(TextLines(lock))
                && forall i | 0 <= i < |urls| && IsSshGitUrl(urls[i]) :: exists dep :: Pins(urls[i], dep))
            && (ParseLock(lock).Ok? ==> forall dep :: dep in ParseLock(lock).value <==>
                  exists i :: 0 <= i < |urls| && IsSshGitUrl(urls[i]) && Pins(urls[i], dep))
  {
    var urls := AllUrls(TextLines(lock));
    LockIsReadExactly(lock);
    forall url | url in urls ensures IsPinned(url) <==> exists dep :: Pins(url, dep) {
      PinsExactly(url, DepOf(url));
      if dep :| Pins(url, dep) {
        PinsExactly(url, dep);
      }
    }
    if AllPinned(urls) {
      FirstSeenKeepsMembers(SshDeps(urls));
      forall dep ensures dep in SshDeps(urls)
                    <==> exists i :: 0 <= i < |urls| && IsSshGitUrl(urls[i]) && Pins(urls[i], dep)
      {
        SshDepsAre(urls, dep);
      }
    }
  }

  lemma {:induction false} FirstSeenComesFrom<T>(s: seq<T>, i: nat) returns (k: nat)
    requires i < |FirstSeen(s)|
    ensures k < |s| && s[k] == FirstSeen(s)[i]
    decreases |s|
  {
    var front := s[..|s| - 1];
    if i < |FirstSeen(front)| {
      k := FirstSeenComesFrom(front, i);
    } else {
      k := |s| - 1;
    }
  }

  /** Of two dependencies read, the earlier one was pinned first. */
  lemma {:induction false} FirstSeenInOrder<T>(s: seq<T>, i: nat, j: nat)
    requires i < j < |FirstSeen(s)|
    ensures exists k :: 0 <= k < |s| && s[k] == FirstSeen(s)[i] && FirstSeen(s)[j] !in s[..k + 1]
    decreases |s|
  {
    var (front, last) := (s[..|s| - 1], s[|s| - 1]);
    FirstSeenKeepsMembers(front);
    if j < |FirstSeen(front)| {
      FirstSeenInOrder(front, i, j);
      var k :| 0 <= k < |front| && front[k] == FirstSeen(front)[i] && FirstSeen(front)[j] !in front[..k + 1];
      assert s[..k + 1] == front[..k + 1];
    } else {
      var k := FirstSeenComesFrom(front, i);
      assert s[..k + 1] == front[..k + 1];
    }
  }
}
