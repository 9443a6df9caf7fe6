/** Which error reading or merging lockfiles ends in (crates/harness/src/mined_harbor.rs,
    `parse_uv_lock_git_deps` and `discover_git_deps`). */
module LockErrors {
  import opened LockText
  import opened Outcomes
  import opened Sequences
  import opened UvLock

  // ----- One line -----

  /** A url to be fetched over ssh has to pin a commit. */
  ghost predicate UrlInOrder(url: string) {
    IsSshGitUrl(url) ==> exists dep :: Pins(url, dep)
  }

  ghost predicate FirstUnpinned(urls: seq<string>, k: nat) {
    k < |urls| && !UrlInOrder(urls[k]) && forall l | 0 <= l < k :: UrlInOrder(urls[l])
  }

  ghost predicate UrlFails(urls: seq<string>, e: LockError) {
    e.Unpinned? && exists k: nat :: FirstUnpinned(urls, k) && urls[k] == e.url
  }

  lemma UrlInOrderExactly(url: string)
    ensures UrlInOrder(url) <==> (IsSshGitUrl(url) ==> IsPinned(url))
  {
    PinsExactly(url, DepOf(url));
    if dep :| Pins(url, dep) {
      PinsExactly(url, dep);
    }
  }

  lemma FirstUnpinnedTail(urls: seq<string>, k: nat)
    requires urls != [] && UrlInOrder(urls[0])
    ensures FirstUnpinned(urls[1..], k) <==> FirstUnpinned(urls, k + 1)
  {
    var rest := urls[1..];
    assert forall l | 0 <= l < |rest| :: rest[l] == urls[l + 1];
    assert forall l | 0 < l < |urls| :: urls[l] == rest[l - 1];
  }

  function TakenFirst(urls: seq<string>, deps: seq<GitDep>): seq<GitDep>
    requires urls != []
  {
    if IsSshGitUrl(urls[0]) && DepOf(urls[0]) !in deps then deps + [DepOf(urls[0])] else deps
  }

  lemma {:induction false} UnpinnedIsFound(urls: seq<string>, deps: seq<GitDep>, e: LockError)
    requires TakeUrls(urls, deps) == Err(e)
    ensures UrlFails(urls, e)
    decreases |urls|
  {
    FirstUrlTaken(urls, deps);
    if UrlInOrder(urls[0]) {
      UnpinnedIsFound(urls[1..], TakenFirst(urls, deps), e);
      var k: nat :| FirstUnpinned(urls[1..], k) && urls[1..][k] == e.url;
      FirstUnpinnedTail(urls, k);
    } else {
      assert FirstUnpinned(urls, 0);
    }
  }

  lemma FirstUrlTaken(urls: seq<string>, deps: seq<GitDep>)
    requires urls != []
    ensures TakeUrls(urls, deps)
         == if UrlInOrder(urls[0]) then TakeUrls(urls[1..], TakenFirst(urls, deps)) else Err(Unpinned(urls[0]))
  {
    UrlInOrderExactly(urls[0]);
  }

  lemma {:induction false} UnpinnedIsReported(urls: seq<string>, deps: seq<GitDep>, k: nat)
    requires FirstUnpinned(urls, k)
    ensures TakeUrls(urls, deps) == Err(Unpinned(urls[k]))
    decreases k
  {
    FirstUrlTaken(urls, deps);
    if k > 0 {
      FirstUnpinnedTail(urls, k - 1);
      UnpinnedIsReported(urls[1..], TakenFirst(urls, deps), k - 1);
    }
  }

  /** What a line by itself goes wrong with: its first ssh url that pins no commit, or else a source
      that nothing closes. */
  ghost predicate LineGoesWrong(line: string, e: LockError) {
    var found := SourcesOf(line);
    UrlFails(found.urls, e) || (e == Unterminated(line) && found.open && AllPinned(found.urls))
  }

  lemma LineErrorExactly(line: string, seen: seq<GitDep>, e: LockError)
    ensures TakeLine(line, FirstSeen(seen)) == Err(e) <==> LineGoesWrong(line, e)
  {
    var urls := SourcesOf(line).urls;
    var deps := FirstSeen(seen);
    TakeUrlsExactly(urls, seen);
    if TakeUrls(urls, deps) == Err(e) {
      UnpinnedIsFound(urls, deps, e);
    }
    if UrlFails(urls, e) {
      var k: nat :| FirstUnpinned(urls, k) && urls[k] == e.url;
      UnpinnedIsReported(urls, deps, k);
    }
  }

  // ----- One lockfile -----

  /** The lines in front of line `i` are in order, and this one is not. */
  ghost predicate LineFails(lines: seq<string>, i: nat, e: LockError) {
    i < |lines| && AllClosed(lines[..i]) && AllPinned(AllUrls(lines[..i])) && LineGoesWrong(lines[i], e)
  }

  ghost predicate LinesFail(lines: seq<string>, e: LockError) {
    exists i: nat :: LineFails(lines, i, e)
  }

  predicate InOrder(lines: seq<string>) {
    AllClosed(lines) && AllPinned(AllUrls(lines))
  }

  lemma InOrderTail(lines: seq<string>)
    requires lines != []
    ensures InOrder(lines) <==> !SourcesOf(lines[0]).open && AllPinned(SourcesOf(lines[0]).urls) && InOrder(lines[1..])
  {
    AllClosedCons(lines);
    AllPinnedAppend(SourcesOf(lines[0]).urls, AllUrls(lines[1..]));
  }

  lemma LineFailsBehind(lines: seq<string>, i: nat, e: LockError)
    requires i + 1 < |lines|
    ensures LineFails(lines, i + 1, e) <==>
            !SourcesOf(lines[0]).open && AllPinned(SourcesOf(lines[0]).urls) && LineFails(lines[1..], i, e)
  {
    InOrderTail(lines[..i + 1]);
    assert lines[..i + 1][1..] == lines[1..][..i];
  }

  lemma FirstLineTaken(lines: seq<string>, seen: seq<GitDep>)
    requires lines != [] && !SourcesOf(lines[0]).open && AllPinned(SourcesOf(lines[0]).urls)
    ensures TakeLines(lines, FirstSeen(seen))
         == TakeLines(lines[1..], FirstSeen(seen + SshDeps(SourcesOf(lines[0]).urls)))
  {
    TakeUrlsExactly(SourcesOf(lines[0]).urls, seen);
  }

  lemma {:induction false} FailingLine(lines: seq<string>, seen: seq<GitDep>, e: LockError) returns (i: nat)
    requires TakeLines(lines, FirstSeen(seen)) == Err(e)
    ensures LineFails(lines, i, e)
    decreases |lines|
  {
    var found := SourcesOf(lines[0]);
    if AllPinned(found.urls) && !found.open {
      FirstLineTaken(lines, seen);
      i := FailingLine(lines[1..], seen + SshDeps(found.urls), e);
      LineFailsBehind(lines, i, e);
      i := i + 1;
    } else {
      FirstLineFails(lines, seen, e);
      i := 0;
    }
  }

  lemma FirstLineFails(lines: seq<string>, seen: seq<GitDep>, e: LockError)
    requires lines != [] && (SourcesOf(lines[0]).open || !AllPinned(SourcesOf(lines[0]).urls))
    ensures TakeLines(lines, FirstSeen(seen)) == Err(e) <==> LineFails(lines, 0, e)
  {
    TakeUrlsExactly(SourcesOf(lines[0]).urls, seen);
    LineErrorExactly(lines[0], seen, e);
    assert lines[..0] == [];
  }

  lemma WrongLineIsReported(lines: seq<string>, seen: seq<GitDep>, e: LockError)
    requires lines != [] && LineGoesWrong(lines[0], e)
    ensures TakeLines(lines, FirstSeen(seen)) == Err(e)
  {
    LineErrorExactly(lines[0], seen, e);
  }

  lemma LaterLineFails(lines: seq<string>, seen: seq<GitDep>, i: nat, e: LockError)
    requires LineFails(lines, i, e) && i > 0
    ensures LineFails(lines[1..], i - 1, e)
    ensures TakeLines(lines, FirstSeen(seen))
         == TakeLines(lines[1..], FirstSeen(seen + SshDeps(SourcesOf(lines[0]).urls)))
  {
    LineFailsBehind(lines, i - 1, e);
    FirstLineTaken(lines, seen);
  }

  lemma {:induction false} FailureIsReported(lines: seq<string>, seen: seq<GitDep>, i: nat, e: LockError)
    requires LineFails(lines, i, e)
    ensures TakeLines(lines, FirstSeen(seen)) == Err(e)
    decreases i
  {
    if i == 0 {
      WrongLineIsReported(lines, seen, e);
    } else {
      LaterLineFails(lines, seen, i, e);
      FailureIsReported(lines[1..], seen + SshDeps(SourcesOf(lines[0]).urls), i - 1, e);
    }
  }

  lemma LinesErrorExactly(lines: seq<string>, none: seq<GitDep>, e: LockError)
    requires none == []
    ensures TakeLines(lines, none) == Err(e) <==> LinesFail(lines, e)
  {
    assert FirstSeen(none) == none;
    if TakeLines(lines, none) == Err(e) {
      var i := FailingLine(lines, none, e);
    }
    if i: nat :| LineFails(lines, i, e) {
      FailureIsReported(lines, none, i, e);
    }
  }

  /** Reading a lockfile ends in the error of its first line that is not in order. */
  lemma LockErrorExactly(lock: string, e: LockError)
    ensures ParseLock(lock) == Err(e) <==> LinesFail(TextLines(lock), e)
  {
    LinesErrorExactly(TextLines(lock), [], e);
  }

  // ----- Several lockfiles -----

  /** The pins in front of the `k`-th agree, and this one contradicts the commit of an earlier one. */
  predicate PinFails(seen: seq<GitDep>, more: seq<GitDep>, k: nat, e: LockError) {
    && k < |more| && Agreeing(seen + more[..k])
    && e.Conflict? && e.fetchUrl == more[k].fetchUrl && e.second == more[k].commit && e.first != e.second
    && GitDep(e.fetchUrl, e.first) in seen + more[..k]
  }

  lemma OneCommitEach(deps: seq<GitDep>, url: string, a: string, b: string)
    requires Agreeing(deps) && GitDep(url, a) in deps && GitDep(url, b) in deps
    ensures a == b
  {
    var x :| 0 <= x < |deps| && deps[x] == GitDep(url, a);
    var y :| 0 <= y < |deps| && deps[y] == GitDep(url, b);
    assert !Clash(deps[x], deps[y]);
  }

  lemma FirstPinFails(seen: seq<GitDep>, more: seq<GitDep>, e: LockError)
    requires more != [] && Agreeing(seen) && FirstClash(FirstSeen(seen), more[0]) < |FirstSeen(seen)|
    ensures Merge(FirstSeen(seen), more) == Err(e) <==> PinFails(seen, more, 0, e)
  {
    var (deps, dep) := (FirstSeen(seen), more[0]);
    var other := deps[FirstClash(deps, dep)];
    FirstSeenKeepsMembers(seen);
    assert seen + more[..0] == seen;
    assert other in seen && other == GitDep(dep.fetchUrl, other.commit);
    if PinFails(seen, more, 0, e) {
      OneCommitEach(seen, dep.fetchUrl, e.first, other.commit);
    }
  }

  /** A pin that clashes with one seen ends the agreement; one that does not fails nowhere. */
  lemma FirstPinDecides(seen: seq<GitDep>, more: seq<GitDep>, k: nat)
    requires more != [] && k <= |more| && Agreeing(seen)
    ensures k > 0 && Agreeing(seen + more[..k]) ==> FirstClash(FirstSeen(seen), more[0]) == |FirstSeen(seen)|
    ensures FirstClash(FirstSeen(seen), more[0]) == |FirstSeen(seen)| ==> forall x | x in seen :: !Clash(x, more[0])
  {
    var deps := FirstSeen(seen);
    var i := FirstClash(deps, more[0]);
    FirstSeenKeepsMembers(seen);
    if i < |deps| {
      assert deps[i] in deps;
      var x :| 0 <= x < |seen| && seen[x] == deps[i];
      if k > 0 {
        assert (seen + more[..k])[x] == deps[i] && (seen + more[..k])[|seen|] == more[0];
      }
    } else {
      forall x | x in seen ensures !Clash(x, more[0]) {
        assert x in deps;
      }
    }
  }

  lemma PinFailsTail(seen: seq<GitDep>, more: seq<GitDep>, k: nat, e: LockError)
    requires k + 1 < |more|
    ensures PinFails(seen + [more[0]], more[1..], k, e) <==> PinFails(seen, more, k + 1, e)
  {
    assert (seen + [more[0]]) + more[1..][..k] == seen + more[..k + 1];
  }

  lemma FirstPinMerged(seen: seq<GitDep>, more: seq<GitDep>)
    requires more != [] && Agreeing(seen) && FirstClash(FirstSeen(seen), more[0]) == |FirstSeen(seen)|
    ensures Agreeing(seen + [more[0]])
    ensures Merge(FirstSeen(seen), more) == Merge(FirstSeen(seen + [more[0]]), more[1..])
  {
    FirstSeenKeepsMembers(seen);
    NoClashAgrees(seen, FirstSeen(seen), more[0]);
    FirstSeenOneMore(seen, more[0]);
  }

  lemma {:induction false} FailingPin(seen: seq<GitDep>, more: seq<GitDep>, e: LockError) returns (k: nat)
    requires Agreeing(seen) && Merge(FirstSeen(seen), more) == Err(e)
    ensures PinFails(seen, more, k, e)
    decreases |more|
  {
    if FirstClash(FirstSeen(seen), more[0]) < |FirstSeen(seen)| {
      FirstPinFails(seen, more, e);
      k := 0;
    } else {
      FirstPinMerged(seen, more);
      k := FailingPin(seen + [more[0]], more[1..], e);
      PinFailsTail(seen, more, k, e);
      k := k + 1;
    }
  }

  lemma FirstPinAgrees(seen: seq<GitDep>, more: seq<GitDep>, e: LockError)
    requires more != [] && Agreeing(seen) && FirstClash(FirstSeen(seen), more[0]) == |FirstSeen(seen)|
    ensures !PinFails(seen, more, 0, e)
  {
    FirstPinDecides(seen, more, 0);
    assert seen + more[..0] == seen;
    assert PinFails(seen, more, 0, e) ==> Clash(GitDep(e.fetchUrl, e.first), more[0]);
  }

  lemma FirstPinPasses(seen: seq<GitDep>, more: seq<GitDep>, k: nat, e: LockError)
    requires Agreeing(seen) && PinFails(seen, more, k, e) && FirstClash(FirstSeen(seen), more[0]) == |FirstSeen(seen)|
    ensures k > 0 && Agreeing(seen + [more[0]]) && PinFails(seen + [more[0]], more[1..], k - 1, e)
    ensures Merge(FirstSeen(seen), more) == Merge(FirstSeen(seen + [more[0]]), more[1..])
  {
    FirstPinAgrees(seen, more, e);
    FirstPinMerged(seen, more);
    PinFailsTail(seen, more, k - 1, e);
  }

  lemma FirstPinIsReported(seen: seq<GitDep>, more: seq<GitDep>, k: nat, e: LockError)
    requires Agreeing(seen) && PinFails(seen, more, k, e) && FirstClash(FirstSeen(seen), more[0]) < |FirstSeen(seen)|
    ensures Merge(FirstSeen(seen), more) == Err(e)
  {
    FirstPinDecides(seen, more, k);
    FirstPinFails(seen, more, e);
  }

  lemma PinStep(seen: seq<GitDep>, more: seq<GitDep>, k: nat, e: LockError)
    requires Agreeing(seen) && PinFails(seen, more, k, e)
    ensures Merge(FirstSeen(seen), more) == Err(e)
         || (k > 0 && Agreeing(seen + [more[0]]) && PinFails(seen + [more[0]], more[1..], k - 1, e)
             && Merge(FirstSeen(seen), more) == Merge(FirstSeen(seen + [more[0]]), more[1..]))
  {
    if FirstClash(FirstSeen(seen), more[0]) < |FirstSeen(seen)| {
      FirstPinIsReported(seen, more, k, e);
    } else {
      FirstPinPasses(seen, more, k, e);
    }
  }

  lemma {:induction false} PinIsReported(seen: seq<GitDep>, more: seq<GitDep>, k: nat, e: LockError)
    requires Agreeing(seen) && PinFails(seen, more, k, e)
    ensures Merge(FirstSeen(seen), more) == Err(e)
    decreases |more|
  {
    PinStep(seen, more, k, e);
    if Merge(FirstSeen(seen), more) != Err(e) {
      PinIsReported(seen + [more[0]], more[1..], k - 1, e);
    }
  }

  /** The repositories in front of the `i`-th are merged, and this one's lockfile ends the merge. */
  ghost predicate LockFails(locks: seq<Option<string>>, seen: seq<GitDep>, i: nat, e: LockError) {
    && i < |locks| && AllRead(locks[..i]) && Agreeing(seen + AllDeps(locks[..i])) && locks[i].Some?
    && match ParseLock(locks[i].value)
       case Err(error) => e == error
       case Ok(found) => exists k: nat :: PinFails(seen + AllDeps(locks[..i]), found, k, e)
  }

  lemma FirstLockFails(locks: seq<Option<string>>, seen: seq<GitDep>, e: LockError)
    requires locks != [] && Agreeing(seen)
    ensures LockFails(locks, seen, 0, e) <==>
            locks[0].Some? && match ParseLock(locks[0].value)
                              case Err(error) => e == error
                              case Ok(found) => Merge(FirstSeen(seen), found) == Err(e)
  {
    assert locks[..0] == [] && seen + AllDeps(locks[..0]) == seen;
    if locks[0].Some? && ParseLock(locks[0].value).Ok? {
      var found := ParseLock(locks[0].value).value;
      if Merge(FirstSeen(seen), found) == Err(e) {
        var k := FailingPin(seen, found, e);
      }
      if k: nat :| PinFails(seen, found, k, e) {
        PinIsReported(seen, found, k, e);
      }
    }
  }

  /** What the first repository contributes, when its lockfile is read. */
  function FirstDeps(locks: seq<Option<string>>): seq<GitDep>
    requires locks != [] && (locks[0].Some? ==> ParseLock(locks[0].value).Ok?)
  {
    if locks[0].Some? then ParseLock(locks[0].value).value else []
  }

  lemma FrontRead(locks: seq<Option<string>>, seen: seq<GitDep>, i: nat)
    requires i < |locks|
    ensures AllRead(locks[..i + 1])
       <==> (locks[0].Some? ==> ParseLock(locks[0].value).Ok?) && AllRead(locks[1..][..i])
    ensures AllRead(locks[..i + 1]) ==>
              seen + AllDeps(locks[..i + 1]) == (seen + FirstDeps(locks)) + AllDeps(locks[1..][..i])
  {
    var (front, rest) := (locks[..i + 1], locks[1..][..i]);
    assert front[1..] == rest && front[0] == locks[0];
    assert forall j | 0 <= j < |rest| :: rest[j] == front[j + 1];
    if AllRead(front) {
      Associate(seen, FirstDeps(locks), AllDeps(rest));
    }
  }

  lemma LockFailsTail(locks: seq<Option<string>>, seen: seq<GitDep>, i: nat, e: LockError)
    requires i + 1 < |locks| && (locks[0].Some? ==> ParseLock(locks[0].value).Ok?)
    ensures LockFails(locks[1..], seen + FirstDeps(locks), i, e) <==> LockFails(locks, seen, i + 1, e)
  {
    FrontRead(locks, seen, i);
    assert locks[1..][i] == locks[i + 1];
  }

  lemma {:induction false} FailingLock(locks: seq<Option<string>>, seen: seq<GitDep>, e: LockError) returns (i: nat)
    requires Agreeing(seen) && MergeLocks(locks, FirstSeen(seen)) == Err(e)
    ensures LockFails(locks, seen, i, e)
    decreases |locks|
  {
    FirstLockFails(locks, seen, e);
    if LockFails(locks, seen, 0, e) {
      return 0;
    }
    if locks[0].Some? {
      MergeExactly(seen, ParseLock(locks[0].value).value);
    } else {
      assert seen + [] == seen;
    }
    i := FailingLock(locks[1..], seen + FirstDeps(locks), e);
    LockFailsTail(locks, seen, i, e);
    i := i + 1;
  }

  lemma {:induction false} LockIsReported(locks: seq<Option<string>>, seen: seq<GitDep>, i: nat, e: LockError)
    requires Agreeing(seen) && LockFails(locks, seen, i, e)
    ensures MergeLocks(locks, FirstSeen(seen)) == Err(e)
    decreases |locks|
  {
    if i == 0 {
      FirstLockFails(locks, seen, e);
    } else {
      FrontRead(locks, seen, i - 1);
      LockFailsTail(locks, seen, i - 1, e);
      AgreeingSubset(seen + FirstDeps(locks), seen + AllDeps(locks[..i]));
      if locks[0].Some? {
        MergeExactly(seen, ParseLock(locks[0].value).value);
      } else {
        assert seen + [] == seen;
      }
      LockIsReported(locks[1..], seen + FirstDeps(locks), i - 1, e);
    }
  }

  /** The merge ends in the error of the first repository whose lockfile cannot be read or pins a url
      to another commit than one before; a conflict names the url and both commits. */
  lemma DiscoveryErrorExactly(locks: seq<Option<string>>, e: LockError)
    ensures MergeLocks(locks, []) == Err(e) <==> exists i: nat :: LockFails(locks, [], i, e)
  {
    var none: seq<GitDep> := [];
    assert FirstSeen(none) == none;
    if MergeLocks(locks, none) == Err(e) {
      var i := FailingLock(locks, none, e);
    }
    if i: nat :| LockFails(locks, none, i, e) {
      LockIsReported(locks, none, i, e);
    }
  }
}
