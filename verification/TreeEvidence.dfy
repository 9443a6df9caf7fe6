/** From the git results of a workspace to the verdict (crates/harness/src/exec.rs, `observe_tree`,
    `observe_single_repo`, `observe_head`, `classify_change`). */
module TreeEvidence {
  import opened ChangeEvidence
  import opened FlatteningLimits
  import opened HeadReadings
  import opened Outcomes
  import opened Text

  // One repository as the two git runs show it.
  datatype Probe = Probe(statusOk: bool, status: string, reason: string, revOk: bool, rev: string)

  datatype ChildProbe = ChildProbe(name: string, probe: Probe)

  // A workspace: its root, whether the root has a `.git` entry, and the child repositories found under it.
  datatype Tree = Tree(root: Probe, hasGit: bool, children: seq<ChildProbe>)

  function ObserveRepo(p: Probe): Observation {
    if !p.statusOk then Unobservable(p.reason)
    else Observed(Trim(p.status), if p.revOk then Some(Trim(p.rev)) else None)
  }

  function ObserveChildren(children: seq<ChildProbe>): seq<Child> {
    if children == [] then []
    else [Child(children[0].name, ObserveRepo(children[0].probe))] + ObserveChildren(children[1..])
  }

  /** The root decides the branch; children are looked at only under a root that is no repository. */
  function ObserveTree(t: Tree): Observation {
    if t.root.statusOk then ObserveRepo(t.root)
    else if t.hasGit || t.children == [] then Unobservable(t.root.reason)
    else Combine(ObserveChildren(t.children))
  }

  // ----- What the verdict must depend on -----

  predicate TidyProbe(p: Probe) {
    p.revOk ==> IsCommit(Trim(p.rev))
  }

  /** File names, and commits in hex; nothing is asked of any status text. */
  predicate TidyProbes(children: seq<ChildProbe>) {
    forall i | 0 <= i < |children| :: '/' !in children[i].name && TidyProbe(children[i].probe)
  }

  function ProbeNames(children: seq<ChildProbe>): seq<string> {
    seq(|children|, i requires 0 <= i < |children| => children[i].name)
  }

  predicate AllRead(children: seq<ChildProbe>) {
    forall i | 0 <= i < |children| :: children[i].probe.statusOk
  }

  /** The same children are there, each read with the same trimmed status and the same head. */
  predicate SameChildren(base: seq<ChildProbe>, cur: seq<ChildProbe>) {
    && |base| == |cur|
    && forall i | 0 <= i < |base| ::
         base[i].name == cur[i].name && ObserveRepo(base[i].probe) == ObserveRepo(cur[i].probe)
  }

  lemma {:induction false} ObservedProbes(children: seq<ChildProbe>)
    requires TidyProbes(children)
    ensures |ObserveChildren(children)| == |children| && Tidy(ObserveChildren(children))
    ensures NamesOf(ObserveChildren(children)) == ProbeNames(children)
    ensures forall i | 0 <= i < |children| ::
              ObserveChildren(children)[i] == Child(children[i].name, ObserveRepo(children[i].probe))
  {
    if children != [] {
      ObservedProbes(children[1..]);
    }
  }

  lemma ObservedFaithfully(base: seq<ChildProbe>, cur: seq<ChildProbe>)
    requires TidyProbes(base) && TidyProbes(cur)
    ensures AllObserved(ObserveChildren(base)) <==> AllRead(base)
    ensures ObserveChildren(base) == ObserveChildren(cur) <==> SameChildren(base, cur)
  {
    ObservedProbes(base);
    ObservedProbes(cur);
    assert forall i | 0 <= i < |base| :: ObserveChildren(base)[i].seen.Observed? <==> base[i].probe.statusOk;
    if SameChildren(base, cur) {
      assert forall i | 0 <= i < |base| :: ObserveChildren(base)[i] == ObserveChildren(cur)[i];
    }
    if ObserveChildren(base) == ObserveChildren(cur) {
      assert forall i | 0 <= i < |base| :: ObserveChildren(base)[i] == ObserveChildren(cur)[i];
    }
  }

  /** Two child scans read as unchanged exactly when every child was read and the flattened texts look alike. */
  lemma ScansExactly(base: seq<ChildProbe>, cur: seq<ChildProbe>)
    requires TidyProbes(base) && TidyProbes(cur)
    ensures ClassifyChange(Combine(ObserveChildren(base)), Combine(ObserveChildren(cur))).TreeUnchanged?
        <==> AllRead(base) && AllRead(cur) && ScansLookAlike(base, cur)
  {
    ObservedFaithfully(base, cur);
    ObservedFaithfully(cur, base);
    ObservedProbes(base);
    ObservedProbes(cur);
    CombineObserved(ObserveChildren(base));
    CombineObserved(ObserveChildren(cur));
    if AllRead(base) && AllRead(cur) {
      FlattenedEqualExactly(ObserveChildren(base), ObserveChildren(cur));
    }
  }

  ghost predicate ScansLookAlike(base: seq<ChildProbe>, cur: seq<ChildProbe>) {
    && AllObserved(ObserveChildren(base)) && AllObserved(ObserveChildren(cur))
    && LookAlike(ObserveChildren(base), ObserveChildren(cur))
  }

  predicate FileNames(names: seq<string>) {
    forall i | 0 <= i < |names| :: '/' !in names[i]
  }

  /** Every two scans that find these names read as unchanged exactly when every child was read and the
      same children are there. */
  ghost predicate ScansJudgedRight(names: seq<string>, others: seq<string>) {
    forall base, cur | TidyProbes(base) && TidyProbes(cur) && ProbeNames(base) == names && ProbeNames(cur) == others ::
      ScanJudgedRight(base, cur)
  }

  predicate ScanJudgedRight(base: seq<ChildProbe>, cur: seq<ChildProbe>) {
    var verdict := ClassifyChange(Combine(ObserveChildren(base)), Combine(ObserveChildren(cur)));
    verdict.TreeUnchanged? <==> AllRead(base) && AllRead(cur) && SameChildren(base, cur)
  }

  lemma ScanJudgedAsChildren(base: seq<ChildProbe>, cur: seq<ChildProbe>)
    requires TidyProbes(base) && TidyProbes(cur)
    ensures ScanJudgedRight(base, cur) <==> JudgedRight(ObserveChildren(base), ObserveChildren(cur))
  {
    ObservedFaithfully(base, cur);
    ObservedFaithfully(cur, base);
  }

  function ProbeOf(c: Child): ChildProbe
    requires c.seen.Observed?
  {
    var rev := if c.seen.head.Some? then c.seen.head.value else "";
    ChildProbe(c.name, Probe(true, c.seen.porcelain, "", c.seen.head.Some?, rev))
  }

  lemma CommitIsTrimmed(s: string)
    requires IsCommit(s)
    ensures Trim(s) == s
  {
    assert !IsWhitespace(s[0]) && !IsWhitespace(s[|s| - 1]);
  }

  lemma ProbeShows(c: Child)
    requires TidyChild(c) && c.seen.Observed?
    ensures TidyProbe(ProbeOf(c).probe) && ObserveRepo(ProbeOf(c).probe) == c.seen
  {
    if c.seen.head.Some? {
      CommitIsTrimmed(c.seen.head.value);
    }
  }

  lemma {:induction false} ProbesShow(children: seq<Child>) returns (probes: seq<ChildProbe>)
    requires Tidy(children) && AllObserved(children)
    ensures TidyProbes(probes) && ProbeNames(probes) == NamesOf(children) && ObserveChildren(probes) == children
    decreases |children|
  {
    probes := [];
    if children != [] {
      SeenBehind(children);
      var rest := ProbesShow(children[1..]);
      ProbeShows(children[0]);
      probes := [ProbeOf(children[0])] + rest;
      FirstName(children);
      FirstProbe(ProbeOf(children[0]), rest);
    }
  }

  lemma FirstProbe(p: ChildProbe, rest: seq<ChildProbe>)
    ensures ProbeNames([p] + rest) == [p.name] + ProbeNames(rest)
    ensures ObserveChildren([p] + rest) == [Child(p.name, ObserveRepo(p.probe))] + ObserveChildren(rest)
    ensures '/' !in p.name && TidyProbe(p.probe) && TidyProbes(rest) ==> TidyProbes([p] + rest)
  {
    assert ([p] + rest)[1..] == rest;
  }

  lemma WrongPairIsScanned(base: seq<Child>, cur: seq<Child>)
    requires Tidy(base) && Tidy(cur) && AllObserved(base) && AllObserved(cur) && !JudgedRight(base, cur)
    ensures !ScansJudgedRight(NamesOf(base), NamesOf(cur))
  {
    var probes := ProbesShow(base);
    var others := ProbesShow(cur);
    ScanJudgedAsChildren(probes, others);
    assert !ScanJudgedRight(probes, others);
  }

  /** For any two lists of file names, every pair of scans that find them is judged right exactly when the
      names tell apart. */
  lemma ScansJudgedRightExactly(names: seq<string>, others: seq<string>)
    requires FileNames(names) && FileNames(others)
    ensures ScansJudgedRight(names, others) <==> TellApart(names, others)
  {
    PairFaithfulExactly(names, others);
    if TellApart(names, others) {
      forall base, cur | TidyProbes(base) && TidyProbes(cur) && ProbeNames(base) == names && ProbeNames(cur) == others
        ensures ScanJudgedRight(base, cur)
      {
        ScanJudgedAsChildren(base, cur);
        ObservedProbes(base);
        ObservedProbes(cur);
      }
    } else {
      var base, cur := WrongPair(names, others);
      WrongPairIsScanned(base, cur);
    }
  }

  lemma WrongPair(names: seq<string>, others: seq<string>) returns (base: seq<Child>, cur: seq<Child>)
    requires FileNames(names) && FileNames(others) && !TellApart(names, others)
    ensures Tidy(base) && Tidy(cur) && AllObserved(base) && AllObserved(cur) && !JudgedRight(base, cur)
    ensures NamesOf(base) == names && NamesOf(cur) == others
  {
    if names == others {
      var i, j :| 0 <= i < j < |names| && TrimStart(names[i]) == TrimStart(names[j]);
      IndistinctIsUnfaithful(names, i, j, "M");
      base, cur := DirtyAt(names, i, "M"), DirtyAt(names, j, "M");
      DirtyAtChildren(names, i, "M");
      DirtyAtChildren(names, j, "M");
    } else {
      base, cur := CompatibleNamesConfuse(names, others);
    }
  }

  /** While the names tell apart, looking alike is being the same. */
  lemma WorkspaceVerdict(base: seq<ChildProbe>, cur: seq<ChildProbe>)
    requires TidyProbes(base) && TidyProbes(cur)
    ensures TellApart(ProbeNames(base), ProbeNames(cur)) ==> ScanJudgedRight(base, cur)
  {
    ScansJudgedRightExactly(ProbeNames(base), ProbeNames(cur));
  }

  // ----- All branches -----

  /** The children are looked at. */
  predicate Scanned(t: Tree) {
    !t.root.statusOk && !t.hasGit && t.children != []
  }

  /** Nothing, or not everything, could be read. */
  predicate Blind(t: Tree) {
    !t.root.statusOk && (Scanned(t) ==> !AllRead(t.children))
  }

  predicate TidyTree(t: Tree) {
    if t.root.statusOk then TidyProbe(t.root) else Scanned(t) ==> TidyProbes(t.children)
  }

  lemma BlindExactly(t: Tree)
    requires TidyTree(t)
    ensures ObserveTree(t).Unobservable? <==> Blind(t)
  {
    if Scanned(t) {
      ObservedFaithfully(t.children, t.children);
      CombineObserved(ObserveChildren(t.children));
    }
  }

  /** A commit holds no blank, and the head of a child scan holds one. */
  lemma RootHeadIsNoScanHead(t: Tree, u: Tree)
    requires TidyTree(t) && t.root.statusOk && TidyTree(u) && Scanned(u) && AllRead(u.children)
    ensures ObserveTree(t) != ObserveTree(u)
  {
    var children := ObserveChildren(u.children);
    ObservedProbes(u.children);
    ObservedFaithfully(u.children, u.children);
    CombineObserved(children);
    HeadTextHoldsABlank(children);
    if t.root.revOk {
      assert ' ' !in Trim(t.root.rev);
    }
  }

  /** Over every pair of workspaces: unobservable exactly when one of them could not be read, and
      unchanged exactly when both are repositories with the same status and head, or both are scans whose
      flattened texts look alike; where the names tell apart, those are the scans of the same children.
      Turning a repository into a scanned directory, or back, is always a change. */
  lemma TreeVerdict(base: Tree, cur: Tree)
    requires TidyTree(base) && TidyTree(cur)
    ensures var verdict := ClassifyChange(ObserveTree(base), ObserveTree(cur));
            && (verdict.NotObservable? <==> Blind(base) || Blind(cur))
            && (verdict.TreeUnchanged? <==>
                  && !Blind(base) && !Blind(cur) && base.root.statusOk == cur.root.statusOk
                  && if base.root.statusOk then ObserveRepo(base.root) == ObserveRepo(cur.root)
                     else ScansLookAlike(base.children, cur.children))
    ensures !Blind(base) && !Blind(cur) && !base.root.statusOk && !cur.root.statusOk
              && TellApart(ProbeNames(base.children), ProbeNames(cur.children)) ==>
              (ScansLookAlike(base.children, cur.children) <==> SameChildren(base.children, cur.children))
  {
    BlindExactly(base);
    BlindExactly(cur);
    if !Blind(base) && !Blind(cur) {
      if base.root.statusOk && !cur.root.statusOk {
        RootHeadIsNoScanHead(base, cur);
      } else if !base.root.statusOk && cur.root.statusOk {
        RootHeadIsNoScanHead(cur, base);
      } else if !base.root.statusOk {
        ScansExactly(base.children, cur.children);
        WorkspaceVerdict(base.children, cur.children);
      }
    }
  }

  // ----- On the raw results -----

  /** Both git runs gave the same: a status that agrees up to surrounding white space, and a commit that
      does, or none on either side. */
  ghost predicate SameResults(p: Probe, q: Probe) {
    && p.statusOk && q.statusOk && AgreeInside(p.status, q.status)
    && p.revOk == q.revOk && (p.revOk ==> AgreeInside(p.rev, q.rev))
  }

  lemma SameResultsExactly(p: Probe, q: Probe)
    requires p.statusOk && q.statusOk
    ensures ObserveRepo(p) == ObserveRepo(q) <==> SameResults(p, q)
  {
    SameTrimExactly(p.status, q.status);
    SameTrimExactly(p.rev, q.rev);
  }

  /** The same children are there, each with the same results. */
  ghost predicate SameChildResults(base: seq<ChildProbe>, cur: seq<ChildProbe>) {
    && |base| == |cur|
    && forall i | 0 <= i < |base| :: base[i].name == cur[i].name && SameResults(base[i].probe, cur[i].probe)
  }

  lemma SameChildResultsExactly(base: seq<ChildProbe>, cur: seq<ChildProbe>)
    requires AllRead(base) && AllRead(cur)
    ensures SameChildren(base, cur) <==> SameChildResults(base, cur)
  {
    forall i | 0 <= i < |base| && i < |cur|
      ensures ObserveRepo(base[i].probe) == ObserveRepo(cur[i].probe) <==> SameResults(base[i].probe, cur[i].probe)
    {
      assert base[i].probe.statusOk && cur[i].probe.statusOk;
      SameResultsExactly(base[i].probe, cur[i].probe);
    }
  }

  /** The verdict on what the git runs printed: two repositories are unchanged exactly when both runs gave
      the same; two scans whose names tell apart exactly when they found the same children with the same
      results. */
  lemma RawVerdict(base: Tree, cur: Tree)
    requires TidyTree(base) && TidyTree(cur)
    ensures base.root.statusOk && cur.root.statusOk ==>
              (ClassifyChange(ObserveTree(base), ObserveTree(cur)).TreeUnchanged? <==> SameResults(base.root, cur.root))
    ensures Scanned(base) && Scanned(cur) && TellApart(ProbeNames(base.children), ProbeNames(cur.children)) ==>
              (ClassifyChange(ObserveTree(base), ObserveTree(cur)).TreeUnchanged? <==>
                 SameChildResults(base.children, cur.children))
  {
    TreeVerdict(base, cur);
    if base.root.statusOk && cur.root.statusOk {
      SameResultsExactly(base.root, cur.root);
    }
    if Scanned(base) && Scanned(cur) {
      ScansInSameResults(base.children, cur.children);
    }
  }

  lemma ScansInSameResults(base: seq<ChildProbe>, cur: seq<ChildProbe>)
    ensures SameChildResults(base, cur) <==> AllRead(base) && AllRead(cur) && SameChildren(base, cur)
  {
    if SameChildResults(base, cur) {
      assert forall i | 0 <= i < |base| :: SameResults(base[i].probe, cur[i].probe);
    }
    if AllRead(base) && AllRead(cur) {
      SameChildResultsExactly(base, cur);
    }
  }

  /** Why nothing can be said: the reason of the current workspace if that could not be read, else of the
      baseline; a scan names its first unreadable child, in at most 200 characters. */
  lemma ReasonIsNamed(base: Tree, cur: Tree)
    requires TidyTree(base) && TidyTree(cur) && (Blind(base) || Blind(cur))
    ensures var blind := if Blind(cur) then cur else base;
            ClassifyChange(ObserveTree(base), ObserveTree(cur)) ==
            NotObservable(if Scanned(blind) then ScanReason(blind.children) else blind.root.reason)
  {
    BlindExactly(base);
    BlindExactly(cur);
    var blind := if Blind(cur) then cur else base;
    if Scanned(blind) {
      ScanIsNamed(blind.children);
    }
  }

  /** The first child that could not be read, with its reason, cut off behind 200 characters. */
  function ScanReason(children: seq<ChildProbe>): string
    requires !AllRead(children)
  {
    var reason := children[0].name + (": " + children[0].probe.reason);
    if children[0].probe.statusOk then ReadBehind(children); ScanReason(children[1..])
    else if |reason| <= 200 then reason
    else reason[..200]
  }

  lemma ReadBehind(children: seq<ChildProbe>)
    requires !AllRead(children) && children[0].probe.statusOk
    ensures !AllRead(children[1..])
  {
    var i :| 0 <= i < |children| && !children[i].probe.statusOk;
    assert children[1..][i - 1] == children[i];
  }

  lemma {:induction false} ScanIsNamed(children: seq<ChildProbe>)
    requires !AllRead(children)
    ensures Combine(ObserveChildren(children)) == Unobservable(ScanReason(children))
  {
    if children[0].probe.statusOk {
      ReadBehind(children);
      ScanIsNamed(children[1..]);
      CombineBehind(ObserveChildren(children));
    }
  }

  lemma CombineBehind(children: seq<Child>)
    requires children != [] && children[0].seen.Observed? && Combine(children[1..]).Unobservable?
    ensures Combine(children) == Combine(children[1..])
  {
  }
}
