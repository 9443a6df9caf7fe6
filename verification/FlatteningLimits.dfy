/** Under which names flattening a workspace's children (crates/harness/src/exec.rs,
    `combine_child_observations`) loses nothing: the exact conditions. */
module FlatteningLimits {
  import opened ChangeEvidence
  import opened HeadReadings
  import opened Outcomes
  import opened Sequences
  import opened Text

  // ----- One dirty child -----

  /** Observed children under `names`, all clean but the `i`-th. */
  function DirtyAt(names: seq<string>, i: int, p: string): seq<Child> {
    if names == [] then []
    else [Child(names[0], Observed(if i == 0 then p else "", None))] + DirtyAt(names[1..], i - 1, p)
  }

  function CleanHeads(names: seq<string>): seq<string> {
    if names == [] then [] else [names[0] + (" " + "none")] + CleanHeads(names[1..])
  }

  lemma OneStatusLine(c: Child)
    requires c.seen.Observed? && c.seen.porcelain != "" && '\n' !in c.seen.porcelain
    ensures OwnLines(c) == [c.name + ("/" + c.seen.porcelain)]
  {
    SplitPrefix(c.seen.porcelain, '\n', "");
    PrefixedLines(c.name, [c.seen.porcelain]);
  }

  lemma {:induction false} DirtyAtChildren(names: seq<string>, i: int, p: string)
    ensures |DirtyAt(names, i, p)| == |names| && AllObserved(DirtyAt(names, i, p))
    ensures forall k | 0 <= k < |names| ::
              DirtyAt(names, i, p)[k] == Child(names[k], Observed(if k == i then p else "", None))
  {
    if names != [] {
      DirtyAtChildren(names[1..], i - 1, p);
    }
  }

  lemma {:induction false} DirtyAtHeads(names: seq<string>, i: int, p: string)
    ensures HeadLines(DirtyAt(names, i, p)) == CleanHeads(names)
  {
    if names != [] {
      DirtyAtHeads(names[1..], i - 1, p);
      assert DirtyAt(names, i, p)[1..] == DirtyAt(names[1..], i - 1, p);
    }
  }

  lemma NoStatusLine(c: Child, lines: seq<string>)
    requires c.seen.Observed? && c.seen.porcelain == ""
    ensures OwnLines(c) + lines == lines
  {
  }

  lemma FirstChildLines(c: Child, rest: seq<Child>)
    ensures StatusLines([c] + rest) == OwnLines(c) + StatusLines(rest)
  {
    assert ([c] + rest)[1..] == rest;
  }

  lemma {:induction false} DirtyAtLines(names: seq<string>, i: int, p: string)
    requires p != "" && '\n' !in p
    ensures StatusLines(DirtyAt(names, i, p)) == if 0 <= i < |names| then [names[i] + ("/" + p)] else []
  {
    if names != [] {
      var (c, rest) := (Child(names[0], Observed(if i == 0 then p else "", None)), DirtyAt(names[1..], i - 1, p));
      DirtyAtLines(names[1..], i - 1, p);
      FirstChildLines(c, rest);
      if i == 0 {
        OneStatusLine(c);
      } else {
        NoStatusLine(c, StatusLines(rest));
      }
    }
  }

  /** Every pair of tidy observations under these names is judged right. */
  ghost predicate Faithful(names: seq<string>) {
    forall base, cur | Tidy(base) && Tidy(cur) && NamesOf(base) == names && NamesOf(cur) == names ::
      JudgedRight(base, cur)
  }

  lemma DirtyAtCombined(names: seq<string>, i: nat, p: string)
    requires i < |names| && p != "" && Trimmed(p) && '\n' !in p
    ensures Combine(DirtyAt(names, i, p))
         == Observed(TrimStart(names[i]) + ("/" + p), Some(Join(CleanHeads(names), "\n")))
  {
    DirtyAtChildren(names, i, p);
    DirtyAtHeads(names, i, p);
    DirtyAtLines(names, i, p);
    var line := names[i] + ("/" + p);
    CombinedFrom(DirtyAt(names, i, p), [line], CleanHeads(names));
    assert Join([line], "\n") == line && Last("/" + p) == Last(p);
    JoinedTrims(names[i], p, line);
  }

  lemma DirtyAtIsTidy(names: seq<string>, i: int, p: string)
    requires p != "" && Trimmed(p) && '\n' !in p && forall k | 0 <= k < |names| :: '/' !in names[k]
    ensures Tidy(DirtyAt(names, i, p)) && NamesOf(DirtyAt(names, i, p)) == names
  {
    var children := DirtyAt(names, i, p);
    DirtyAtChildren(names, i, p);
    assert Trimmed("");
    forall k | 0 <= k < |children| ensures TidyChild(children[k]) && NamesOf(children)[k] == names[k] {
      assert children[k] == Child(names[k], Observed(if k == i then p else "", None));
    }
  }

  /** When two names differ in leading blanks at most, a change can move between the two unseen. */
  lemma SharedTrimHidesAChange(names: seq<string>, i: nat, j: nat, p: string)
    requires i < j < |names| && TrimStart(names[i]) == TrimStart(names[j])
    requires p != "" && Trimmed(p) && '\n' !in p
    ensures DirtyAt(names, i, p) != DirtyAt(names, j, p)
    ensures ClassifyChange(Combine(DirtyAt(names, i, p)), Combine(DirtyAt(names, j, p))) == TreeUnchanged
  {
    DirtyAtCombined(names, i, p);
    DirtyAtCombined(names, j, p);
    DirtyAtChildren(names, i, p);
    DirtyAtChildren(names, j, p);
    assert DirtyAt(names, i, p)[i] != DirtyAt(names, j, p)[i];
  }

  lemma IndistinctIsUnfaithful(names: seq<string>, i: nat, j: nat, p: string)
    requires i < j < |names| && TrimStart(names[i]) == TrimStart(names[j])
    requires forall k | 0 <= k < |names| :: '/' !in names[k]
    requires p != "" && Trimmed(p) && '\n' !in p
    ensures var (base, cur) := (DirtyAt(names, i, p), DirtyAt(names, j, p));
            Tidy(base) && Tidy(cur) && NamesOf(base) == NamesOf(cur) == names && !JudgedRight(base, cur)
  {
    SharedTrimHidesAChange(names, i, j, p);
    DirtyAtIsTidy(names, i, p);
    DirtyAtIsTidy(names, j, p);
    DirtyAtChildren(names, i, p);
    DirtyAtChildren(names, j, p);
  }

  /** While the children stay the same, whatever their names, flattening is faithful exactly when no two
      names agree up to leading blanks. */
  lemma FlatteningIsFaithfulExactly(names: seq<string>)
    requires forall i | 0 <= i < |names| :: '/' !in names[i]
    ensures Faithful(names) <==> Distinct(names)
  {
    if Distinct(names) {
      forall base, cur | Tidy(base) && Tidy(cur) && NamesOf(base) == names && NamesOf(cur) == names
        ensures JudgedRight(base, cur)
      {
        SameNamesKeepTheVerdict(base, cur);
      }
    } else {
      var i, j :| 0 <= i < j < |names| && TrimStart(names[i]) == TrimStart(names[j]);
      IndistinctIsUnfaithful(names, i, j, "M");
    }
  }

  // ----- Names on both sides -----

  /** Every pair of tidy observations under these names is judged right. */
  ghost predicate PairFaithful(names: seq<string>, others: seq<string>) {
    forall base, cur | Tidy(base) && Tidy(cur) && NamesOf(base) == names && NamesOf(cur) == others ::
      JudgedRight(base, cur)
  }

  /** The same names, no two of them alike up to leading blanks; or names whose parts differ. */
  ghost predicate TellApart(names: seq<string>, others: seq<string>) {
    if names == others then Distinct(names) else !Compatible(AllSlots(names), AllSlots(others))
  }

  lemma OtherNamesTell(base: seq<Child>, cur: seq<Child>)
    requires Tidy(base) && Tidy(cur) && NamesOf(base) != NamesOf(cur)
    requires !Compatible(AllSlots(NamesOf(base)), AllSlots(NamesOf(cur)))
    ensures JudgedRight(base, cur)
  {
    CombineObserved(base);
    CombineObserved(cur);
    if AllObserved(base) && AllObserved(cur) && Combine(base) == Combine(cur) {
      FlattenedEqualExactly(base, cur);
      ReadingFits(base);
      ReadingFits(cur);
      AllSlotsAreTidy(NamesOf(base));
      AllSlotsAreTidy(NamesOf(cur));
      CompatibleExactly(AllSlots(NamesOf(base)), AllSlots(NamesOf(cur)));
    }
  }

  lemma CleanLookAlike(base: seq<Child>, cur: seq<Child>)
    requires AllClean(base) && AllClean(cur) && AllObserved(base) && AllObserved(cur) && Tidy(base) && Tidy(cur)
    requires Reading(base) == Reading(cur) && base != cur
    ensures !JudgedRight(base, cur)
  {
    CleanStatus(base);
    CleanStatus(cur);
    CombineObserved(base);
    FlattenedEqualExactly(base, cur);
  }

  /** Different names with compatible parts: clean children that read as the same. */
  lemma CompatibleNamesConfuse(names: seq<string>, others: seq<string>) returns (base: seq<Child>, cur: seq<Child>)
    requires names != others && Compatible(AllSlots(names), AllSlots(others))
    requires (forall i | 0 <= i < |names| :: '/' !in names[i]) && (forall i | 0 <= i < |others| :: '/' !in others[i])
    ensures Tidy(base) && Tidy(cur) && NamesOf(base) == names && NamesOf(cur) == others && !JudgedRight(base, cur)
    ensures AllClean(base) && AllClean(cur)
  {
    AllSlotsAreTidy(names);
    AllSlotsAreTidy(others);
    CompatibleExactly(AllSlots(names), AllSlots(others));
    var r :| Fits(AllSlots(names), r) && Fits(AllSlots(others), r);
    base := FitsIsRead(names, r);
    cur := FitsIsRead(others, r);
    CleanLookAlike(base, cur);
  }

  /** For any two lists of file names, every verdict is right exactly when the names tell apart. */
  lemma PairFaithfulExactly(names: seq<string>, others: seq<string>)
    requires (forall i | 0 <= i < |names| :: '/' !in names[i]) && (forall i | 0 <= i < |others| :: '/' !in others[i])
    ensures PairFaithful(names, others) <==> TellApart(names, others)
  {
    if names == others {
      FlatteningIsFaithfulExactly(names);
    } else if Compatible(AllSlots(names), AllSlots(others)) {
      var base, cur := CompatibleNamesConfuse(names, others);
    } else {
      forall base, cur | Tidy(base) && Tidy(cur) && NamesOf(base) == names && NamesOf(cur) == others
        ensures JudgedRight(base, cur)
      {
        OtherNamesTell(base, cur);
      }
    }
  }

  /** A line break in a name behind anything that looks like a head: two children read as one. */
  lemma LineBreakHidesAChange(x: string, word: string, y: string, head: Option<string>)
    requires HeadWord(word)
    ensures var base := [Child(x + (" " + (word + ("\n" + y))), Observed("", head))];
            var cur := [Child(x, Observed("", HeadOf(word))), Child(y, Observed("", head))];
            && SpellsHead(base[0].name) && AllObserved(base) && AllObserved(cur)
            && ClassifyChange(Combine(base), Combine(cur)) == TreeUnchanged
  {
    var name := x + (" " + (word + ("\n" + y)));
    var (c, d) := (Child(x, Observed("", HeadOf(word))), Child(y, Observed("", head)));
    var fused := Child(name, Observed("", head));
    assert name[|x| + 1..|x| + 1 + |word|] == word;
    assert SpellsHeadAt(name, |x|, |x| + 1 + |word|);
    assert [fused][1..] == [] && [c, d][1..] == [d] && [d][1..] == [];
    CleanStatus([fused]);
    CleanStatus([c, d]);
    CombineObserved([fused]);
    CombineObserved([c, d]);
    HeadLinesFirst([fused]);
    HeadLinesFirst([c, d]);
    HeadLinesFirst([d]);
    FusedLines(x, word, y, HeadText(head));
  }

  lemma FusedLines(x: string, word: string, y: string, last: string)
    ensures x + (" " + (word + ("\n" + y))) + (" " + (last + ""))
         == x + (" " + (word + ("\n" + (y + (" " + (last + ""))))))
  {
  }

  // ----- Against the plain names a scan can find -----

  /** What listing a directory gives: sorted names, none of them empty. */
  predicate Listed(names: seq<string>) {
    && (forall i | 0 <= i < |names| :: names[i] != "" && '/' !in names[i])
    && forall i, j | 0 <= i < j < |names| :: !TextLess(names[j], names[i])
  }

  /** Whatever listed children under plain names the workspace is compared with, the verdict is right. */
  ghost predicate Safe(names: seq<string>) {
    forall others | Listed(others) && Plain(others) :: PairFaithful(names, others)
  }

  /** The names of the parts the names fall into. */
  ghost function PartNames(names: seq<string>): seq<string> {
    seq(|AllSlots(names)|, k requires 0 <= k < |AllSlots(names)| => AllSlots(names)[k].name)
  }

  lemma {:induction false} PlainSlots(names: seq<string>)
    requires Plain(names)
    ensures |AllSlots(names)| == |names|
    ensures forall k | 0 <= k < |names| :: AllSlots(names)[k] == Free(names[k])
  {
    if names != [] {
      assert !SpellsHead(names[0]);
      assert forall i | 0 <= i < |names| - 1 :: names[1..][i] == names[i + 1];
      PlainSlots(names[1..]);
    }
  }

  /** Plain names fit the parts of some names exactly when they are their names. */
  lemma PlainCompatible(names: seq<string>, others: seq<string>)
    requires Plain(others)
    ensures Compatible(AllSlots(names), AllSlots(others)) <==> others == PartNames(names)
  {
    PlainSlots(others);
    if Compatible(AllSlots(names), AllSlots(others)) {
      assert forall k | 0 <= k < |others| :: others[k] == PartNames(names)[k];
    }
    if others == PartNames(names) {
      assert forall k | 0 <= k < |others| :: others[k] == AllSlots(names)[k].name;
    }
  }

  lemma {:induction false} PartsArePlain(names: seq<string>)
    requires forall i | 0 <= i < |names| :: '/' !in names[i]
    ensures Plain(PartNames(names)) && forall i | 0 <= i < |PartNames(names)| :: '/' !in PartNames(names)[i]
  {
    var children := seq(|names|, i requires 0 <= i < |names| => Child(names[i], Observed("", None)));
    assert NamesOf(children) == names && AllObserved(children) && Tidy(children);
    ReadingFits(children);
    if names != [] {
      ReadingReads(children);
    }
    assert NamesOf(Reading(children)) == PartNames(names);
    assert forall i | 0 <= i < |Reading(children)| ::
        TidyChild(Reading(children)[i]) && PartNames(names)[i] == Reading(children)[i].name;
  }

  lemma PlainAreTheirParts(names: seq<string>)
    requires Plain(names)
    ensures PartNames(names) == names
  {
    PlainSlots(names);
  }

  /** Listed names are safe exactly when they are plain and tell apart, or when the names of their parts are
      no listing. */
  lemma SafeExactly(names: seq<string>)
    requires Listed(names)
    ensures Safe(names) <==> if Plain(names) then Distinct(names) else !Listed(PartNames(names))
  {
    PartsArePlain(names);
    forall others | Listed(others) && Plain(others)
      ensures PairFaithful(names, others) <==> if names == others then Distinct(names) else others != PartNames(names)
    {
      PairFaithfulExactly(names, others);
      PlainCompatible(names, others);
    }
    if Plain(names) {
      PlainAreTheirParts(names);
      assert Safe(names) ==> PairFaithful(names, names);
    } else if Listed(PartNames(names)) {
      assert Safe(names) ==> PairFaithful(names, PartNames(names));
    }
  }
}
