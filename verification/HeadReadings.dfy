/** How the joined head lines of a flattened workspace read when names may hold line breaks
    (crates/harness/src/exec.rs, `combine_child_observations`). */
module HeadReadings {
  import opened ChangeEvidence
  import opened Outcomes
  import opened Sequences
  import opened Text

  function HeadOf(word: string): (head: Option<string>)
    requires HeadWord(word)
    ensures TidyHead(head) && HeadText(head) == word
  {
    if word == "none" then None else Some(word)
  }

  predicate AllClean(children: seq<Child>) {
    forall i | 0 <= i < |children| :: children[i].seen.Observed? && children[i].seen.porcelain == ""
  }

  /** Clean children under plain names, with `text` for their joined head lines. */
  predicate PlainReading(children: seq<Child>, text: string) {
    && children != [] && AllClean(children) && Tidy(children) && Plain(NamesOf(children))
    && Join(HeadLines(children), "\n") == text
  }

  lemma ThreeJoined(x: string, y: string, z: string)
    ensures x + ("\n" + (y + ("\n" + z))) == (x + ("\n" + y)) + ("\n" + z)
  {
  }

  lemma {:induction false} JoinAppend(a: seq<string>, b: seq<string>)
    requires a != [] && b != []
    ensures Join(a + b, "\n") == Join(a, "\n") + ("\n" + Join(b, "\n"))
    decreases |a|
  {
    assert (a + b)[1..] == a[1..] + b;
    if |a| > 1 {
      JoinAppend(a[1..], b);
      ThreeJoined(a[0], Join(a[1..], "\n"), Join(b, "\n"));
    } else {
      assert a[1..] + b == b;
    }
  }

  lemma {:induction false} HeadLinesAppend(a: seq<Child>, b: seq<Child>)
    ensures HeadLines(a + b) == HeadLines(a) + HeadLines(b)
  {
    if a == [] {
      assert a + b == b;
    } else {
      assert (a + b)[1..] == a[1..] + b;
      HeadLinesAppend(a[1..], b);
      Associate(OwnHead(a[0]), HeadLines(a[1..]), HeadLines(b));
    }
  }

  lemma HeadLinesAreThere(children: seq<Child>)
    requires children != [] && children[0].seen.Observed?
    ensures HeadLines(children) != []
  {
    assert OwnHead(children[0]) != [];
  }

  lemma NamesAppend(a: seq<Child>, b: seq<Child>)
    ensures NamesOf(a + b) == NamesOf(a) + NamesOf(b)
    ensures Plain(NamesOf(a)) && Plain(NamesOf(b)) ==> Plain(NamesOf(a + b))
    ensures Tidy(a) && Tidy(b) ==> Tidy(a + b)
    ensures AllClean(a) && AllClean(b) ==> AllClean(a + b)
  {
    assert NamesOf(a + b) == NamesOf(a) + NamesOf(b);
  }

  lemma ReadingsAppend(a: seq<Child>, s: string, b: seq<Child>, t: string)
    requires PlainReading(a, s) && PlainReading(b, t)
    ensures PlainReading(a + b, s + ("\n" + t))
  {
    NamesAppend(a, b);
    HeadLinesAppend(a, b);
    HeadLinesAreThere(a);
    HeadLinesAreThere(b);
    JoinAppend(HeadLines(a), HeadLines(b));
  }

  lemma PlainChildReads(name: string, word: string)
    requires '/' !in name && HeadWord(word) && !SpellsHead(name)
    ensures PlainReading([Child(name, Observed("", HeadOf(word)))], name + (" " + word))
  {
    var c := Child(name, Observed("", HeadOf(word)));
    assert [c][1..] == [] && HeadLines([c]) == [name + (" " + word)];
  }

  lemma SpelledName(name: string, i: nat, j: nat, word: string)
    requires i < j < |name| && SpellsHeadAt(name, i, j)
    ensures name + (" " + word) == name[..i] + (" " + name[i + 1..j]) + ("\n" + (name[j + 1..] + (" " + word)))
    ensures '/' !in name ==> '/' !in name[..i] && '/' !in name[j + 1..]
  {
    assert name == name[..i] + (" " + name[i + 1..j]) + ("\n" + name[j + 1..]);
  }

  lemma {:induction false} CleanStatus(children: seq<Child>)
    requires AllClean(children)
    ensures StatusLines(children) == [] && AllObserved(children)
  {
    if children != [] {
      CleanStatus(children[1..]);
    }
  }

  // ----- The parts of a name -----

  // A name falls apart wherever it spells the end of a head line. Every part but the last is followed by
  // the head it spells; what follows the last one is the child's own head.
  datatype Slot = Fixed(name: string, head: Option<string>) | Free(name: string)

  /** The first place where the name falls apart. */
  predicate FirstSpelled(name: string, i: nat, j: nat) {
    i < j < |name| && SpellsHeadAt(name, i, j) && !SpellsHead(name[..i])
  }

  lemma {:induction false} SomeFirstSpelled(name: string) returns (i: nat, j: nat)
    requires SpellsHead(name)
    ensures FirstSpelled(name, i, j)
    decreases |name|
  {
    var k, l :| 0 <= k < l < |name| && SpellsHeadAt(name, k, l);
    i, j := k, l;
    if SpellsHead(name[..k]) {
      i, j := SomeFirstSpelled(name[..k]);
      assert name[..k][i + 1..j] == name[i + 1..j] && name[..k][..i] == name[..i];
    }
  }

  lemma HasFirstSpelled(name: string)
    requires SpellsHead(name)
    ensures exists i: nat, j: nat :: FirstSpelled(name, i, j)
  {
    var i, j := SomeFirstSpelled(name);
  }

  ghost function Slots(name: string): (slots: seq<Slot>)
    ensures slots != [] && slots[|slots| - 1].Free?
    ensures forall k | 0 <= k < |slots| - 1 :: slots[k].Fixed?
    ensures forall k | 0 <= k < |slots| && slots[k].Fixed? :: TidyHead(slots[k].head)
    decreases |name|
  {
    if !SpellsHead(name) then [Free(name)]
    else
      HasFirstSpelled(name);
      var i: nat, j: nat :| FirstSpelled(name, i, j);
      [Fixed(name[..i], HeadOf(name[i + 1..j]))] + Slots(name[j + 1..])
  }

  ghost function AllSlots(names: seq<string>): seq<Slot> {
    if names == [] then [] else Slots(names[0]) + AllSlots(names[1..])
  }

  /** The slot with `head` where it leaves the head open. */
  function Fill(slot: Slot, head: Option<string>): Child {
    Child(slot.name, Observed("", if slot.Fixed? then slot.head else head))
  }

  function FillAll(slots: seq<Slot>, head: Option<string>): seq<Child> {
    seq(|slots|, k requires 0 <= k < |slots| => Fill(slots[k], head))
  }

  /** The children under plain names whose head lines these children's head lines spell. */
  ghost function Reading(children: seq<Child>): seq<Child>
    requires AllObserved(children)
  {
    if children == [] then []
    else FillAll(Slots(children[0].name), children[0].seen.head) + Reading(children[1..])
  }

  lemma FillFirst(slot: Slot, slots: seq<Slot>, head: Option<string>)
    ensures FillAll([slot] + slots, head) == [Fill(slot, head)] + FillAll(slots, head)
  {
  }

  lemma {:induction false} FillReads(name: string, head: Option<string>)
    requires '/' !in name && TidyHead(head)
    ensures PlainReading(FillAll(Slots(name), head), name + (" " + HeadText(head)))
    decreases |name|
  {
    HeadTextIsWord(head);
    HeadTextDetermines(HeadOf(HeadText(head)), head);
    if !SpellsHead(name) {
      PlainChildReads(name, HeadText(head));
      assert FillAll(Slots(name), head) == [Child(name, Observed("", head))];
    } else {
      HasFirstSpelled(name);
      var i: nat, j: nat :| FirstSpelled(name, i, j)
                            && Slots(name) == [Fixed(name[..i], HeadOf(name[i + 1..j]))] + Slots(name[j + 1..]);
      SpelledName(name, i, j, HeadText(head));
      PlainChildReads(name[..i], name[i + 1..j]);
      FillReads(name[j + 1..], head);
      FillFirst(Fixed(name[..i], HeadOf(name[i + 1..j])), Slots(name[j + 1..]), head);
      ReadingsAppend([Child(name[..i], Observed("", HeadOf(name[i + 1..j])))], name[..i] + (" " + name[i + 1..j]),
                     FillAll(Slots(name[j + 1..]), head), name[j + 1..] + (" " + HeadText(head)));
    }
  }

  lemma {:induction false} ReadingReads(children: seq<Child>)
    requires children != [] && Tidy(children) && AllObserved(children)
    ensures PlainReading(Reading(children), Join(HeadLines(children), "\n"))
    decreases |children|
  {
    var (c, rest) := (children[0], children[1..]);
    FillReads(c.name, c.seen.head);
    FirstHeadLineFirst(children);
    if rest != [] {
      SeenBehind(children);
      ReadingReads(rest);
      ReadingsAppend(FillAll(Slots(c.name), c.seen.head), c.name + (" " + HeadText(c.seen.head)),
                     Reading(rest), Join(HeadLines(rest), "\n"));
    } else {
      assert FillAll(Slots(c.name), c.seen.head) + [] == FillAll(Slots(c.name), c.seen.head);
    }
  }

  lemma FirstHeadLineFirst(children: seq<Child>)
    requires children != [] && AllObserved(children)
    ensures var (line, rest) := (children[0].name + (" " + HeadText(children[0].seen.head)), children[1..]);
            Join(HeadLines(children), "\n") == if rest == [] then line else line + ("\n" + Join(HeadLines(rest), "\n"))
  {
    var (line, rest) := (children[0].name + (" " + HeadText(children[0].seen.head)), children[1..]);
    assert HeadLines(children) == [line] + HeadLines(rest);
    JoinFirst([line] + HeadLines(rest));
    if rest != [] {
      HeadLinesAreThere(rest);
    }
  }

  lemma SameCleanChildren(a: seq<Child>, b: seq<Child>)
    requires AllClean(a) && AllClean(b) && AllObserved(a) && AllObserved(b)
    requires NamesOf(a) == NamesOf(b) && HeadsOf(a) == HeadsOf(b)
    ensures a == b
  {
    assert |a| == |NamesOf(a)| == |NamesOf(b)| == |b|;
    assert forall i | 0 <= i < |a| :: a[i].name == NamesOf(a)[i] == NamesOf(b)[i] == b[i].name;
    assert forall i | 0 <= i < |a| :: a[i].seen.head == HeadsOf(a)[i] == HeadsOf(b)[i] == b[i].seen.head;
    assert forall i | 0 <= i < |a| :: a[i] == b[i];
  }

  /** Joined head lines are the same text exactly when they have the same reading. */
  lemma SameReadingExactly(a: seq<Child>, b: seq<Child>)
    requires Tidy(a) && Tidy(b) && AllObserved(a) && AllObserved(b)
    ensures Join(HeadLines(a), "\n") == Join(HeadLines(b), "\n") <==> Reading(a) == Reading(b)
  {
    if a != [] {
      ReadingReads(a);
      HeadTextHoldsABlank(a);
      CleanStatus(Reading(a));
    }
    if b != [] {
      ReadingReads(b);
      HeadTextHoldsABlank(b);
      CleanStatus(Reading(b));
    }
    if a != [] && b != [] && Join(HeadLines(a), "\n") == Join(HeadLines(b), "\n") {
      HeadLinesDetermine(Reading(a), Reading(b));
      SameCleanChildren(Reading(a), Reading(b));
    }
  }

  // ----- Which readings names allow -----

  /** Clean children that fill the slots. */
  predicate Fits(slots: seq<Slot>, r: seq<Child>) {
    |slots| == |r| && forall k | 0 <= k < |r| :: FitsSlot(slots[k], r[k])
  }

  predicate FitsSlot(slot: Slot, c: Child) {
    && c.name == slot.name && c.seen.Observed? && c.seen.porcelain == "" && TidyHead(c.seen.head)
    && (slot.Fixed? ==> c.seen.head == slot.head)
  }

  lemma FitsAppend(s: seq<Slot>, a: seq<Child>, t: seq<Slot>, b: seq<Child>)
    requires Fits(s, a) && Fits(t, b)
    ensures Fits(s + t, a + b)
  {
  }

  lemma {:induction false} ReadingFits(children: seq<Child>)
    requires Tidy(children) && AllObserved(children)
    ensures Fits(AllSlots(NamesOf(children)), Reading(children))
    decreases |children|
  {
    if children != [] {
      var c := children[0];
      FirstName(children);
      SeenBehind(children);
      ReadingFits(children[1..]);
      assert TidyChild(c);
      assert Fits(Slots(c.name), FillAll(Slots(c.name), c.seen.head));
      FitsAppend(Slots(c.name), FillAll(Slots(c.name), c.seen.head),
                 AllSlots(NamesOf(children[1..])), Reading(children[1..]));
    }
  }

  lemma FitsIsFilled(name: string, r: seq<Child>)
    requires Fits(Slots(name), r)
    ensures r == FillAll(Slots(name), r[|r| - 1].seen.head)
  {
  }

  /** Whatever fills the slots of some names is read off children under these names. */
  lemma {:induction false} FitsIsRead(names: seq<string>, r: seq<Child>) returns (children: seq<Child>)
    requires Fits(AllSlots(names), r) && forall i | 0 <= i < |names| :: '/' !in names[i]
    ensures Tidy(children) && AllClean(children) && AllObserved(children)
    ensures NamesOf(children) == names && Reading(children) == r
    decreases |names|
  {
    children := [];
    if names != [] {
      var front, back := SplitFits(Slots(names[0]), AllSlots(names[1..]), r);
      var rest := FitsIsRead(names[1..], back);
      children := ReadBefore(names[0], front, rest);
      assert names == [names[0]] + names[1..];
    }
  }

  lemma ReadBefore(name: string, front: seq<Child>, rest: seq<Child>) returns (children: seq<Child>)
    requires '/' !in name && Fits(Slots(name), front) && Tidy(rest) && AllClean(rest) && AllObserved(rest)
    ensures Tidy(children) && AllClean(children) && AllObserved(children)
    ensures NamesOf(children) == [name] + NamesOf(rest) && Reading(children) == front + Reading(rest)
  {
    var c := Child(name, Observed("", front[|front| - 1].seen.head));
    children := [c] + rest;
    FitsIsFilled(name, front);
    assert FitsSlot(Slots(name)[|front| - 1], front[|front| - 1]);
    assert children[0] == c && children[1..] == rest;
    FirstName(children);
  }

  lemma SplitFits(s: seq<Slot>, t: seq<Slot>, r: seq<Child>) returns (front: seq<Child>, back: seq<Child>)
    requires Fits(s + t, r)
    ensures r == front + back && Fits(s, front) && Fits(t, back)
  {
    front, back := r[..|s|], r[|s|..];
    assert forall k | 0 <= k < |t| :: (s + t)[|s| + k] == t[k] && back[k] == r[|s| + k];
    assert forall k | 0 <= k < |s| :: (s + t)[k] == s[k];
  }

  /** The parts carry the same names, and where both sides fix a head they fix the same one. */
  predicate Compatible(s: seq<Slot>, t: seq<Slot>) {
    && |s| == |t|
    && forall k | 0 <= k < |s| :: s[k].name == t[k].name && (s[k].Fixed? && t[k].Fixed? ==> s[k].head == t[k].head)
  }

  predicate TidySlots(slots: seq<Slot>) {
    forall k | 0 <= k < |slots| && slots[k].Fixed? :: TidyHead(slots[k].head)
  }

  lemma {:induction false} AllSlotsAreTidy(names: seq<string>)
    ensures TidySlots(AllSlots(names))
  {
    if names != [] {
      AllSlotsAreTidy(names[1..]);
    }
  }

  /** Two slot lists are compatible exactly when something fills both. */
  lemma CompatibleExactly(s: seq<Slot>, t: seq<Slot>)
    requires TidySlots(s) && TidySlots(t)
    ensures Compatible(s, t) <==> exists r :: Fits(s, r) && Fits(t, r)
  {
    if Compatible(s, t) {
      var r := seq(|s|, k requires 0 <= k < |s| => Fill(if s[k].Fixed? then s[k] else t[k], None));
      assert Fits(s, r) && Fits(t, r);
    }
    if r :| Fits(s, r) && Fits(t, r) {
      assert forall k | 0 <= k < |s| :: FitsSlot(s[k], r[k]) && FitsSlot(t[k], r[k]);
    }
  }

  // ----- The whole flattened text -----

  /** The lines without the leading blanks of the first. */
  function FrontTrimmed(lines: seq<string>): seq<string> {
    if lines == [] then [] else [TrimStart(lines[0])] + lines[1..]
  }

  lemma FrontOfStatus(children: seq<Child>)
    requires Tidy(children) && StatusLines(children) != []
    ensures NamedLines(FrontTrimmed(StatusLines(children)))
    ensures Trim(Join(StatusLines(children), "\n")) == Join(FrontTrimmed(StatusLines(children)), "\n")
  {
    var lines := StatusLines(children);
    var k, text := FirstStatusLine(children);
    StatusLinesAreNamed(children);
    TrimStartBefore(children[k].name, "/" + text);
    StatusLinesEnd(children);
    FrontIsTrimmed(children[k].name, text, lines);
    TrimStartAddsNothing(children[k].name, '/');
    FrontIsNamed(children[k].name, text, lines);
  }

  lemma FrontIsTrimmed(name: string, text: string, lines: seq<string>)
    requires lines != [] && lines[0] == name + ("/" + text) && Last(lines) != "" && !IsWhitespace(Last(Last(lines)))
    ensures Trim(Join(lines, "\n")) == Join(FrontTrimmed(lines), "\n")
  {
    NameTextTail(name, text, lines);
    JoinLast(lines, "\n");
    JoinedTrims(name, text + Tail(lines[1..]), Join(lines, "\n"));
    TrimStartBefore(name, "/" + text);
    NameTextTail(TrimStart(name), text, FrontTrimmed(lines));
  }

  lemma FrontIsNamed(name: string, text: string, lines: seq<string>)
    requires NamedLines(lines) && lines != [] && lines[0] == name + ("/" + text)
    requires '/' !in TrimStart(name) && '\n' !in text
    ensures NamedLines(FrontTrimmed(lines))
  {
    TrimStartBefore(name, "/" + text);
    assert Belongs(TrimStart(lines[0]), TrimStart(name));
    assert IsNamed(TrimStart(lines[0]));
  }

  /** Trimmed statuses are the same text exactly when their lines agree up to leading blanks of the first. */
  lemma SameStatusExactly(a: seq<Child>, b: seq<Child>)
    requires Tidy(a) && Tidy(b)
    ensures Trim(Join(StatusLines(a), "\n")) == Trim(Join(StatusLines(b), "\n"))
        <==> FrontTrimmed(StatusLines(a)) == FrontTrimmed(StatusLines(b))
  {
    if StatusLines(a) != [] {
      FrontOfStatus(a);
      NamedLineIsNotEmpty(FrontTrimmed(StatusLines(a)));
    }
    if StatusLines(b) != [] {
      FrontOfStatus(b);
      NamedLineIsNotEmpty(FrontTrimmed(StatusLines(b)));
    }
    if StatusLines(a) != [] && StatusLines(b) != []
       && Trim(Join(StatusLines(a), "\n")) == Trim(Join(StatusLines(b), "\n")) {
      NamedLinesDetermined(FrontTrimmed(StatusLines(a)), FrontTrimmed(StatusLines(b)));
    }
  }

  /** All that two flattened workspaces show of their children. */
  ghost predicate LookAlike(a: seq<Child>, b: seq<Child>)
    requires AllObserved(a) && AllObserved(b)
  {
    Reading(a) == Reading(b) && FrontTrimmed(StatusLines(a)) == FrontTrimmed(StatusLines(b))
  }

  /** Over all children: flattened workspaces are equal exactly when the heads have the same reading and
      the status lines agree up to leading blanks of the first. */
  lemma FlattenedEqualExactly(a: seq<Child>, b: seq<Child>)
    requires Tidy(a) && Tidy(b) && AllObserved(a) && AllObserved(b)
    ensures Combine(a) == Combine(b) <==> LookAlike(a, b)
  {
    CombineObserved(a);
    CombineObserved(b);
    SameReadingExactly(a, b);
    SameStatusExactly(a, b);
  }
}
