/** Comparing observations of a workspace made of many repositories
    (crates/harness/src/exec.rs, `combine_child_observations`, `classify_change`, `observe_tree`). */
module ChangeEvidence {
  import opened Outcomes
  import opened Sequences
  import opened Text

  datatype Observation = Observed(porcelain: string, head: Option<string>) | Unobservable(reason: string)

  datatype Child = Child(name: string, seen: Observation)

  datatype Evidence = TreeChanged | TreeUnchanged | NotObservable(reason: string)

  const REASON_CAP: nat := 200

  // ----- Flattening the children into one observation -----

  function HeadText(head: Option<string>): string {
    if head.Some? then head.value else "none"
  }

  function Prefixed(name: string, lines: seq<string>): seq<string> {
    if lines == [] then [] else [name + ("/" + lines[0])] + Prefixed(name, lines[1..])
  }

  /** The status lines one child contributes: none when it is clean. */
  function OwnLines(c: Child): seq<string> {
    if c.seen.Unobservable? || c.seen.porcelain == "" then []
    else Prefixed(c.name, Split(c.seen.porcelain, '\n'))
  }

  function StatusLines(children: seq<Child>): seq<string> {
    if children == [] then [] else OwnLines(children[0]) + StatusLines(children[1..])
  }

  /** The head line one observed child contributes; commits show nowhere else. */
  function OwnHead(c: Child): seq<string> {
    if c.seen.Unobservable? then [] else [c.name + (" " + HeadText(c.seen.head))]
  }

  function HeadLines(children: seq<Child>): seq<string> {
    if children == [] then [] else OwnHead(children[0]) + HeadLines(children[1..])
  }

  predicate AllObserved(children: seq<Child>) {
    forall i | 0 <= i < |children| :: children[i].seen.Observed?
  }

  function FirstFailing(children: seq<Child>): (i: nat)
    ensures i <= |children| && AllObserved(children[..i])
    ensures i < |children| ==> children[i].seen.Unobservable?
  {
    if children == [] || children[0].seen.Unobservable? then 0
    else
      var i := 1 + FirstFailing(children[1..]);
      assert children[..i] == [children[0]] + children[1..][..i - 1];
      i
  }

  function Capped(reason: string): string {
    if |reason| <= REASON_CAP then reason else reason[..REASON_CAP]
  }

  function Combine(children: seq<Child>): Observation {
    var i := FirstFailing(children);
    if i < |children| then Unobservable(Capped(children[i].name + (": " + children[i].seen.reason)))
    else Observed(Trim(Join(StatusLines(children), "\n")), Some(Join(HeadLines(children), "\n")))
  }

  function ClassifyChange(baseline: Observation, current: Observation): Evidence {
    match (baseline, current)
    case (_, Unobservable(reason)) => NotObservable(reason)
    case (Unobservable(reason), _) => NotObservable(reason)
    case (Observed(p, h), Observed(q, k)) => if p == q && h == k then TreeUnchanged else TreeChanged
  }

  lemma {:induction false} PrefixedOneMore(name: string, lines: seq<string>, line: string)
    ensures Prefixed(name, lines + [line]) == Prefixed(name, lines) + [name + ("/" + line)]
  {
    if lines == [] {
      assert lines + [line] == [line];
    } else {
      assert (lines + [line])[1..] == lines[1..] + [line];
      PrefixedOneMore(name, lines[1..], line);
    }
  }

  lemma {:induction false} LinesOneMore(children: seq<Child>, c: Child)
    ensures StatusLines(children + [c]) == StatusLines(children) + OwnLines(c)
    ensures HeadLines(children + [c]) == HeadLines(children) + OwnHead(c)
  {
    if children == [] {
      assert children + [c] == [c];
    } else {
      assert (children + [c])[1..] == children[1..] + [c];
      LinesOneMore(children[1..], c);
      Associate(OwnLines(children[0]), StatusLines(children[1..]), OwnLines(c));
      Associate(OwnHead(children[0]), HeadLines(children[1..]), OwnHead(c));
    }
  }

  lemma FirstFailingIs(children: seq<Child>, i: nat)
    requires i <= |children| && AllObserved(children[..i])
    requires i < |children| ==> children[i].seen.Unobservable?
    ensures FirstFailing(children) == i
  {
    var j := FirstFailing(children);
    assert forall k | 0 <= k < i :: children[k] == children[..i][k];
    assert forall k | 0 <= k < j :: children[k] == children[..j][k];
  }

  method CombineChildObservations(children: seq<Child>) returns (r: Observation)
    ensures r == Combine(children)
  {
    var f := 0;
    while f < |children| && children[f].seen.Observed?
      invariant 0 <= f <= |children| && forall k | 0 <= k < f :: children[k].seen.Observed?
    {
      f := f + 1;
    }
    FirstFailingIs(children, f);
    if f < |children| {
      return Unobservable(Capped(children[f].name + (": " + children[f].seen.reason)));
    }
    var statusLines, headLines := [], [];
    for i := 0 to |children|
      invariant statusLines == StatusLines(children[..i]) && headLines == HeadLines(children[..i])
    {
      var c := children[i];
      assert children[..i + 1] == children[..i] + [c];
      LinesOneMore(children[..i], c);
      if c.seen.Unobservable? {
        continue;
      }
      if c.seen.porcelain != "" {
        statusLines := AppendPrefixed(statusLines, c.name, Split(c.seen.porcelain, '\n'));
      }
      headLines := headLines + [c.name + (" " + HeadText(c.seen.head))];
    }
    assert children[..|children|] == children;
    r := Observed(Trim(Join(statusLines, "\n")), Some(Join(headLines, "\n")));
  }

  method AppendPrefixed(before: seq<string>, name: string, lines: seq<string>) returns (after: seq<string>)
    ensures after == before + Prefixed(name, lines)
  {
    after := before;
    for j := 0 to |lines|
      invariant after == before + Prefixed(name, lines[..j])
    {
      assert lines[..j + 1] == lines[..j] + [lines[j]];
      PrefixedOneMore(name, lines[..j], lines[j]);
      after := after + [name + ("/" + lines[j])];
    }
    assert lines[..|lines|] == lines;
  }

  // ----- What the flattening must preserve -----

  /** A commit, as git prints it: the whole name, under either of its hash functions. */
  predicate IsCommit(s: string) {
    (|s| == 40 || |s| == 64) && forall i | 0 <= i < |s| :: '0' <= s[i] <= '9' || 'a' <= s[i] <= 'f'
  }

  predicate TidyHead(head: Option<string>) {
    head.Some? ==> IsCommit(head.value)
  }

  /** What a head line can end in. */
  predicate HeadWord(word: string) {
    word == "none" || IsCommit(word)
  }

  /** The name holds what could be the end of one head line and the start of the next. */
  predicate SpellsHead(name: string) {
    exists i, j :: 0 <= i < j < |name| && SpellsHeadAt(name, i, j)
  }

  predicate SpellsHeadAt(name: string, i: nat, j: nat)
    requires i < j < |name|
  {
    name[i] == ' ' && name[j] == '\n' && HeadWord(name[i + 1..j])
  }

  /** No name spells a head line; in particular every name without a line break is plain. */
  predicate Plain(names: seq<string>) {
    forall i | 0 <= i < |names| :: !SpellsHead(names[i])
  }

  /** No two names differ in leading blanks only, or not at all. */
  predicate Distinct(names: seq<string>) {
    forall i, j | 0 <= i < j < |names| :: TrimStart(names[i]) != TrimStart(names[j])
  }

  function NamesOf(children: seq<Child>): seq<string> {
    seq(|children|, i requires 0 <= i < |children| => children[i].name)
  }

  predicate TidyChild(c: Child) {
    '/' !in c.name && (c.seen.Observed? ==> Trimmed(c.seen.porcelain) && TidyHead(c.seen.head))
  }

  predicate Tidy(children: seq<Child>) {
    forall i | 0 <= i < |children| :: TidyChild(children[i])
  }

  // ----- Joined lines -----

  /** What follows the first line of a joined text. */
  function Tail(rest: seq<string>): string {
    if rest == [] then "" else "\n" + Join(rest, "\n")
  }

  lemma JoinFirst(lines: seq<string>)
    requires lines != []
    ensures Join(lines, "\n") == lines[0] + Tail(lines[1..])
  {
  }

  lemma TailBreaks(t: string, rest: seq<string>)
    ensures if rest == [] then t + Tail(rest) == t else '\n' in t + Tail(rest)
  {
    assert rest != [] ==> (t + Tail(rest))[|t|] == '\n';
  }

  /** An unbroken text in front of a tail, and the tail, are determined. */
  lemma UnbrokenThenTail(t: string, a: seq<string>, u: string, b: seq<string>)
    requires '\n' !in t && '\n' !in u && t + Tail(a) == u + Tail(b)
    ensures t == u && Tail(a) == Tail(b)
  {
    TailBreaks(t, a);
    TailBreaks(u, b);
    if a != [] && b != [] {
      FirstMark(t, '\n', Join(a, "\n"), u, Join(b, "\n"));
    }
  }

  lemma TailDetermines(a: seq<string>, b: seq<string>)
    requires Tail(a) == Tail(b)
    ensures (a == [] <==> b == []) && Join(a, "\n") == Join(b, "\n")
  {
    if a != [] && b != [] {
      assert Join(a, "\n") == Tail(a)[1..] && Join(b, "\n") == Tail(b)[1..];
    }
  }

  lemma {:induction false} PrefixedLines(name: string, lines: seq<string>)
    ensures |Prefixed(name, lines)| == |lines|
    ensures forall i | 0 <= i < |lines| :: Prefixed(name, lines)[i] == name + ("/" + lines[i])
  {
    if lines != [] {
      PrefixedLines(name, lines[1..]);
    }
  }

  lemma PrefixedIsInjective(name: string, a: seq<string>, b: seq<string>)
    requires Prefixed(name, a) == Prefixed(name, b)
    ensures a == b
  {
    PrefixedLines(name, a);
    PrefixedLines(name, b);
    forall i | 0 <= i < |a| ensures a[i] == b[i] {
      assert (name + ("/" + a[i]))[|name| + 1..] == a[i];
      assert (name + ("/" + b[i]))[|name| + 1..] == b[i];
    }
  }

  /** The name a status line was prefixed with. */
  ghost predicate Belongs(line: string, name: string) {
    '/' !in name && exists l :: '\n' !in l && line == name + ("/" + l)
  }

  ghost predicate IsNamed(line: string) {
    exists name :: Belongs(line, name)
  }

  ghost predicate NamedLines(lines: seq<string>) {
    forall i | 0 <= i < |lines| :: IsNamed(lines[i])
  }

  lemma NamedLinesBehind(lines: seq<string>)
    requires NamedLines(lines) && lines != []
    ensures IsNamed(lines[0]) && NamedLines(lines[1..])
  {
    assert forall i | 0 <= i < |lines| - 1 :: lines[1..][i] == lines[i + 1];
  }

  /** Lines that start with a name and a slash are determined by their join, whatever line breaks the
      names hold. */
  lemma {:induction false} NamedLinesDetermined(a: seq<string>, b: seq<string>)
    requires NamedLines(a) && NamedLines(b) && Join(a, "\n") == Join(b, "\n")
    ensures a == b
    decreases |a|
  {
    if a != [] && b != [] {
      NamedLinesBehind(a);
      NamedLinesBehind(b);
      FirstNamedLine(a, b);
      TailDetermines(a[1..], b[1..]);
      NamedLinesDetermined(a[1..], b[1..]);
      assert a == [a[0]] + a[1..] && b == [b[0]] + b[1..];
    } else if a != [] {
      NamedLineIsNotEmpty(a);
    } else if b != [] {
      NamedLineIsNotEmpty(b);
    }
  }

  lemma NamedLineIsNotEmpty(lines: seq<string>)
    requires NamedLines(lines) && lines != []
    ensures Join(lines, "\n") != ""
  {
    JoinFirst(lines);
    assert IsNamed(lines[0]);
    var name :| Belongs(lines[0], name);
  }

  lemma NameTextTail(name: string, text: string, lines: seq<string>)
    requires lines != [] && lines[0] == name + ("/" + text)
    ensures Join(lines, "\n") == name + ("/" + (text + Tail(lines[1..])))
  {
    JoinFirst(lines);
  }

  lemma FirstNamedLine(a: seq<string>, b: seq<string>)
    requires a != [] && b != [] && IsNamed(a[0]) && IsNamed(b[0]) && Join(a, "\n") == Join(b, "\n")
    ensures a[0] == b[0] && Tail(a[1..]) == Tail(b[1..])
  {
    var name :| Belongs(a[0], name);
    var text :| '\n' !in text && a[0] == name + ("/" + text);
    var other :| Belongs(b[0], other);
    var more :| '\n' !in more && b[0] == other + ("/" + more);
    NameTextTail(name, text, a);
    NameTextTail(other, more, b);
    FirstMark(name, '/', text + Tail(a[1..]), other, more + Tail(b[1..]));
    UnbrokenThenTail(text, a[1..], more, b[1..]);
  }

  lemma BelongsOnce(line: string, a: string, b: string)
    requires Belongs(line, a) && Belongs(line, b)
    ensures a == b
  {
    var l :| line == a + ("/" + l);
    var k :| line == b + ("/" + k);
    FirstMark(a, '/', l, b, k);
  }

  lemma OwnLinesBelong(c: Child)
    requires TidyChild(c)
    ensures forall i | 0 <= i < |OwnLines(c)| :: Belongs(OwnLines(c)[i], c.name)
  {
    if c.seen.Observed? && c.seen.porcelain != "" {
      PrefixedLines(c.name, Split(c.seen.porcelain, '\n'));
    }
  }

  ghost predicate BelongsToSome(line: string, children: seq<Child>) {
    exists k :: 0 <= k < |children| && Belongs(line, children[k].name)
  }

  lemma BelongsBehind(line: string, children: seq<Child>)
    requires children != []
    ensures Belongs(line, children[0].name) || BelongsToSome(line, children[1..]) ==> BelongsToSome(line, children)
  {
    if BelongsToSome(line, children[1..]) {
      var k :| 0 <= k < |children| - 1 && Belongs(line, children[1..][k].name);
      assert Belongs(line, children[k + 1].name);
    }
  }

  lemma {:induction false} StatusLinesBelong(children: seq<Child>)
    requires Tidy(children)
    ensures forall i | 0 <= i < |StatusLines(children)| :: BelongsToSome(StatusLines(children)[i], children)
  {
    if children != [] {
      OwnLinesBelong(children[0]);
      StatusLinesBelong(children[1..]);
      forall i | 0 <= i < |StatusLines(children)| ensures BelongsToSome(StatusLines(children)[i], children) {
        BelongsBehind(StatusLines(children)[i], children);
      }
    }
  }

  lemma StatusLinesAreNamed(children: seq<Child>)
    requires Tidy(children)
    ensures NamedLines(StatusLines(children))
  {
    StatusLinesBelong(children);
    forall i | 0 <= i < |StatusLines(children)| ensures IsNamed(StatusLines(children)[i]) {
      assert BelongsToSome(StatusLines(children)[i], children);
      var k :| 0 <= k < |children| && Belongs(StatusLines(children)[i], children[k].name);
    }
  }

  // ----- Flattening loses nothing that decides the verdict -----

  lemma OwnLinesDetermine(c: Child, d: Child)
    requires c.name == d.name && c.seen.Observed? && d.seen.Observed? && OwnLines(c) == OwnLines(d)
    ensures c.seen.porcelain == d.seen.porcelain
  {
    var (p, q) := (c.seen.porcelain, d.seen.porcelain);
    PrefixedLines(c.name, Split(p, '\n'));
    PrefixedLines(d.name, Split(q, '\n'));
    if p != "" && q != "" {
      PrefixedIsInjective(c.name, Split(p, '\n'), Split(q, '\n'));
      JoinSplit(p, '\n');
      JoinSplit(q, '\n');
    }
  }

  lemma NamesApart(children: seq<Child>, k: nat)
    requires Distinct(NamesOf(children)) && 0 < k < |children|
    ensures children[k].name != children[0].name
  {
    assert NamesOf(children)[k] == children[k].name && NamesOf(children)[0] == children[0].name;
  }

  /** With equal flattened lines, a first child's own lines cannot reach into another child's. */
  lemma OwnLinesNoShorter(a: seq<Child>, b: seq<Child>)
    requires a != [] && b != [] && Tidy(a) && Tidy(b) && Distinct(NamesOf(a)) && a[0].name == b[0].name
    requires StatusLines(a) == StatusLines(b)
    ensures |OwnLines(a[0])| >= |OwnLines(b[0])|
  {
    var i := |OwnLines(a[0])|;
    if i < |OwnLines(b[0])| {
      OwnLinesBelong(b[0]);
      StatusLinesBelong(a[1..]);
      var line := StatusLines(a)[i];
      assert line == StatusLines(a[1..])[0] && line == OwnLines(b[0])[i];
      assert BelongsToSome(line, a[1..]);
      var k :| 0 <= k < |a| - 1 && Belongs(line, a[1..][k].name);
      NamesApart(a, k + 1);
      BelongsOnce(line, a[k + 1].name, b[0].name);
      assert false;
    }
  }

  lemma {:induction false} StatusLinesDetermine(a: seq<Child>, b: seq<Child>)
    requires Tidy(a) && Tidy(b) && AllObserved(a) && AllObserved(b)
    requires NamesOf(a) == NamesOf(b) && Distinct(NamesOf(a))
    requires StatusLines(a) == StatusLines(b)
    ensures forall i | 0 <= i < |a| :: a[i].seen.porcelain == b[i].seen.porcelain
  {
    if a != [] {
      FirstName(a);
      FirstName(b);
      OwnLinesNoShorter(a, b);
      OwnLinesNoShorter(b, a);
      var n := |OwnLines(a[0])|;
      assert OwnLines(a[0]) == StatusLines(a)[..n] && OwnLines(b[0]) == StatusLines(b)[..n];
      assert StatusLines(a[1..]) == StatusLines(a)[n..] && StatusLines(b[1..]) == StatusLines(b)[n..];
      OwnLinesDetermine(a[0], b[0]);
      StatusLinesDetermine(a[1..], b[1..]);
      assert forall i | 1 <= i < |a| :: a[i] == a[1..][i - 1] && b[i] == b[1..][i - 1];
    }
  }

  // ----- Head lines -----

  lemma HeadWordIsUnbroken(word: string)
    requires HeadWord(word)
    ensures ' ' !in word && '\n' !in word
  {
  }

  lemma HeadTextIsWord(head: Option<string>)
    requires TidyHead(head)
    ensures HeadWord(HeadText(head))
  {
  }

  lemma HeadTextDetermines(h: Option<string>, g: Option<string>)
    requires TidyHead(h) && TidyHead(g) && HeadText(h) == HeadText(g)
    ensures h == g
  {
    assert |"none"| == 4;
  }

  lemma NameWordTail(name: string, word: string, rest: seq<string>)
    ensures Join([name + (" " + word)] + rest, "\n") == name + (" " + (word + Tail(rest)))
  {
    var lines := [name + (" " + word)] + rest;
    JoinFirst(lines);
    assert lines[1..] == rest;
    assert name + (" " + word) + Tail(rest) == name + (" " + (word + Tail(rest)));
  }

  lemma HeadLinesFirst(children: seq<Child>)
    requires children != [] && children[0].seen.Observed?
    ensures Join(HeadLines(children), "\n")
         == children[0].name + (" " + (HeadText(children[0].seen.head) + Tail(HeadLines(children[1..]))))
  {
    NameWordTail(children[0].name, HeadText(children[0].seen.head), HeadLines(children[1..]));
  }

  lemma UnbrokenAfterName(name: string, word: string, rest: string, j: nat)
    requires HeadWord(word) && |name| <= j < |name| + 1 + |word|
    ensures (name + (" " + (word + rest)))[j] != '\n'
  {
    HeadWordIsUnbroken(word);
  }

  /** A head line that ends early ends inside the name, which then spells it. */
  lemma EarlyEndIsSpelled(name: string, word: string, a: seq<string>, x: string, h: string, b: seq<string>)
    requires HeadWord(word) && HeadWord(h) && b != [] && |x| + |h| < |name| + |word|
    requires name + (" " + (word + Tail(a))) == x + (" " + (h + Tail(b)))
    ensures SpellsHead(name)
  {
    var text := name + (" " + (word + Tail(a)));
    HeadEnds(x, h, Tail(b));
    if |x| + 1 + |h| >= |name| {
      UnbrokenAfterName(name, word, Tail(a), |x| + 1 + |h|);
    }
    PrefixSpells(name, text, |x|, |x| + 1 + |h|);
  }

  lemma HeadEnds(x: string, h: string, tail: string)
    requires tail != ""
    ensures var text := x + (" " + (h + tail));
            var j := |x| + 1 + |h|;
            j < |text| && text[|x|] == ' ' && text[j] == tail[0] && text[|x| + 1..j] == h
  {
  }

  lemma PrefixSpells(name: string, text: string, i: nat, j: nat)
    requires name <= text && i < j < |name| && SpellsHeadAt(text, i, j)
    ensures SpellsHead(name)
  {
    assert name[i + 1..j] == text[i + 1..j];
    assert SpellsHeadAt(name, i, j);
  }

  /** Plain names in front of the same joined head lines: the first line is the same. */
  lemma FirstHeadLine(name: string, word: string, a: seq<string>, x: string, h: string, b: seq<string>)
    requires !SpellsHead(name) && !SpellsHead(x) && HeadWord(word) && HeadWord(h)
    requires name + (" " + (word + Tail(a))) == x + (" " + (h + Tail(b)))
    ensures name == x && word == h && Tail(a) == Tail(b)
  {
    if b != [] && |x| + |h| < |name| + |word| {
      EarlyEndIsSpelled(name, word, a, x, h, b);
    }
    if a != [] && |name| + |word| < |x| + |h| {
      EarlyEndIsSpelled(x, h, b, name, word, a);
    }
    SameLengthSplits(name, word, Tail(a), x, h, Tail(b));
    HeadWordIsUnbroken(word);
    HeadWordIsUnbroken(h);
    LastMark(name, ' ', word, x, h);
  }

  lemma SameLengthSplits(name: string, word: string, s: string, x: string, h: string, t: string)
    requires name + (" " + (word + s)) == x + (" " + (h + t))
    requires |x| + |h| == |name| + |word| || (s == "" && t == "")
    ensures name + (" " + word) == x + (" " + h) && s == t
  {
    assert name + (" " + (word + s)) == (name + (" " + word)) + s;
    assert x + (" " + (h + t)) == (x + (" " + h)) + t;
    var text := (name + (" " + word)) + s;
    assert name + (" " + word) == text[..|name| + 1 + |word|] && s == text[|name| + 1 + |word|..];
    assert x + (" " + h) == text[..|x| + 1 + |h|] && t == text[|x| + 1 + |h|..];
  }

  lemma FirstName(children: seq<Child>)
    requires children != []
    ensures NamesOf(children)[0] == children[0].name && NamesOf(children[1..]) == NamesOf(children)[1..]
    ensures NamesOf(children) == [children[0].name] + NamesOf(children[1..])
    ensures Distinct(NamesOf(children)) ==> Distinct(NamesOf(children[1..]))
    ensures Plain(NamesOf(children)) ==> Plain(NamesOf(children[1..])) && !SpellsHead(children[0].name)
  {
    var (names, rest) := (NamesOf(children), NamesOf(children[1..]));
    assert names[0] == children[0].name && rest == names[1..];
    DistinctBehind(names);
    assert forall i | 0 <= i < |rest| :: rest[i] == names[i + 1];
  }

  lemma DistinctBehind(names: seq<string>)
    requires names != []
    ensures Distinct(names) ==> Distinct(names[1..])
  {
    assert forall i | 0 <= i < |names| - 1 :: names[1..][i] == names[i + 1];
  }

  lemma HeadTextHoldsABlank(children: seq<Child>)
    requires children != [] && AllObserved(children)
    ensures ' ' in Join(HeadLines(children), "\n")
  {
    HeadLinesFirst(children);
    assert Join(HeadLines(children), "\n")[|children[0].name|] == ' ';
  }

  lemma FirstHeadsAgree(a: seq<Child>, b: seq<Child>)
    requires a != [] && b != [] && TidyChild(a[0]) && TidyChild(b[0]) && a[0].seen.Observed? && b[0].seen.Observed?
    requires !SpellsHead(a[0].name) && !SpellsHead(b[0].name)
    requires Join(HeadLines(a), "\n") == Join(HeadLines(b), "\n")
    ensures a[0].name == b[0].name && a[0].seen.head == b[0].seen.head
    ensures Join(HeadLines(a[1..]), "\n") == Join(HeadLines(b[1..]), "\n")
  {
    var (c, d) := (a[0], b[0]);
    HeadLinesFirst(a);
    HeadLinesFirst(b);
    HeadTextIsWord(c.seen.head);
    HeadTextIsWord(d.seen.head);
    FirstHeadLine(c.name, HeadText(c.seen.head), HeadLines(a[1..]), d.name, HeadText(d.seen.head), HeadLines(b[1..]));
    HeadTextDetermines(c.seen.head, d.seen.head);
    TailDetermines(HeadLines(a[1..]), HeadLines(b[1..]));
  }

  /** Under plain names the joined head lines determine the names and every child's head. */
  lemma {:induction false} HeadLinesDetermine(a: seq<Child>, b: seq<Child>)
    requires Tidy(a) && Tidy(b) && AllObserved(a) && AllObserved(b) && Plain(NamesOf(a)) && Plain(NamesOf(b))
    requires Join(HeadLines(a), "\n") == Join(HeadLines(b), "\n")
    ensures NamesOf(a) == NamesOf(b) && HeadsOf(a) == HeadsOf(b)
    decreases |a|
  {
    if a != [] && b != [] {
      FirstName(a);
      FirstName(b);
      FirstHeadsAgree(a, b);
      SeenBehind(a);
      SeenBehind(b);
      HeadLinesDetermine(a[1..], b[1..]);
      FirstHead(a);
      FirstHead(b);
    } else if a != [] {
      HeadTextHoldsABlank(a);
    } else if b != [] {
      HeadTextHoldsABlank(b);
    }
  }

  function HeadsOf(children: seq<Child>): seq<Option<string>>
    requires AllObserved(children)
  {
    seq(|children|, i requires 0 <= i < |children| => children[i].seen.head)
  }

  lemma SeenBehind(children: seq<Child>)
    requires children != [] && Tidy(children) && AllObserved(children)
    ensures Tidy(children[1..]) && AllObserved(children[1..])
  {
  }

  lemma FirstHead(children: seq<Child>)
    requires children != [] && AllObserved(children)
    ensures HeadsOf(children) == [children[0].seen.head] + HeadsOf(children[1..])
  {
  }

  lemma HeadUnderName(name: string, h: Option<string>, a: seq<string>, g: Option<string>, b: seq<string>)
    requires TidyHead(h) && TidyHead(g)
    requires name + (" " + (HeadText(h) + Tail(a))) == name + (" " + (HeadText(g) + Tail(b)))
    ensures h == g && Tail(a) == Tail(b)
  {
    SamePrefix(name, " " + (HeadText(h) + Tail(a)), " " + (HeadText(g) + Tail(b)));
    SamePrefix(" ", HeadText(h) + Tail(a), HeadText(g) + Tail(b));
    HeadTextIsWord(h);
    HeadTextIsWord(g);
    HeadWordIsUnbroken(HeadText(h));
    HeadWordIsUnbroken(HeadText(g));
    UnbrokenThenTail(HeadText(h), a, HeadText(g), b);
    HeadTextDetermines(h, g);
  }

  lemma FirstHeadUnderName(a: seq<Child>, b: seq<Child>)
    requires a != [] && b != [] && TidyChild(a[0]) && TidyChild(b[0]) && a[0].seen.Observed? && b[0].seen.Observed?
    requires a[0].name == b[0].name && Join(HeadLines(a), "\n") == Join(HeadLines(b), "\n")
    ensures a[0].seen.head == b[0].seen.head && Join(HeadLines(a[1..]), "\n") == Join(HeadLines(b[1..]), "\n")
  {
    HeadLinesFirst(a);
    HeadLinesFirst(b);
    HeadUnderName(a[0].name, a[0].seen.head, HeadLines(a[1..]), b[0].seen.head, HeadLines(b[1..]));
    TailDetermines(HeadLines(a[1..]), HeadLines(b[1..]));
  }

  /** With the names known, any names at all, the joined head lines determine every child's head. */
  lemma {:induction false} HeadsDeterminedUnderNames(a: seq<Child>, b: seq<Child>)
    requires Tidy(a) && Tidy(b) && AllObserved(a) && AllObserved(b) && NamesOf(a) == NamesOf(b)
    requires Join(HeadLines(a), "\n") == Join(HeadLines(b), "\n")
    ensures HeadsOf(a) == HeadsOf(b)
    decreases |a|
  {
    assert |a| == |NamesOf(a)| == |NamesOf(b)| == |b|;
    if a != [] {
      FirstName(a);
      FirstName(b);
      FirstHeadUnderName(a, b);
      SeenBehind(a);
      SeenBehind(b);
      HeadsDeterminedUnderNames(a[1..], b[1..]);
      FirstHead(a);
      FirstHead(b);
    }
  }

  lemma SamePrefix(a: string, s: string, t: string)
    requires a + s == a + t
    ensures s == t
  {
    assert s == (a + s)[|a|..] && t == (a + t)[|a|..];
  }

  // ----- Trimming -----

  lemma OwnLinesEnd(c: Child)
    requires TidyChild(c) && OwnLines(c) != []
    ensures Last(OwnLines(c)) != "" && !IsWhitespace(Last(Last(OwnLines(c))))
  {
    var lines := Split(c.seen.porcelain, '\n');
    SplitEnd(c.seen.porcelain, '\n');
    LastPrefixed(c.name, lines);
    LastOfLine(c.name, Last(lines));
  }

  lemma LastPrefixed(name: string, lines: seq<string>)
    requires lines != []
    ensures Prefixed(name, lines) != [] && Last(Prefixed(name, lines)) == name + ("/" + Last(lines))
  {
    PrefixedLines(name, lines);
  }

  lemma LastOfLine(name: string, text: string)
    requires text != ""
    ensures Last(name + ("/" + text)) == Last(text)
  {
  }

  lemma {:induction false} StatusLinesEnd(children: seq<Child>)
    requires Tidy(children) && StatusLines(children) != []
    ensures Last(StatusLines(children)) != "" && !IsWhitespace(Last(Last(StatusLines(children))))
  {
    var (own, rest) := (OwnLines(children[0]), StatusLines(children[1..]));
    if own != [] {
      OwnLinesEnd(children[0]);
    }
    if rest != [] {
      StatusLinesEnd(children[1..]);
      assert Last(own + rest) == Last(rest);
    } else {
      assert own + rest == own;
    }
  }

  lemma {:induction false} TrimStartBefore(name: string, text: string)
    requires text != "" && !IsWhitespace(text[0])
    ensures TrimStart(name + text) == TrimStart(name) + text
  {
    if name == "" {
      assert name + text == text;
    } else {
      assert (name + text)[1..] == name[1..] + text;
      TrimStartBefore(name[1..], text);
    }
  }

  lemma {:induction false} TrimStartAddsNothing(s: string, c: char)
    requires c !in s
    ensures c !in TrimStart(s)
  {
    if s != "" {
      TrimStartAddsNothing(s[1..], c);
    }
  }

  lemma LineTrims(name: string, text: string)
    requires text != "" && !IsWhitespace(text[0]) && !IsWhitespace(Last(text))
    ensures Trim(name + text) == TrimStart(name) + text
  {
    TrimStartBefore(name, text);
    assert Last(TrimStart(name) + text) == Last(text);
  }

  lemma FirstStatusLine(children: seq<Child>) returns (k: nat, text: string)
    requires Tidy(children) && StatusLines(children) != []
    ensures k < |children| && '\n' !in text && StatusLines(children)[0] == children[k].name + ("/" + text)
  {
    StatusLinesBelong(children);
    var line := StatusLines(children)[0];
    assert BelongsToSome(line, children);
    k :| 0 <= k < |children| && Belongs(line, children[k].name);
    text :| '\n' !in text && line == children[k].name + ("/" + text);
  }

  /** Of the joined status, trimming removes leading blanks of the first line's name and nothing else. */
  lemma StatusText(children: seq<Child>) returns (k: nat, text: string)
    requires Tidy(children) && StatusLines(children) != []
    ensures k < |children| && Join(StatusLines(children), "\n") == children[k].name + ("/" + text)
    ensures Trim(Join(StatusLines(children), "\n")) == TrimStart(children[k].name) + ("/" + text)
  {
    var first: string;
    k, first := FirstStatusLine(children);
    text := first + Tail(StatusLines(children)[1..]);
    NameTextTail(children[k].name, first, StatusLines(children));
    StatusLinesEnd(children);
    JoinLast(StatusLines(children), "\n");
    JoinedTrims(children[k].name, text, Join(StatusLines(children), "\n"));
  }

  lemma JoinedTrims(name: string, text: string, joined: string)
    requires joined == name + ("/" + text) && !IsWhitespace(Last(joined))
    ensures Trim(joined) == TrimStart(name) + ("/" + text)
  {
    assert Last(joined) == Last("/" + text);
    LineTrims(name, "/" + text);
  }

  /** With the names known, the trimmed status still tells the lines. */
  lemma TrimmedStatusDetermines(a: seq<Child>, b: seq<Child>)
    requires Tidy(a) && Tidy(b) && NamesOf(a) == NamesOf(b) && Distinct(NamesOf(a))
    requires Trim(Join(StatusLines(a), "\n")) == Trim(Join(StatusLines(b), "\n"))
    ensures StatusLines(a) == StatusLines(b)
  {
    StatusLinesAreNamed(a);
    StatusLinesAreNamed(b);
    if StatusLines(a) != [] && StatusLines(b) != [] {
      var i, x := StatusText(a);
      var j, y := StatusText(b);
      TrimStartAddsNothing(a[i].name, '/');
      TrimStartAddsNothing(b[j].name, '/');
      FirstMark(TrimStart(a[i].name), '/', x, TrimStart(b[j].name), y);
      assert NamesOf(a)[i] == a[i].name && NamesOf(a)[j] == b[j].name;
      NamedLinesDetermined(StatusLines(a), StatusLines(b));
    } else if StatusLines(a) != [] {
      var i, x := StatusText(a);
    } else if StatusLines(b) != [] {
      var j, y := StatusText(b);
    }
  }

  lemma CombineObserved(children: seq<Child>)
    ensures Combine(children).Observed? <==> AllObserved(children)
    ensures AllObserved(children) ==> FirstFailing(children) == |children|
  {
    assert children[..|children|] == children;
    if AllObserved(children) {
      FirstFailingIs(children, |children|);
    }
  }

  lemma CombinedFrom(children: seq<Child>, status: seq<string>, heads: seq<string>)
    requires AllObserved(children) && StatusLines(children) == status && HeadLines(children) == heads
    ensures Combine(children) == Observed(Trim(Join(status, "\n")), Some(Join(heads, "\n")))
  {
    CombineObserved(children);
  }

  /** The flattened workspaces count as unchanged exactly when every child was seen and is the same. */
  predicate JudgedRight(base: seq<Child>, cur: seq<Child>) {
    ClassifyChange(Combine(base), Combine(cur)).TreeUnchanged? <==> AllObserved(base) && AllObserved(cur) && base == cur
  }

  /** Equal names, heads and flattened texts leave no room for a difference. */
  lemma SameNamesAndHeads(base: seq<Child>, cur: seq<Child>)
    requires Tidy(base) && Tidy(cur) && AllObserved(base) && AllObserved(cur)
    requires NamesOf(base) == NamesOf(cur) && Distinct(NamesOf(base))
    requires HeadsOf(base) == HeadsOf(cur)
    requires Trim(Join(StatusLines(base), "\n")) == Trim(Join(StatusLines(cur), "\n"))
    ensures base == cur
  {
    assert |base| == |NamesOf(base)| == |NamesOf(cur)| == |cur|;
    TrimmedStatusDetermines(base, cur);
    StatusLinesDetermine(base, cur);
    assert forall i | 0 <= i < |base| :: base[i].name == NamesOf(base)[i] == NamesOf(cur)[i] == cur[i].name;
    assert forall i | 0 <= i < |base| :: base[i].seen.head == HeadsOf(base)[i] == HeadsOf(cur)[i] == cur[i].seen.head;
    assert forall i | 0 <= i < |base| :: base[i] == cur[i];
  }

  /** Under plain names the verdict on two flattened workspaces is the verdict on their children, one by one. */
  lemma FlatteningKeepsTheVerdict(base: seq<Child>, cur: seq<Child>)
    requires Tidy(base) && Tidy(cur) && Distinct(NamesOf(base)) && Plain(NamesOf(base)) && Plain(NamesOf(cur))
    ensures ClassifyChange(Combine(base), Combine(cur)).NotObservable? <==> !AllObserved(base) || !AllObserved(cur)
    ensures JudgedRight(base, cur)
  {
    CombineObserved(base);
    CombineObserved(cur);
    if ClassifyChange(Combine(base), Combine(cur)).TreeUnchanged? {
      HeadLinesDetermine(base, cur);
      SameNamesAndHeads(base, cur);
    }
  }

  /** While the children stay the same, their names need not be plain. */
  lemma SameNamesKeepTheVerdict(base: seq<Child>, cur: seq<Child>)
    requires Tidy(base) && Tidy(cur) && NamesOf(base) == NamesOf(cur) && Distinct(NamesOf(base))
    ensures JudgedRight(base, cur)
  {
    CombineObserved(base);
    CombineObserved(cur);
    if ClassifyChange(Combine(base), Combine(cur)).TreeUnchanged? {
      HeadsDeterminedUnderNames(base, cur);
      SameNamesAndHeads(base, cur);
    }
  }

  /** An unobservable workspace names the first child that could not be read, within the cap. */
  lemma FirstFailureIsNamed(children: seq<Child>, i: nat)
    requires i < |children| && AllObserved(children[..i]) && children[i].seen.Unobservable?
    ensures Combine(children).Unobservable?
    ensures var whole := |children[i].name| + 2 + |children[i].seen.reason|;
            |Combine(children).reason| == if whole <= 200 then whole else 200
    ensures Combine(children).reason <= children[i].name + (": " + children[i].seen.reason)
    ensures |children[i].name| + 2 <= REASON_CAP ==> children[i].name + ": " <= Combine(children).reason
  {
    FirstFailingIs(children, i);
  }

  // ----- The flattened text, spelled out -----

  predicate HeadSpelled(c: Child, line: string)
    requires c.seen.Observed?
  {
    line == if c.seen.head.Some? then c.name + (" " + c.seen.head.value) else c.name + " none"
  }

  /** The lines are those of the child's status, each behind its name and a slash; a clean child has none. */
  ghost predicate StatusSpelled(c: Child, lines: seq<string>)
    requires c.seen.Observed?
  {
    if c.seen.porcelain == "" then lines == []
    else exists parts :: SplitsInto(c.seen.porcelain, parts) && PutBehind(c.name, parts, lines)
  }

  predicate SplitsInto(text: string, parts: seq<string>) {
    parts != [] && text == Join(parts, "\n") && forall j | 0 <= j < |parts| :: '\n' !in parts[j]
  }

  predicate PutBehind(name: string, parts: seq<string>, lines: seq<string>) {
    |lines| == |parts| && forall j | 0 <= j < |parts| :: lines[j] == name + ("/" + parts[j])
  }

  lemma {:induction false} SplitOfJoin(parts: seq<string>)
    requires parts != [] && forall j | 0 <= j < |parts| :: '\n' !in parts[j]
    ensures Split(Join(parts, "\n"), '\n') == parts
  {
    SplitPrefix(parts[0], '\n', []);
    if |parts| > 1 {
      SplitPrefix(parts[0], '\n', Join(parts[1..], "\n"));
      SplitOfJoin(parts[1..]);
      assert parts == [parts[0]] + parts[1..];
    }
  }

  lemma {:induction false} PrefixedIs(name: string, parts: seq<string>, lines: seq<string>)
    requires PutBehind(name, parts, lines)
    ensures Prefixed(name, parts) == lines
  {
    if parts != [] {
      PrefixedIs(name, parts[1..], lines[1..]);
      assert lines == [lines[0]] + lines[1..];
    }
  }

  lemma OwnLinesSpelled(c: Child, lines: seq<string>)
    requires c.seen.Observed? && StatusSpelled(c, lines)
    ensures OwnLines(c) == lines
  {
    if c.seen.porcelain != "" {
      var parts :| SplitsInto(c.seen.porcelain, parts) && PutBehind(c.name, parts, lines);
      SplitOfJoin(parts);
      PrefixedIs(c.name, parts, lines);
    }
  }

  /** `heads` and `blocks` spell what each child contributes. */
  ghost predicate Spelled(children: seq<Child>, heads: seq<string>, blocks: seq<seq<string>>) {
    && |heads| == |blocks| == |children|
    && forall i | 0 <= i < |children| ::
         children[i].seen.Observed? && HeadSpelled(children[i], heads[i]) && StatusSpelled(children[i], blocks[i])
  }

  lemma {:induction false} LinesSpelled(children: seq<Child>, heads: seq<string>, blocks: seq<seq<string>>)
    requires Spelled(children, heads, blocks)
    ensures HeadLines(children) == heads && StatusLines(children) == Concat(blocks)
  {
    if children != [] {
      OwnLinesSpelled(children[0], blocks[0]);
      assert " " + "none" == " none";
      assert OwnHead(children[0]) == [heads[0]];
      LinesSpelled(children[1..], heads[1..], blocks[1..]);
      assert heads == [heads[0]] + heads[1..];
    }
  }

  /** When every child was seen, the status is all their status lines under one another, trimmed, and the
      head one line per child with its commit or `none`. */
  lemma CombinedTextExactly(children: seq<Child>, heads: seq<string>, blocks: seq<seq<string>>)
    requires Spelled(children, heads, blocks)
    ensures Combine(children) == Observed(Trim(Join(Concat(blocks), "\n")), Some(Join(heads, "\n")))
  {
    LinesSpelled(children, heads, blocks);
    FirstFailingIs(children, |children|);
  }
}
