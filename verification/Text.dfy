/** Trimming text the way Rust's `str::trim` does, and the order of texts. */
module Text {
  predicate IsWhitespace(c: char) {
    || '\t' <= c <= '\r' || c == ' ' || c == '\U{85}' || c == '\U{A0}' || c == '\U{1680}'
    || '\U{2000}' <= c <= '\U{200A}' || c == '\U{2028}' || c == '\U{2029}' || c == '\U{202F}'
    || c == '\U{205F}' || c == '\U{3000}'
  }

  predicate Trimmed(s: string) {
    s == "" || (!IsWhitespace(s[0]) && !IsWhitespace(s[|s| - 1]))
  }

  function TrimStart(s: string): (t: string)
    ensures t == "" || !IsWhitespace(t[0])
    ensures s == "" || !IsWhitespace(s[0]) ==> t == s
  {
    if s != "" && IsWhitespace(s[0]) then TrimStart(s[1..]) else s
  }

  function TrimEnd(s: string): (t: string)
    ensures t == "" || !IsWhitespace(t[|t| - 1])
    ensures t <= s
    ensures s == "" || !IsWhitespace(s[|s| - 1]) ==> t == s
  {
    if s != "" && IsWhitespace(s[|s| - 1]) then TrimEnd(s[..|s| - 1]) else s
  }

  function Trim(s: string): (t: string)
    ensures Trimmed(t)
    ensures Trimmed(s) ==> t == s
  {
    TrimEnd(TrimStart(s))
  }

  predicate AllWhite(s: string) {
    forall i | 0 <= i < |s| :: IsWhitespace(s[i])
  }

  /** The code points of white space. */
  lemma WhitespaceExactly(c: char)
    ensures IsWhitespace(c) <==>
            || c as int in {9, 10, 11, 12, 13, 32, 0x85, 0xA0, 0x1680, 0x2028, 0x2029, 0x202F, 0x205F, 0x3000}
            || 0x2000 <= c as int <= 0x200A
  {
  }

  lemma {:induction false} TrimStartSplits(s: string) returns (a: string)
    ensures AllWhite(a) && s == a + TrimStart(s)
  {
    a := "";
    if s != "" && IsWhitespace(s[0]) {
      var rest := TrimStartSplits(s[1..]);
      a := [s[0]] + rest;
      assert s == [s[0]] + s[1..];
    }
  }

  lemma {:induction false} TrimEndSplits(s: string) returns (b: string)
    ensures AllWhite(b) && s == TrimEnd(s) + b
    decreases |s|
  {
    b := "";
    if s != "" && IsWhitespace(s[|s| - 1]) {
      var rest := TrimEndSplits(s[..|s| - 1]);
      b := rest + [s[|s| - 1]];
      assert s == s[..|s| - 1] + [s[|s| - 1]];
    }
  }

  /** Trimming takes white space off both ends and nothing else. */
  lemma TrimSplits(s: string) returns (a: string, b: string)
    ensures AllWhite(a) && AllWhite(b) && s == a + (Trim(s) + b) && Trimmed(Trim(s))
  {
    a := TrimStartSplits(s);
    b := TrimEndSplits(TrimStart(s));
  }

  lemma {:induction false} TrimStartSkips(a: string, core: string)
    requires AllWhite(a)
    ensures TrimStart(a + core) == TrimStart(core)
  {
    if a == "" {
      assert a + core == core;
    } else {
      assert (a + core)[1..] == a[1..] + core;
      TrimStartSkips(a[1..], core);
    }
  }

  lemma {:induction false} TrimEndSkips(core: string, b: string)
    requires AllWhite(b)
    ensures TrimEnd(core + b) == TrimEnd(core)
    decreases |b|
  {
    if b == "" {
      assert core + b == core;
    } else {
      var s := core + b;
      assert s[..|s| - 1] == core + b[..|b| - 1];
      TrimEndSkips(core, b[..|b| - 1]);
    }
  }

  /** Whatever white space surrounds a trimmed text, trimming gives the text back. */
  lemma TrimGivesCore(a: string, core: string, b: string)
    requires AllWhite(a) && AllWhite(b) && Trimmed(core)
    ensures Trim(a + (core + b)) == core
  {
    TrimStartSkips(a, core + b);
    if core == "" {
      assert core + b == b;
      TrimStartSkips(b, "");
      assert b + "" == b;
    } else {
      TrimEndSkips(core, b);
    }
  }

  /** The texts are one trimmed text with white space around it. */
  ghost predicate AgreeInside(s: string, t: string) {
    exists core, a, b, c, d :: SurroundedBy(s, a, core, b) && SurroundedBy(t, c, core, d)
  }

  predicate SurroundedBy(s: string, a: string, core: string, b: string) {
    AllWhite(a) && AllWhite(b) && Trimmed(core) && s == a + (core + b)
  }

  lemma SameTrimExactly(s: string, t: string)
    ensures Trim(s) == Trim(t) <==> AgreeInside(s, t)
  {
    var a, b := TrimSplits(s);
    var c, d := TrimSplits(t);
    assert SurroundedBy(s, a, Trim(s), b) && SurroundedBy(t, c, Trim(t), d);
    if core, e, f, g, h :| SurroundedBy(s, e, core, f) && SurroundedBy(t, g, core, h) {
      TrimGivesCore(e, core, f);
      TrimGivesCore(g, core, h);
    }
  }

  /** A text trims to nothing exactly when it is all white space. */
  lemma TrimsToNothing(s: string)
    ensures Trim(s) == "" <==> AllWhite(s)
  {
    var a, b := TrimSplits(s);
    if AllWhite(s) {
      TrimGivesCore(s, "", "");
      assert s + ("" + "") == s;
    }
  }

  /** Text order, character by character. */
  predicate TextLess(a: string, b: string)
    decreases |a|
  {
    b != "" && (a == "" || a[0] < b[0] || (a[0] == b[0] && TextLess(a[1..], b[1..])))
  }
}
