/** Joining and splitting sequences. */
module Sequences {
  /** The pieces with `sep` between neighbours. */
  function Join<T>(parts: seq<seq<T>>, sep: seq<T>): seq<T> {
    if parts == [] then []
    else if |parts| == 1 then parts[0]
    else parts[0] + (sep + Join(parts[1..], sep))
  }

  function Concat<T>(parts: seq<seq<T>>): seq<T> {
    if parts == [] then [] else parts[0] + Concat(parts[1..])
  }

  lemma Associate<T>(a: seq<T>, b: seq<T>, c: seq<T>)
    ensures a + (b + c) == (a + b) + c
  {
  }

  lemma {:induction false} ConcatAppend<T>(a: seq<seq<T>>, b: seq<seq<T>>)
    ensures Concat(a + b) == Concat(a) + Concat(b)
  {
    if a == [] {
      assert a + b == b;
    } else {
      assert (a + b)[1..] == a[1..] + b;
      ConcatAppend(a[1..], b);
    }
  }

  /** The index of the first `x`, or the length when there is none. */
  function IndexOf<T(==)>(s: seq<T>, x: T): (i: nat)
    ensures i <= |s| && x !in s[..i] && (i < |s| ==> s[i] == x)
  {
    if s == [] || s[0] == x then 0
    else
      var i := 1 + IndexOf(s[1..], x);
      assert s[..i] == [s[0]] + s[1..][..i - 1];
      i
  }

  lemma IndexOfIs<T>(s: seq<T>, x: T, i: nat)
    requires i <= |s| && x !in s[..i] && (i < |s| ==> s[i] == x)
    ensures IndexOf(s, x) == i
  {
    var j := IndexOf(s, x);
    assert forall k | 0 <= k < i :: s[k] == s[..i][k] != x;
    assert forall k | 0 <= k < j :: s[k] == s[..j][k] != x;
  }

  lemma IndexOfMember<T>(s: seq<T>, x: T)
    ensures IndexOf(s, x) < |s| <==> x in s
  {
    assert s[..|s|] == s;
  }

  lemma SplitAt<T>(s: seq<T>, i: nat)
    requires i < |s|
    ensures s == s[..i] + ([s[i]] + s[i + 1..])
  {
  }

  /** The pieces between occurrences of `sep`; there is always at least one. */
  function Split<T(==)>(s: seq<T>, sep: T): (parts: seq<seq<T>>)
    ensures parts != [] && (forall i | 0 <= i < |parts| :: sep !in parts[i])
  {
    if s == [] then [[]]
    else
      var rest := Split(s[1..], sep);
      if s[0] == sep then [[]] + rest else [[s[0]] + rest[0]] + rest[1..]
  }

  lemma {:induction false} JoinSplit<T>(s: seq<T>, sep: T)
    ensures Join(Split(s, sep), [sep]) == s
  {
    if s != [] {
      var rest := Split(s[1..], sep);
      JoinSplit(s[1..], sep);
      if s[0] == sep {
        assert ([[]] + rest)[1..] == rest;
      } else if |rest| > 1 {
        assert ([[s[0]] + rest[0]] + rest[1..])[1..] == rest[1..];
      }
      assert s == [s[0]] + s[1..];
    }
  }

  lemma {:induction false} SplitPrefix<T>(a: seq<T>, sep: T, rest: seq<T>)
    requires sep !in a
    ensures Split(a, sep) == [a]
    ensures Split(a + ([sep] + rest), sep) == [a] + Split(rest, sep)
  {
    var s := a + ([sep] + rest);
    if a == [] {
      assert s == [sep] + rest && s[1..] == rest;
    } else {
      assert s[1..] == a[1..] + ([sep] + rest);
      SplitPrefix(a[1..], sep, rest);
      assert [a[0]] + a[1..] == a;
    }
  }

  /** The text in front of the first `mark`, and the text behind it, are determined. */
  lemma FirstMark<T>(a: seq<T>, mark: T, b: seq<T>, c: seq<T>, d: seq<T>)
    requires mark !in a && mark !in c && a + ([mark] + b) == c + ([mark] + d)
    ensures a == c && b == d
  {
    var s := a + ([mark] + b);
    assert s[|a|] == mark && s[|c|] == mark;
    assert forall i | 0 <= i < |a| :: s[i] == a[i];
    assert forall i | 0 <= i < |c| :: s[i] == c[i];
    assert |a| == |c|;
    assert a == s[..|a|] && c == s[..|c|];
    assert b == s[|a| + 1..] && d == s[|c| + 1..];
  }

  /** The same around the last `mark`. */
  lemma LastMark<T>(a: seq<T>, mark: T, b: seq<T>, c: seq<T>, d: seq<T>)
    requires mark !in b && mark !in d && a + ([mark] + b) == c + ([mark] + d)
    ensures a == c && b == d
  {
    var s := a + ([mark] + b);
    assert s[|a|] == mark && s[|c|] == mark;
    assert forall i | |a| < i < |s| :: s[i] == b[i - |a| - 1];
    assert forall i | |c| < i < |s| :: s[i] == d[i - |c| - 1];
    assert |a| == |c|;
    assert a == s[..|a|] && c == s[..|c|];
    assert b == s[|a| + 1..] && d == s[|c| + 1..];
  }

  function Last<T>(s: seq<T>): T
    requires s != []
  {
    s[|s| - 1]
  }

  lemma {:induction false} SplitEnd<T>(s: seq<T>, sep: T)
    requires s != [] && Last(s) != sep
    ensures Last(Split(s, sep)) != [] && Last(Last(Split(s, sep))) == Last(s)
  {
    if |s| > 1 {
      SplitEnd(s[1..], sep);
    } else {
      assert s[1..] == [];
    }
  }

  lemma {:induction false} JoinLast<T>(parts: seq<seq<T>>, sep: seq<T>)
    requires parts != [] && Last(parts) != []
    ensures Join(parts, sep) != [] && Last(Join(parts, sep)) == Last(Last(parts))
    decreases |parts|
  {
    if |parts| > 1 {
      assert Last(parts[1..]) == Last(parts);
      JoinLast(parts[1..], sep);
    }
  }
}
