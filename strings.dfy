/**
 * The handful of Python `str` operations the generator relies on:
 * `strip()`, `lstrip(c)`, `split(c)` and `split(c)[0]` (everything before
 * the first separator). Strings are sequences of code points.
 */
module Strings {

  /**
   * Python's `str.isspace` on one code point, which decides what
   * `str.strip()` removes: tab to carriage return, the four information
   * separators, space, next line, no-break space, ogham space mark, the
   * spaces U+2000 to U+200A, the line and paragraph separators, narrow
   * no-break space, medium mathematical space and ideographic space.
   */
  predicate IsSpace(c: char)
  {
    || ('\t' <= c <= '\r')
    || ('\U{1C}' <= c <= ' ')
    || c == '\U{85}' || c == '\U{A0}' || c == '\U{1680}'
    || ('\U{2000}' <= c <= '\U{200A}')
    || c == '\U{2028}' || c == '\U{2029}' || c == '\U{202F}' || c == '\U{205F}' || c == '\U{3000}'
  }

  /** `s.lstrip()`. */
  function TrimLeft(s: string): (r: string)
    ensures |r| <= |s|
  {
    if s != [] && IsSpace(s[0]) then TrimLeft(s[1..]) else s
  }

  /** `s.rstrip()`. */
  function TrimRight(s: string): (r: string)
    ensures |r| <= |s|
  {
    if s != [] && IsSpace(s[|s| - 1]) then TrimRight(s[..|s| - 1]) else s
  }

  /** `s.strip()`. */
  function Trim(s: string): (r: string)
    ensures |r| <= |s|
  {
    TrimRight(TrimLeft(s))
  }

  /**
   * `l` is what is left of `s` once a run of leading white space is cut off,
   * and `l` does not start with white space.
   */
  ghost predicate LeftStripped(s: string, l: string)
  {
    && |l| <= |s| && l == s[|s| - |l|..]
    && (forall k :: 0 <= k < |s| - |l| ==> IsSpace(s[k]))
    && (l != [] ==> !IsSpace(l[0]))
  }

  /**
   * `r` is what is left of `s` once a run of trailing white space is cut off,
   * and `r` does not end with white space.
   */
  ghost predicate RightStripped(s: string, r: string)
  {
    && |r| <= |s| && r == s[..|r|]
    && (forall k :: |r| <= k < |s| ==> IsSpace(s[k]))
    && (r != [] ==> !IsSpace(r[|r| - 1]))
  }

  /** `lstrip()` drops the leading white space and nothing else. */
  lemma {:induction false} TrimLeftSpec(s: string)
    ensures LeftStripped(s, TrimLeft(s))
  {
    if s != [] && IsSpace(s[0]) {
      TrimLeftSpec(s[1..]);
      LeftStrippedCons(s, TrimLeft(s[1..]));
    }
  }

  /** Cutting one more leading white-space character off keeps `LeftStripped`. */
  lemma {:induction false} LeftStrippedCons(s: string, l: string)
    requires s != [] && IsSpace(s[0]) && LeftStripped(s[1..], l)
    ensures LeftStripped(s, l)
  {
    assert s[1..][|s| - 1 - |l|..] == s[|s| - |l|..];
    forall k | 0 <= k < |s| - |l|
      ensures IsSpace(s[k])
    {
      if k > 0 {
        assert s[k] == s[1..][k - 1];
      }
    }
  }

  /** `rstrip()` drops the trailing white space and nothing else. */
  lemma {:induction false} TrimRightSpec(s: string)
    ensures RightStripped(s, TrimRight(s))
  {
    if s != [] && IsSpace(s[|s| - 1]) {
      TrimRightSpec(s[..|s| - 1]);
      RightStrippedSnoc(s, TrimRight(s[..|s| - 1]));
    }
  }

  /** Cutting one more trailing white-space character off keeps `RightStripped`. */
  lemma {:induction false} RightStrippedSnoc(s: string, r: string)
    requires s != [] && IsSpace(s[|s| - 1]) && RightStripped(s[..|s| - 1], r)
    ensures RightStripped(s, r)
  {
    assert s[..|s| - 1][..|r|] == s[..|r|];
    forall k | |r| <= k < |s|
      ensures IsSpace(s[k])
    {
      if k < |s| - 1 {
        assert s[k] == s[..|s| - 1][k];
      }
    }
  }

  /**
   * `strip()` keeps the piece of `s` between its leading and its trailing
   * white space: the result is the slice of `s` that starts where the
   * leading white space ends, only white space lies around it, it neither
   * starts nor ends with white space, and a string that is already trimmed
   * is left alone.
   */
  lemma TrimSpec(s: string)
    ensures var r := Trim(s);
      && |r| <= |s|
      && (r != [] ==> !IsSpace(r[0]) && !IsSpace(r[|r| - 1]))
      && (var i := |s| - |TrimLeft(s)|;
          && i + |r| <= |s| && r == s[i..i + |r|]
          && (forall k :: 0 <= k < i ==> IsSpace(s[k]))
          && (forall k :: i + |r| <= k < |s| ==> IsSpace(s[k])))
      && ((s == [] || (!IsSpace(s[0]) && !IsSpace(s[|s| - 1]))) ==> r == s)
  {
    TrimFacts(s, TrimLeft(s), Trim(s));
  }

  /** A character that `s` does not hold is not in `strip()` of it either. */
  lemma {:induction false} TrimAvoids(s: string, c: char)
    requires c !in s
    ensures c !in Trim(s)
  {
    var l := TrimLeft(s);
    var r := Trim(s);
    TrimFacts(s, l, r);
    var i := |s| - |l|;
    forall m | 0 <= m < |r|
      ensures r[m] != c
    {
      assert r[m] == s[i + m];
    }
  }

  /** `TrimSpec`, stated about the two one-sided strip results by name. */
  lemma {:induction false} TrimFacts(s: string, l: string, r: string)
    requires l == TrimLeft(s) && r == TrimRight(l)
    ensures r != [] ==> !IsSpace(r[0]) && !IsSpace(r[|r| - 1])
    ensures var i := |s| - |l|;
      && i + |r| <= |s| && r == s[i..i + |r|]
      && (forall k :: 0 <= k < i ==> IsSpace(s[k]))
      && (forall k :: i + |r| <= k < |s| ==> IsSpace(s[k]))
    ensures (s == [] || (!IsSpace(s[0]) && !IsSpace(s[|s| - 1]))) ==> r == s
  {
    TrimLeftSpec(s);
    TrimRightSpec(l);
    var i := |s| - |l|;
    assert r == s[i..i + |r|];
    if r != [] {
      assert r[0] == l[0];
    }
    forall k | i + |r| <= k < |s|
      ensures IsSpace(s[k])
    {
      assert s[k] == l[k - i];
    }
    if s != [] && !IsSpace(s[0]) && !IsSpace(s[|s| - 1]) {
      assert i == 0;
      assert l == s;
      assert |r| == |s|;
    }
  }

  /** `s.lstrip(c)`. */
  function LStrip(s: string, c: char): (r: string)
    ensures |r| <= |s|
  {
    if s != [] && s[0] == c then LStrip(s[1..], c) else s
  }

  /** `lstrip(c)` drops every leading copy of `c` and nothing else. */
  lemma {:induction false} LStripSpec(s: string, c: char)
    ensures var r := LStrip(s, c);
      && r == s[|s| - |r|..]
      && (forall k :: 0 <= k < |s| - |r| ==> s[k] == c)
      && (r != [] ==> r[0] != c)
  {
    if s != [] && s[0] == c {
      LStripSpec(s[1..], c);
    }
  }

  /**
   * `s.split(c)[0]` (and `s.split(c, 1)[0]`): the longest prefix of `s`
   * that does not contain `c`.
   */
  function BeforeFirst(s: string, c: char): (r: string)
    ensures |r| <= |s| && r == s[..|r|]
    ensures c !in r
    ensures |r| < |s| ==> s[|r|] == c
  {
    if s == [] || s[0] == c then [] else [s[0]] + BeforeFirst(s[1..], c)
  }

  /** `sep.join(parts)`. */
  function Join(parts: seq<string>, sep: char): string
  {
    if parts == [] then []
    else if |parts| == 1 then parts[0]
    else parts[0] + [sep] + Join(parts[1..], sep)
  }

  /** `s.split(sep)` for a one-character separator: never empty, pieces free of `sep`. */
  function Split(s: string, sep: char): (r: seq<string>)
    ensures |r| >= 1
    ensures forall i :: 0 <= i < |r| ==> sep !in r[i]
  {
    if s == [] then [[]]
    else
      var rest := Split(s[1..], sep);
      if s[0] == sep then [[]] + rest else [[s[0]] + rest[0]] + rest[1..]
  }

  /** Joining the pieces of a split with the same separator gives back the string. */
  lemma {:induction false} JoinSplit(s: string, sep: char)
    ensures Join(Split(s, sep), sep) == s
  {
    if s != [] {
      var rest := Split(s[1..], sep);
      JoinSplit(s[1..], sep);
      if s[0] == sep {
        assert ([[]] + rest)[1..] == rest;
      } else {
        var r := [[s[0]] + rest[0]] + rest[1..];
        if |rest| > 1 {
          assert r[1..] == rest[1..];
          assert Join(rest, sep) == rest[0] + [sep] + Join(rest[1..], sep);
          assert Join(r, sep) == [s[0]] + rest[0] + [sep] + Join(rest[1..], sep);
        }
      }
    }
  }

  /** Splitting what was joined gives back the pieces, when no piece holds the separator. */
  lemma {:induction false} SplitJoin(parts: seq<string>, sep: char)
    requires |parts| >= 1
    requires forall i :: 0 <= i < |parts| ==> sep !in parts[i]
    ensures Split(Join(parts, sep), sep) == parts
  {
    if |parts| == 1 {
      SplitFree(parts[0], sep);
    } else {
      SplitJoin(parts[1..], sep);
      SplitAt(parts[0], Join(parts[1..], sep), sep);
      assert [parts[0]] + parts[1..] == parts;
    }
  }

  /** A string without the separator splits into itself alone. */
  lemma {:induction false} SplitFree(s: string, sep: char)
    requires sep !in s
    ensures Split(s, sep) == [s]
  {
    if s != [] {
      assert s[0] != sep && sep !in s[1..];
      SplitFree(s[1..], sep);
      assert [s[0]] + s[1..] == s;
    }
  }

  /** The first separator ends the first piece. */
  lemma {:induction false} SplitAt(a: string, b: string, sep: char)
    requires sep !in a
    ensures Split(a + [sep] + b, sep) == [a] + Split(b, sep)
  {
    var s := a + [sep] + b;
    if a == [] {
      assert s[1..] == b;
    } else {
      assert s[1..] == a[1..] + [sep] + b;
      SplitAt(a[1..], b, sep);
      assert [a[0]] + a[1..] == a;
    }
  }

  /** The first separator ends the text `BeforeFirst` keeps. */
  lemma {:induction false} BeforeFirstAt(a: string, b: string, c: char)
    requires c !in a
    ensures BeforeFirst(a + [c] + b, c) == a
  {
    var s := a + [c] + b;
    if a != [] {
      assert s[1..] == a[1..] + [c] + b;
      BeforeFirstAt(a[1..], b, c);
      assert [a[0]] + a[1..] == a;
    }
  }

  /** Without a separator, `BeforeFirst` keeps everything. */
  lemma BeforeFirstFree(s: string, c: char)
    requires c !in s
    ensures BeforeFirst(s, c) == s
  {
  }

  /** A join starts with the first character of its first piece, if there is one. */
  lemma JoinHead(parts: seq<string>, sep: char)
    requires |parts| >= 1 && parts[0] != []
    ensures Join(parts, sep) != [] && Join(parts, sep)[0] == parts[0][0]
  {
  }
}
