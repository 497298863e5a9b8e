/**
 * The string operations the scraper relies on: Python's `str.strip()`,
 * `str.lower()`, string comparison (as used by `sorted`) and `str.join`.
 */
module Text {

  /** Python's `str.isspace()` for a single character. */
  predicate IsSpace(c: char) {
    || ('\t' <= c <= '\r')
    || ('\U{1c}' <= c <= '\U{1f}')
    || c == ' '
    || c == '\U{85}'
    || c == '\U{a0}'
    || c == '\U{1680}'
    || ('\U{2000}' <= c <= '\U{200a}')
    || c == '\U{2028}'
    || c == '\U{2029}'
    || c == '\U{202f}'
    || c == '\U{205f}'
    || c == '\U{3000}'
  }

  /** Drops leading whitespace. */
  function TrimLeft(s: string): string {
    if |s| > 0 && IsSpace(s[0]) then TrimLeft(s[1..]) else s
  }

  /** Drops trailing whitespace. */
  function TrimRight(s: string): string {
    if |s| > 0 && IsSpace(s[|s| - 1]) then TrimRight(s[..|s| - 1]) else s
  }

  /** The result of `TrimLeft` is a suffix of `s`, and only spaces were dropped. */
  lemma {:induction false} TrimLeftDropsSpaces(s: string)
    ensures |TrimLeft(s)| <= |s| && TrimLeft(s) == s[|s| - |TrimLeft(s)|..]
    ensures forall i :: 0 <= i < |s| - |TrimLeft(s)| ==> IsSpace(s[i])
    ensures TrimLeft(s) == [] || !IsSpace(TrimLeft(s)[0])
  {
    if |s| > 0 && IsSpace(s[0]) {
      TrimLeftDropsSpaces(s[1..]);
      forall i | 1 <= i < |s| - |TrimLeft(s)| ensures IsSpace(s[i]) {
        assert s[1..][i - 1] == s[i];
      }
    }
  }

  /** The result of `TrimRight` is a prefix of `s`, and only spaces were dropped. */
  lemma {:induction false} TrimRightDropsSpaces(s: string)
    ensures |TrimRight(s)| <= |s| && TrimRight(s) == s[..|TrimRight(s)|]
    ensures forall i :: |TrimRight(s)| <= i < |s| ==> IsSpace(s[i])
    ensures TrimRight(s) == [] || !IsSpace(TrimRight(s)[|TrimRight(s)| - 1])
  {
    if |s| > 0 && IsSpace(s[|s| - 1]) {
      TrimRightDropsSpaces(s[..|s| - 1]);
      forall i | |TrimRight(s)| <= i < |s| - 1 ensures IsSpace(s[i]) {
        assert s[..|s| - 1][i] == s[i];
      }
    }
  }

  /** Python's `s.strip()`: the result neither starts nor ends with whitespace. */
  function Trim(s: string): (r: string)
    ensures |r| <= |s|
    ensures r == [] || (!IsSpace(r[0]) && !IsSpace(r[|r| - 1]))
  {
    TrimLeftDropsSpaces(s);
    TrimRightDropsSpaces(TrimLeft(s));
    TrimRight(TrimLeft(s))
  }

  /** A string with no whitespace at either end is left alone by `strip`. */
  lemma TrimUnpadded(s: string)
    requires s == [] || (!IsSpace(s[0]) && !IsSpace(s[|s| - 1]))
    ensures Trim(s) == s
  {
    assert TrimLeft(s) == s;
    if s != [] {
      assert TrimRight(s) == s;
    }
  }

  /** `strip` is idempotent. */
  lemma TrimIdempotent(s: string)
    ensures Trim(Trim(s)) == Trim(s)
  {
    TrimUnpadded(Trim(s));
  }

  /**
   * `strip` removes exactly the whitespace margins: the result is the
   * slice `s[i..j]`, everything before `i` and from `j` on is whitespace.
   */
  lemma TrimIsSlice(s: string) returns (i: nat, j: nat)
    ensures i <= j <= |s| && Trim(s) == s[i..j]
    ensures forall k :: 0 <= k < i ==> IsSpace(s[k])
    ensures forall k :: j <= k < |s| ==> IsSpace(s[k])
  {
    var l := TrimLeft(s);
    TrimLeftDropsSpaces(s);
    TrimRightDropsSpaces(l);
    var r := TrimRight(l);
    i := |s| - |l|;
    j := i + |r|;
    assert l == s[i..];
    assert r == l[..|r|];
    assert l[..|r|] == s[i..j];
    forall k | j <= k < |s| ensures IsSpace(s[k]) {
      assert s[k] == l[k - i];
    }
  }

  /** Python's `str.lower()` on one character (ASCII letters only). */
  function LowerChar(c: char): char {
    if 'A' <= c <= 'Z' then (c as int + 32) as char else c
  }

  /** Python's `s.lower()`: every character lowered in place, nothing added or removed. */
  function Lower(s: string): (r: string)
    ensures |r| == |s|
    ensures forall i :: 0 <= i < |s| ==> r[i] == LowerChar(s[i])
  {
    if s == [] then [] else [LowerChar(s[0])] + Lower(s[1..])
  }

  /** Lowering twice is lowering once. */
  lemma LowerIdempotent(s: string)
    ensures Lower(Lower(s)) == Lower(s)
  {
    assert forall i :: 0 <= i < |s| ==> Lower(Lower(s))[i] == Lower(s)[i];
  }

  /** A lowered string holds no upper-case ASCII letter. */
  lemma LowerHasNoUpper(s: string)
    ensures forall i :: 0 <= i < |s| ==> !('A' <= Lower(s)[i] <= 'Z')
  {
  }

  /** A string without upper-case ASCII letters is its own lower case. */
  lemma LowerKeepsLower(s: string)
    requires forall i :: 0 <= i < |s| ==> !('A' <= s[i] <= 'Z')
    ensures Lower(s) == s
  {
  }

  /**
   * Python's `a <= b` on strings: lexicographic order on code points,
   * a proper prefix coming first.
   */
  predicate Le(a: string, b: string) {
    |a| == 0 || (|b| > 0 && (a[0] < b[0] || (a[0] == b[0] && Le(a[1..], b[1..]))))
  }

  lemma {:induction false} LeReflexive(a: string)
    ensures Le(a, a)
  {
    if |a| > 0 { LeReflexive(a[1..]); }
  }

  lemma {:induction false} LeTotal(a: string, b: string)
    ensures Le(a, b) || Le(b, a)
  {
    if |a| > 0 && |b| > 0 && a[0] == b[0] { LeTotal(a[1..], b[1..]); }
  }

  lemma {:induction false} LeAntisymmetric(a: string, b: string)
    requires Le(a, b) && Le(b, a)
    ensures a == b
  {
    if |a| > 0 {
      LeAntisymmetric(a[1..], b[1..]);
      assert a == [a[0]] + a[1..] && b == [b[0]] + b[1..];
    }
  }

  lemma {:induction false} LeTransitive(a: string, b: string, c: string)
    requires Le(a, b) && Le(b, c)
    ensures Le(a, c)
  {
    if |a| > 0 && a[0] == b[0] && b[0] == c[0] { LeTransitive(a[1..], b[1..], c[1..]); }
  }

  /** Python's `sep.join(parts)`. */
  function Join(sep: string, parts: seq<string>): string {
    if |parts| == 0 then ""
    else if |parts| == 1 then parts[0]
    else parts[0] + sep + Join(sep, parts[1..])
  }

  lemma JoinCons(sep: string, a: string, rest: seq<string>)
    requires |rest| > 0
    ensures Join(sep, [a] + rest) == a + sep + Join(sep, rest)
  {
    assert ([a] + rest)[1..] == rest;
  }

  /** What `sep.join` writes before the part that follows `a`. */
  function JoinBefore(sep: string, a: seq<string>): string {
    if a == [] then "" else Join(sep, a) + sep
  }

  /** What `sep.join` writes after the part that precedes `b`. */
  function JoinAfter(sep: string, b: seq<string>): string {
    if b == [] then "" else sep + Join(sep, b)
  }

  lemma JoinBeforeCons(sep: string, a: seq<string>)
    requires a != []
    ensures JoinBefore(sep, a) == a[0] + sep + JoinBefore(sep, a[1..])
  {
    if a[1..] != [] {
      assert a == [a[0]] + a[1..];
      JoinCons(sep, a[0], a[1..]);
    }
  }

  lemma JoinFirst(sep: string, y: string, b: seq<string>)
    ensures Join(sep, [y] + b) == y + JoinAfter(sep, b)
  {
    if b != [] { JoinCons(sep, y, b); }
  }

  /** Joining around one part: the text before and after it does not depend on it. */
  lemma {:induction false} JoinAround(sep: string, a: seq<string>, y: string, b: seq<string>)
    ensures Join(sep, a + [y] + b) == JoinBefore(sep, a) + y + JoinAfter(sep, b)
  {
    if a == [] {
      assert a + [y] + b == [y] + b;
      JoinFirst(sep, y, b);
    } else {
      var rest := a[1..] + [y] + b;
      var pre, post := JoinBefore(sep, a[1..]), JoinAfter(sep, b);
      calc {
        Join(sep, a + [y] + b);
        { assert a + [y] + b == [a[0]] + rest; JoinCons(sep, a[0], rest); }
        a[0] + sep + Join(sep, rest);
        { JoinAround(sep, a[1..], y, b); }
        a[0] + sep + (pre + y + post);
        { Reassociate(a[0] + sep, pre, y, post); }
        (a[0] + sep + pre) + y + post;
        { JoinBeforeCons(sep, a); }
        JoinBefore(sep, a) + y + post;
      }
    }
  }

  lemma Reassociate(p: string, q: string, y: string, r: string)
    ensures p + (q + y + r) == (p + q) + y + r
  {
  }

  /** Different texts in the same surroundings give different strings. */
  lemma Framed(pre: string, x: string, y: string, post: string)
    requires x != y
    ensures pre + x + post != pre + y + post
  {
    if |x| == |y| {
      assert (pre + x + post)[|pre|..|pre| + |x|] == x;
      assert (pre + y + post)[|pre|..|pre| + |y|] == y;
    } else {
      assert |pre + x + post| != |pre + y + post|;
    }
  }
}
