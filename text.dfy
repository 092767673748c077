/**
 * The Python `str` built-ins the triage core relies on (`in`, `split`,
 * `join`, `replace`, `strip`, `str(int)`), defined on `string` with the
 * properties the core needs of them.
 */
module Text {

  /** `s.startswith(p)` */
  predicate StartsWith(s: string, p: string)
  {
    |p| <= |s| && s[..|p|] == p
  }

  /** Python's `p in s`: `p` occurs in `s` as a contiguous block. */
  predicate Contains(s: string, p: string)
    ensures StartsWith(s, p) ==> Contains(s, p)
    ensures Contains(s, p) ==> |p| <= |s|
    decreases |s|
  {
    StartsWith(s, p) || (|s| > 0 && Contains(s[1..], p))
  }

  /** `p` occurs in `s` starting at index `i`. */
  ghost predicate OccursAt(s: string, p: string, i: int)
  {
    0 <= i && i + |p| <= |s| && s[i..i + |p|] == p
  }

  /** `p` placed after `a` occurs at the index `|a|`. */
  lemma OccursBetween(a: string, p: string, b: string)
    ensures OccursAt(a + p + b, p, |a|)
  {
    assert (a + p + b)[|a|..|a| + |p|] == p;
  }

  /** `Contains` is the index-based reading of `in`. */
  lemma {:induction false} ContainsIff(s: string, p: string)
    ensures Contains(s, p) <==> exists i :: OccursAt(s, p, i)
    decreases |s|
  {
    if StartsWith(s, p) {
      assert OccursAt(s, p, 0);
    } else if |s| > 0 {
      ContainsIff(s[1..], p);
      forall i | OccursAt(s[1..], p, i) ensures OccursAt(s, p, i + 1) {
        assert s[i + 1..i + 1 + |p|] == s[1..][i..i + |p|];
      }
      forall i | OccursAt(s, p, i) ensures OccursAt(s[1..], p, i - 1) {
        assert s[1..][i - 1..i - 1 + |p|] == s[i..i + |p|];
      }
    }
  }

  /** An occurrence that ends before the last character survives dropping it. */
  lemma ContainsDropLast(s: string, c: char, p: string)
    requires |p| > 0 && c !in p
    ensures Contains(s + [c], p) ==> Contains(s, p)
  {
    ContainsIff(s + [c], p);
    ContainsIff(s, p);
    if Contains(s + [c], p) {
      var i :| OccursAt(s + [c], p, i);
      assert p[|p| - 1] in p;
      assert (s + [c])[i..i + |p|] == s[i..i + |p|];
      assert OccursAt(s, p, i);
    }
  }

  /** `s.count(c)` for a single character `c`. */
  function Count(s: string, c: char): nat
  {
    if |s| == 0 then 0 else (if s[0] == c then 1 else 0) + Count(s[1..], c)
  }

  lemma {:induction false} CountAtLeastOne(s: string, c: char, j: int)
    requires 0 <= j < |s| && s[j] == c
    ensures Count(s, c) >= 1
  {
    if j > 0 {
      CountAtLeastOne(s[1..], c, j - 1);
    }
  }

  /** Two distinct positions holding `c` make `c` occur at least twice. */
  lemma {:induction false} CountAtLeastTwo(s: string, c: char, i: int, j: int)
    requires 0 <= i < j < |s| && s[i] == c && s[j] == c
    ensures Count(s, c) >= 2
  {
    if i == 0 {
      CountAtLeastOne(s[1..], c, j - 1);
    } else {
      CountAtLeastTwo(s[1..], c, i - 1, j - 1);
    }
  }

  /**
   * `s.split(sep)` for a one-character separator: the maximal `sep`-free
   * segments, one more than there are separators.
   */
  function Split(s: string, sep: char): (parts: seq<string>)
    ensures |parts| == Count(s, sep) + 1
    ensures forall k :: 0 <= k < |parts| ==> sep !in parts[k]
    decreases |s|
  {
    if |s| == 0 then [""]
    else
      var rest := Split(s[1..], sep);
      if s[0] == sep then [""] + rest
      else [[s[0]] + rest[0]] + rest[1..]
  }

  /** `sep.join(parts)` for a one-character separator. */
  function Join(parts: seq<string>, sep: char): (r: string)
    ensures |parts| == 0 ==> r == []
    ensures |parts| > 0 ==> StartsWith(r, parts[0])
  {
    if |parts| == 0 then ""
    else if |parts| == 1 then parts[0]
    else parts[0] + [sep] + Join(parts[1..], sep)
  }

  /** Joining the segments back together restores the string. */
  lemma {:induction false} JoinSplit(s: string, sep: char)
    ensures Join(Split(s, sep), sep) == s
    decreases |s|
  {
    if |s| > 0 {
      JoinSplit(s[1..], sep);
      var rest := Split(s[1..], sep);
      var parts := Split(s, sep);
      assert s == [s[0]] + s[1..];
      if s[0] == sep {
        assert parts == [""] + rest;
        assert Join(parts, sep) == [sep] + Join(rest, sep) by {
          assert parts[1..] == rest;
        }
      } else if |rest| == 1 {
        assert parts == [[s[0]] + rest[0]];
      } else {
        assert parts == [[s[0]] + rest[0]] + rest[1..];
        assert Join(parts, sep) == [s[0]] + (rest[0] + [sep] + Join(rest[1..], sep)) by {
          assert parts[1..] == rest[1..];
        }
        assert Join(rest, sep) == rest[0] + [sep] + Join(rest[1..], sep);
      }
    }
  }

  /** A string without `sep` splits into itself alone. */
  lemma {:induction false} SplitFree(s: string, sep: char)
    requires sep !in s
    ensures Split(s, sep) == [s]
    decreases |s|
  {
    if |s| > 0 {
      SplitFree(s[1..], sep);
      assert s == [s[0]] + s[1..];
    }
  }

  /** Splitting at the first separator peels off the first segment. */
  lemma {:induction false} SplitAtFirst(a: string, sep: char, b: string)
    requires sep !in a
    ensures Split(a + [sep] + b, sep) == [a] + Split(b, sep)
    decreases |a|
  {
    if |a| == 0 {
      assert (a + [sep] + b)[1..] == b;
    } else {
      assert (a + [sep] + b)[1..] == a[1..] + [sep] + b;
      SplitAtFirst(a[1..], sep, b);
      assert a == [a[0]] + a[1..];
    }
  }

  /** Splitting what was joined gives back the segments, when none holds the separator. */
  lemma {:induction false} SplitJoin(parts: seq<string>, sep: char)
    requires |parts| >= 1
    requires forall k :: 0 <= k < |parts| ==> sep !in parts[k]
    ensures Split(Join(parts, sep), sep) == parts
    decreases |parts|
  {
    if |parts| == 1 {
      SplitFree(parts[0], sep);
    } else {
      SplitJoin(parts[1..], sep);
      SplitAtFirst(parts[0], sep, Join(parts[1..], sep));
      assert parts == [parts[0]] + parts[1..];
    }
  }

  /**
   * `s.replace(pat, '')`: scanning left to right, every non-overlapping
   * occurrence of `pat` is deleted (not only a leading one).
   */
  function RemoveAll(s: string, pat: string): (r: string)
    requires |pat| > 0
    ensures |r| <= |s|
    decreases |s|
  {
    if |s| == 0 then ""
    else if StartsWith(s, pat) then RemoveAll(s[|pat|..], pat)
    else [s[0]] + RemoveAll(s[1..], pat)
  }

  /**
   * An occurrence of `pat` that starts after `x` is deleted and the scan
   * goes on after it, whatever follows: removal does not stop at the first
   * occurrence.
   */
  lemma {:induction false} RemoveAllAt(x: string, pat: string, y: string)
    requires |pat| > 0 && !Contains(x + pat[..|pat| - 1], pat)
    ensures RemoveAll(x + pat + y, pat) == x + RemoveAll(y, pat)
    decreases |x|
  {
    var s := x + pat + y;
    if |x| == 0 {
      assert s[..|pat|] == pat;
      assert s[|pat|..] == y;
    } else {
      var w := x + pat[..|pat| - 1];
      assert !StartsWith(s, pat) by {
        assert s[..|pat|] == w[..|pat|];
      }
      assert !Contains(x[1..] + pat[..|pat| - 1], pat) by {
        assert w[1..] == x[1..] + pat[..|pat| - 1];
      }
      assert s[1..] == x[1..] + pat + y;
      RemoveAllAt(x[1..], pat, y);
      assert RemoveAll(s, pat) == [s[0]] + RemoveAll(s[1..], pat);
      assert x == [x[0]] + x[1..];
    }
  }

  /** Removal leaves the string as it was exactly when the pattern does not occur. */
  lemma {:induction false} RemoveAllFixedIff(s: string, pat: string)
    requires |pat| > 0
    ensures RemoveAll(s, pat) == s <==> !Contains(s, pat)
    ensures Contains(s, pat) ==> |RemoveAll(s, pat)| <= |s| - |pat|
    decreases |s|
  {
    if |s| > 0 && !StartsWith(s, pat) {
      RemoveAllFixedIff(s[1..], pat);
    }
  }

  /** The characters Python's `str.isspace()` accepts; `str.strip()` with no argument removes these. */
  const Whitespace: set<char> := {
    '\t', '\n', '\U{B}', '\U{C}', '\r', '\U{1C}', '\U{1D}', '\U{1E}', '\U{1F}', ' ',
    '\U{85}', '\U{A0}', '\U{1680}',
    '\U{2000}', '\U{2001}', '\U{2002}', '\U{2003}', '\U{2004}', '\U{2005}',
    '\U{2006}', '\U{2007}', '\U{2008}', '\U{2009}', '\U{200A}',
    '\U{2028}', '\U{2029}', '\U{202F}', '\U{205F}', '\U{3000}'
  }

  /** How many leading characters of `s` lie in `cs`. */
  function LeadIn(s: string, cs: set<char>): (n: nat)
    ensures n <= |s|
    ensures forall k :: 0 <= k < n ==> s[k] in cs
    ensures n < |s| ==> s[n] !in cs
    decreases |s|
  {
    if |s| > 0 && s[0] in cs then 1 + LeadIn(s[1..], cs) else 0
  }

  /** How many trailing characters of `s` lie in `cs`. */
  function TrailIn(s: string, cs: set<char>): (n: nat)
    ensures n <= |s|
    ensures forall k :: |s| - n <= k < |s| ==> s[k] in cs
    ensures n < |s| ==> s[|s| - 1 - n] !in cs
    decreases |s|
  {
    if |s| > 0 && s[|s| - 1] in cs then 1 + TrailIn(s[..|s| - 1], cs) else 0
  }

  /** `r` is the block of `s` at `lo`, and everything around it is in `cs`. */
  ghost predicate StrippedAt(s: string, cs: set<char>, lo: int, r: string)
  {
    && 0 <= lo && lo + |r| <= |s| && r == s[lo..lo + |r|]
    && (forall k :: 0 <= k < lo ==> s[k] in cs)
    && (forall k :: lo + |r| <= k < |s| ==> s[k] in cs)
  }

  /** `s.strip(chars)`: the longest runs of characters from `cs` are cut from both ends. */
  function StripChars(s: string, cs: set<char>): (r: string)
    ensures exists lo :: StrippedAt(s, cs, lo, r)
    ensures r == [] || (r[0] !in cs && r[|r| - 1] !in cs)
  {
    var lo := LeadIn(s, cs);
    var t := s[lo..];
    var r := t[..|t| - TrailIn(t, cs)];
    assert StrippedAt(s, cs, lo, r);
    r
  }

  /** The two postconditions of `StripChars` determine its result. */
  lemma StripCharsUnique(s: string, cs: set<char>, lo: int, r: string)
    requires StrippedAt(s, cs, lo, r)
    requires r == [] || (r[0] !in cs && r[|r| - 1] !in cs)
    ensures StripChars(s, cs) == r
  {
    var r' := StripChars(s, cs);
    var lo' :| StrippedAt(s, cs, lo', r');
    if r == [] {
      assert forall k :: 0 <= k < |s| ==> s[k] in cs;
    } else {
      assert s[lo] == r[0];
      assert r' != [] ==> s[lo'] == r'[0];
      assert r' != [] ==> s[lo' + |r'| - 1] == r'[|r'| - 1];
      assert s[lo + |r| - 1] == r[|r| - 1];
    }
  }

  /** Padding from `cs` around a block whose ends are not in `cs` is stripped exactly. */
  lemma StripPadded(pre: string, body: string, post: string, cs: set<char>)
    requires forall k :: 0 <= k < |pre| ==> pre[k] in cs
    requires forall k :: 0 <= k < |post| ==> post[k] in cs
    requires body == [] || (body[0] !in cs && body[|body| - 1] !in cs)
    ensures StripChars(pre + body + post, cs) == body
  {
    var s := pre + body + post;
    assert s[|pre|..|pre| + |body|] == body;
    assert StrippedAt(s, cs, |pre|, body);
    StripCharsUnique(s, cs, |pre|, body);
  }

  /** What `strip` keeps is a block of the string. */
  lemma StripCharsContained(s: string, cs: set<char>)
    ensures Contains(s, StripChars(s, cs))
  {
    var r := StripChars(s, cs);
    var lo :| StrippedAt(s, cs, lo, r);
    assert OccursAt(s, r, lo);
    ContainsIff(s, r);
  }

  /** `s.strip()`: a block of `s` that neither starts nor ends with whitespace. */
  function Strip(s: string): (r: string)
    ensures Contains(s, r)
    ensures r == [] || (r[0] !in Whitespace && r[|r| - 1] !in Whitespace)
  {
    StripCharsContained(s, Whitespace);
    StripChars(s, Whitespace)
  }

  predicate IsDigits(s: string)
  {
    forall k :: 0 <= k < |s| ==> '0' <= s[k] <= '9'
  }

  function DigitChar(d: nat): char
    requires d < 10
  {
    ('0' as int + d) as char
  }

  /** `str(n)` for `n >= 0`: its decimal digits, with no leading zero. */
  function NatToString(n: nat): (r: string)
    ensures |r| >= 1 && IsDigits(r)
    ensures r[0] == '0' <==> n == 0
  {
    if n < 10 then [DigitChar(n)] else NatToString(n / 10) + [DigitChar(n % 10)]
  }

  /** `int(s)` on a string of decimal digits. */
  function ParseNat(s: string): nat
    requires IsDigits(s)
  {
    if |s| == 0 then 0 else 10 * ParseNat(s[..|s| - 1]) + (s[|s| - 1] as int - '0' as int)
  }

  /** Reading the digits back gives the number. */
  lemma {:induction false} ParseNatToString(n: nat)
    ensures ParseNat(NatToString(n)) == n
  {
    if n >= 10 {
      ParseNatToString(n / 10);
      var r := NatToString(n);
      assert r[..|r| - 1] == NatToString(n / 10);
    }
  }

  lemma AppendAssoc<T>(a: seq<T>, b: seq<T>, c: seq<T>)
    ensures a + (b + c) == (a + b) + c
  {
  }
}
