/**
 * Python string operations the tool relies on, with Python's own semantics:
 * `str.replace` (every non-overlapping occurrence, scanning left to right),
 * substring search, `str.lower` on ASCII letters, `str.split` on one
 * separator and decimal formatting of indices.
 */
module Text {
  import opened Wrappers

  predicate OccursAt(s: string, sub: string, i: nat)
  {
    i + |sub| <= |s| && s[i..i + |sub|] == sub
  }

  /** Python's `sub in s`. */
  predicate Contains(s: string, sub: string)
  {
    exists i :: 0 <= i <= |s| && OccursAt(s, sub, i)
  }

  predicate StartsWith(s: string, prefix: string)
  {
    |prefix| <= |s| && s[..|prefix|] == prefix
  }

  /** Python's `s.replace(pat, rep)`. */
  function Replace(s: string, pat: string, rep: string): string
    decreases |s|
  {
    if pat == [] then
      (if s == [] then rep else rep + [s[0]] + Replace(s[1..], pat, rep))
    else if |s| < |pat| then s
    else if s[..|pat|] == pat then rep + Replace(s[|pat|..], pat, rep)
    else [s[0]] + Replace(s[1..], pat, rep)
  }

  /** Replacing a pattern that does not occur leaves the string as it is. */
  lemma {:induction false} ReplaceAbsent(s: string, pat: string, rep: string)
    requires pat != [] && !Contains(s, pat)
    ensures Replace(s, pat, rep) == s
    decreases |s|
  {
    if |s| >= |pat| {
      assert !OccursAt(s, pat, 0);
      assert s[..|pat|] != pat;
      forall i | 0 <= i <= |s[1..]| ensures !OccursAt(s[1..], pat, i) {
        if i + |pat| <= |s[1..]| {
          assert s[1..][i..i + |pat|] == s[i + 1..i + 1 + |pat|];
          assert !OccursAt(s, pat, i + 1);
        }
      }
      ReplaceAbsent(s[1..], pat, rep);
    }
  }

  /** No occurrence of `pat` in `s` means none in any suffix of `s` either. */
  lemma AbsentFromSuffix(s: string, pat: string, k: nat)
    requires k <= |s| && !Contains(s, pat)
    ensures !Contains(s[k..], pat)
  {
    forall i | 0 <= i <= |s[k..]| ensures !OccursAt(s[k..], pat, i) {
      if i + |pat| <= |s[k..]| {
        assert s[k..][i..i + |pat|] == s[i + k..i + k + |pat|];
        assert !OccursAt(s, pat, i + k);
      }
    }
  }

  /** Replacing by a pattern of the same length keeps the length. */
  lemma {:induction false} ReplaceLength(s: string, pat: string, rep: string)
    requires pat != [] && |rep| == |pat|
    ensures |Replace(s, pat, rep)| == |s|
    decreases |s|
  {
    if |s| < |pat| {
    } else if s[..|pat|] == pat {
      ReplaceLength(s[|pat|..], pat, rep);
    } else {
      ReplaceLength(s[1..], pat, rep);
    }
  }

  /** When pattern and replacement start alike, replacing keeps the first character. */
  lemma ReplaceHead(s: string, pat: string, rep: string)
    requires pat != [] && rep != [] && pat[0] == rep[0] && s != []
    ensures Replace(s, pat, rep) != [] && Replace(s, pat, rep)[0] == s[0]
  {
  }

  /**
   * With a three-character pattern and replacement that start alike,
   * replacing keeps the first character, and the second one unless the
   * string starts with the pattern.
   */
  lemma ReplaceSecond(t: string, pat: string, rep: string)
    requires |pat| == 3 && |rep| == 3 && pat[0] == rep[0] && |t| >= 2
    ensures var f := Replace(t, pat, rep);
      && |f| >= 2 && f[0] == t[0]
      && f[1] == (if |t| >= 3 && t[..3] == pat then rep[1] else t[1])
  {
    if |t| >= 3 && t[..3] != pat {
      ReplaceHead(t[1..], pat, rep);
    }
  }

  /** A string holding the pattern holds the replacement afterwards. */
  lemma {:induction false} ReplaceHit(s: string, pat: string, rep: string)
    requires pat != [] && Contains(s, pat)
    ensures Contains(Replace(s, pat, rep), rep)
    decreases |s|
  {
    var i :| 0 <= i <= |s| && OccursAt(s, pat, i);
    var r := Replace(s, pat, rep);
    if s[..|pat|] == pat {
      assert r == rep + Replace(s[|pat|..], pat, rep);
      assert OccursAt(r, rep, 0);
    } else {
      assert i != 0;
      assert s[1..][i - 1..i - 1 + |pat|] == s[i..i + |pat|];
      assert OccursAt(s[1..], pat, i - 1);
      ReplaceHit(s[1..], pat, rep);
      var t := Replace(s[1..], pat, rep);
      var j :| 0 <= j <= |t| && OccursAt(t, rep, j);
      assert r == [s[0]] + t;
      assert r[j + 1..j + 1 + |rep|] == t[j..j + |rep|];
      assert OccursAt(r, rep, j + 1);
    }
  }

  /** Deleting a pattern never lengthens a string, and shortens one that holds it. */
  lemma {:induction false} ReplaceDeletes(s: string, pat: string)
    requires pat != []
    ensures |Replace(s, pat, [])| <= |s|
    ensures Contains(s, pat) ==> |Replace(s, pat, [])| < |s|
    decreases |s|
  {
    if |s| < |pat| {
      assert !Contains(s, pat);
    } else if s[..|pat|] == pat {
      ReplaceDeletes(s[|pat|..], pat);
    } else {
      ReplaceDeletes(s[1..], pat);
      if Contains(s, pat) {
        var i :| 0 <= i <= |s| && OccursAt(s, pat, i);
        assert i != 0;
        assert s[1..][i - 1..i - 1 + |pat|] == s[i..i + |pat|];
        assert OccursAt(s[1..], pat, i - 1);
      }
    }
  }

  /**
   * Swapping a three-character token `pat` for `rep` of the form `x y x`
   * (same first character, different second one) and back gives the
   * original string, provided it did not hold `rep` to begin with.
   */
  lemma {:induction false} ReplaceBack(s: string, pat: string, rep: string)
    requires |pat| == 3 && |rep| == 3 && pat[0] == rep[0] && rep[0] != rep[1]
    requires !Contains(s, rep)
    ensures Replace(Replace(s, pat, rep), rep, pat) == s
    decreases |s|
  {
    if |s| < 3 {
    } else if s[..3] == pat {
      var t := s[3..];
      AbsentFromSuffix(s, rep, 3);
      ReplaceBack(t, pat, rep);
      var f := Replace(t, pat, rep);
      assert Replace(s, pat, rep) == rep + f;
      assert (rep + f)[..3] == rep && (rep + f)[3..] == f;
      assert s == pat + t;
    } else {
      var t := s[1..];
      AbsentFromSuffix(s, rep, 1);
      ReplaceBack(t, pat, rep);
      var f := Replace(t, pat, rep);
      ReplaceLength(t, pat, rep);
      var g := [s[0]] + f;
      assert Replace(s, pat, rep) == g;
      ReplaceSecond(t, pat, rep);
      assert !OccursAt(s, rep, 0);
      assert g[..3] != rep by {
        if |t| >= 3 && t[..3] == pat {
          assert g[1] == rep[0];
        } else {
          assert g[..3] == s[..3];
        }
      }
      assert g[1..] == f;
      assert s == [s[0]] + t;
    }
  }

  /** A string with no occurrence of character `c`. */
  predicate Free(s: string, c: char)
  {
    forall k :: 0 <= k < |s| ==> s[k] != c
  }

  lemma FreeHasNoOccurrence(s: string, pat: string)
    requires pat != [] && Free(s, pat[0])
    ensures !Contains(s, pat)
  {
    forall i | 0 <= i <= |s| ensures !OccursAt(s, pat, i) {
      if i + |pat| <= |s| {
        assert s[i..i + |pat|][0] == s[i];
        assert s[i] != pat[0];
      }
    }
  }

  /** Python's `s.lower()`, restricted to ASCII letters. */
  function Lower(s: string): (r: string)
    ensures |r| == |s|
    ensures forall k :: 0 <= k < |s| ==>
      r[k] == (if 'A' <= s[k] <= 'Z' then (s[k] as int + 32) as char else s[k])
  {
    if s == [] then []
    else [if 'A' <= s[0] <= 'Z' then (s[0] as int + 32) as char else s[0]] + Lower(s[1..])
  }

  /** First position of character `c` in `s`. */
  function IndexOf(s: string, c: char): (r: Option<nat>)
    ensures r.None? <==> Free(s, c)
    ensures r.Some? ==> r.value < |s| && s[r.value] == c && Free(s[..r.value], c)
  {
    if s == [] then None
    else if s[0] == c then Some(0)
    else match IndexOf(s[1..], c)
      case None => None
      case Some(k) => Some(k + 1)
  }

  /**
   * Python's `s.split(c, 1)` unpacked into two names: raises ValueError when
   * the separator is missing.
   */
  function SplitOnce(s: string, c: char): (r: Result<(string, string)>)
    ensures r.Err? <==> Free(s, c)
    ensures r.Ok? ==> r.value.0 + [c] + r.value.1 == s && Free(r.value.0, c)
  {
    match IndexOf(s, c)
    case None => Err(ValueError)
    case Some(k) =>
      assert s[..k] + [c] + s[k + 1..] == s;
      Ok((s[..k], s[k + 1..]))
  }

  /** Last position of character `c` in `s`. */
  function LastIndexOf(s: string, c: char): (r: Option<nat>)
    ensures r.None? <==> Free(s, c)
    ensures r.Some? ==> r.value < |s| && s[r.value] == c && Free(s[r.value + 1..], c)
    decreases |s|
  {
    if s == [] then None
    else if s[|s| - 1] == c then Some(|s| - 1)
    else
      var front := s[..|s| - 1];
      var k := LastIndexOf(front, c);
      assert k.Some? ==> s[k.value + 1..] == front[k.value + 1..] + [s[|s| - 1]];
      k
  }

  /** Python's `s.split(c)[-1]`: what follows the last `c`. */
  function AfterLast(s: string, c: char): (r: string)
    ensures Free(r, c)
    ensures |r| <= |s| && r == s[|s| - |r|..]
    ensures |r| < |s| ==> s[|s| - |r| - 1] == c
  {
    match LastIndexOf(s, c)
    case None => s
    case Some(k) => s[k + 1..]
  }

  /** Python's `s.split(c)[0]`: what precedes the first `c`. */
  function BeforeFirst(s: string, c: char): (r: string)
    ensures Free(r, c) && StartsWith(s, r)
    ensures |r| < |s| ==> s[|r|] == c
  {
    match IndexOf(s, c)
    case None => s
    case Some(k) => s[..k]
  }

  /** What follows the last `c` of `p + [c] + t`, when `t` holds no `c`, is `t`. */
  lemma AfterLastOf(p: string, c: char, t: string)
    requires Free(t, c)
    ensures AfterLast(p + [c] + t, c) == t
  {
    var s := p + [c] + t;
    assert s[|p|] == c;
    assert s[|p| + 1..] == t;
  }

  /** What precedes the first `c` of `a + [c] + b`, when `a` holds no `c`, is `a`. */
  lemma BeforeFirstOf(a: string, c: char, b: string)
    requires Free(a, c)
    ensures BeforeFirst(a + [c] + b, c) == a
    ensures SplitOnce(a + [c] + b, c) == Ok((a, b))
  {
    var s := a + [c] + b;
    assert s[|a|] == c;
    assert s[..|a|] == a && s[|a| + 1..] == b;
  }

  /** A string lacking any one character of a pattern does not hold the pattern. */
  lemma LacksPatternChar(s: string, pat: string, k: nat)
    requires k < |pat| && Free(s, pat[k])
    ensures !Contains(s, pat)
  {
    forall i | 0 <= i <= |s| ensures !OccursAt(s, pat, i) {
      if i + |pat| <= |s| {
        assert s[i..i + |pat|][k] == s[i + k];
      }
    }
  }

  predicate IsDigit(c: char) { '0' <= c <= '9' }

  function DigitsValue(s: string): nat
    requires forall k :: 0 <= k < |s| ==> IsDigit(s[k])
    decreases |s|
  {
    if s == [] then 0
    else
      assert IsDigit(s[|s| - 1]);
      DigitsValue(s[..|s| - 1]) * 10 + (s[|s| - 1] as int - '0' as int)
  }

  /**
   * Python's `int(s)` on the narrower grammar of an optional `-` followed
   * by ASCII decimal digits; anything else is a ValueError here. Python
   * also accepts a leading `+`, surrounding whitespace, `_` between digits
   * and non-ASCII digits, none of which a Maya plug index contains.
   */
  function ParseInt(s: string): (r: Result<int>)
    ensures r.Ok? ==> |s| > 0
  {
    var negative := |s| > 0 && s[0] == '-';
    var digits := if negative then s[1..] else s;
    if digits == [] || exists k :: 0 <= k < |digits| && !IsDigit(digits[k]) then Err(ValueError)
    else if negative then Ok(0 - DigitsValue(digits) as int)
    else Ok(DigitsValue(digits))
  }

  function DigitChar(d: nat): char
    requires d < 10
  {
    ('0' as int + d) as char
  }

  /** Python's `str(n)` for a natural number. */
  function NatToString(n: nat): (r: string)
    ensures |r| > 0 && forall k :: 0 <= k < |r| ==> IsDigit(r[k])
    ensures DigitsValue(r) == n
    decreases n
  {
    if n < 10 then [DigitChar(n)]
    else
      var r := NatToString(n / 10) + [DigitChar(n % 10)];
      assert r[..|r| - 1] == NatToString(n / 10);
      r
  }

  /** `str(n)` read back with `int(...)` gives `n`. */
  lemma ParseFormattedIndex(n: nat)
    ensures ParseInt(NatToString(n)) == Ok(n)
  {
    var s := NatToString(n);
    assert s[0] != '-' by { assert IsDigit(s[0]); }
  }
}
