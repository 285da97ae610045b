/**
 * The .NET string operations the mail generator relies on: `String.Split` on
 * one separator character, `String.Replace` of a substring, and the decimal
 * formatting of an `int` under the invariant culture.
 */
module Text {

  /** `pat` occurs in `s` starting at index `i`. */
  predicate OccursAt(s: string, pat: string, i: nat) {
    i + |pat| <= |s| && s[i..i + |pat|] == pat
  }

  /** `pat` occurs somewhere in `s`. */
  predicate Contains(s: string, pat: string) {
    exists i :: 0 <= i <= |s| && OccursAt(s, pat, i)
  }

  lemma ContainsMiddle(a: string, b: string, c: string)
    ensures Contains(a + b + c, b)
  {
    var s := a + b + c;
    assert s[|a|..|a| + |b|] == b;
    assert OccursAt(s, b, |a|);
  }

  lemma ContainsAdjacent(a: string, b: string, c: string, d: string)
    ensures Contains(a + b + c + d, b + c)
  {
    var s := a + b + c + d;
    assert s[|a|..|a| + |b + c|] == b + c;
    assert OccursAt(s, b + c, |a|);
  }

  lemma ContainsSelf(p: string)
    ensures Contains(p, p)
  {
    assert p[0..|p|] == p;
    assert OccursAt(p, p, 0);
  }

  /** What occurs in `a` occurs in `a + b`. */
  lemma ContainsInLeft(a: string, b: string, pat: string)
    requires Contains(a, pat)
    ensures Contains(a + b, pat)
  {
    var i :| 0 <= i <= |a| && OccursAt(a, pat, i);
    assert (a + b)[i..i + |pat|] == a[i..i + |pat|];
    assert OccursAt(a + b, pat, i);
  }

  /** What occurs in `b` occurs in `a + b`. */
  lemma ContainsInRight(a: string, b: string, pat: string)
    requires Contains(b, pat)
    ensures Contains(a + b, pat)
  {
    var i :| 0 <= i <= |b| && OccursAt(b, pat, i);
    assert (a + b)[|a| + i..|a| + i + |pat|] == b[i..i + |pat|];
    assert OccursAt(a + b, pat, |a| + i);
  }

  // ---------------------------------------------------------------------
  // String.Split(new char[] { sep })

  /**
   * `s.Split(sep)`: the pieces between separators, empty pieces included, so
   * there is always one piece more than there are separators.
   */
  function Split(s: string, sep: char): (parts: seq<string>)
    ensures |parts| >= 1
    ensures forall k :: 0 <= k < |parts| ==> sep !in parts[k]
    decreases |s|
  {
    if s == [] then [""]
    else
      var rest := Split(s[1..], sep);
      if s[0] == sep then [""] + rest
      else [[s[0]] + rest[0]] + rest[1..]
  }

  /** `String.Join(sep, parts)`, the inverse of `Split`. */
  function Join(parts: seq<string>, sep: char): string
    decreases |parts|
  {
    if parts == [] then ""
    else if |parts| == 1 then parts[0]
    else parts[0] + [sep] + Join(parts[1..], sep)
  }

  /** Joining the pieces back with the separator gives the original string. */
  lemma {:induction false} JoinSplit(s: string, sep: char)
    ensures Join(Split(s, sep), sep) == s
    decreases |s|
  {
    if s != [] {
      var rest := Split(s[1..], sep);
      JoinSplit(s[1..], sep);
      if s[0] == sep {
        assert ([""] + rest)[1..] == rest;
      } else {
        var parts := [[s[0]] + rest[0]] + rest[1..];
        assert parts[1..] == rest[1..];
        if |rest| > 1 {
          assert Join(rest, sep) == rest[0] + [sep] + Join(rest[1..], sep);
        }
      }
    }
  }

  /** A string without the separator is one piece. */
  lemma {:induction false} SplitWithoutSeparator(s: string, sep: char)
    requires sep !in s
    ensures Split(s, sep) == [s]
    decreases |s|
  {
    if s != [] {
      SplitWithoutSeparator(s[1..], sep);
      assert [s[0]] + s[1..] == s;
    }
  }

  /** The first piece ends at the first separator; the rest is split anew. */
  lemma {:induction false} SplitAtFirstSeparator(p: string, sep: char, rest: string)
    requires sep !in p
    ensures Split(p + [sep] + rest, sep) == [p] + Split(rest, sep)
    decreases |p|
  {
    var s := p + [sep] + rest;
    if p == [] {
      assert s[1..] == rest;
    } else {
      assert s[1..] == p[1..] + [sep] + rest;
      SplitAtFirstSeparator(p[1..], sep, rest);
      assert [p[0]] + p[1..] == p;
    }
  }

  /** Splitting a join of separator-free pieces gives the pieces back. */
  lemma {:induction false} SplitJoin(parts: seq<string>, sep: char)
    requires |parts| >= 1
    requires forall k :: 0 <= k < |parts| ==> sep !in parts[k]
    ensures Split(Join(parts, sep), sep) == parts
    decreases |parts|
  {
    if |parts| == 1 {
      SplitWithoutSeparator(parts[0], sep);
    } else {
      SplitJoin(parts[1..], sep);
      SplitAtFirstSeparator(parts[0], sep, Join(parts[1..], sep));
      assert [parts[0]] + parts[1..] == parts;
    }
  }

  // ---------------------------------------------------------------------
  // String.Replace(oldValue, newValue)

  /**
   * `s.Replace(pat, rep)` with ordinal comparison: scanning from the left,
   * each occurrence of `pat` that does not overlap an earlier replaced one is
   * replaced by `rep`. .NET throws on an empty `oldValue`, hence the requires.
   */
  function ReplaceAll(s: string, pat: string, rep: string): string
    requires pat != ""
    decreases |s|
  {
    if |s| < |pat| then s
    else if s[..|pat|] == pat then rep + ReplaceAll(s[|pat|..], pat, rep)
    else [s[0]] + ReplaceAll(s[1..], pat, rep)
  }

  /** An occurrence in the tail of `s` is an occurrence in `s`, one place later. */
  lemma OccursAtTail(s: string, pat: string, i: nat)
    requires s != []
    ensures OccursAt(s[1..], pat, i) == OccursAt(s, pat, i + 1)
  {
    if i + |pat| <= |s[1..]| {
      assert s[1..][i..i + |pat|] == s[i + 1..i + 1 + |pat|];
    }
  }

  /** Without an occurrence of the pattern, replacing changes nothing. */
  lemma {:induction false} ReplaceAllAbsent(s: string, pat: string, rep: string)
    requires pat != ""
    requires !Contains(s, pat)
    ensures ReplaceAll(s, pat, rep) == s
    decreases |s|
  {
    if |s| >= |pat| {
      assert !OccursAt(s, pat, 0);
      forall i | 0 <= i <= |s[1..]| ensures !OccursAt(s[1..], pat, i) {
        OccursAtTail(s, pat, i);
      }
      ReplaceAllAbsent(s[1..], pat, rep);
      assert [s[0]] + s[1..] == s;
    }
  }

  /**
   * `pat` cannot start inside `a` in `a + pat + b` when its second character
   * is not in `a`.
   */
  lemma NoOccurrenceBefore(a: string, pat: string, b: string)
    requires |pat| >= 2 && pat[1] !in a
    ensures forall i: nat :: i < |a| ==> !OccursAt(a + pat + b, pat, i)
  {
    var s := a + pat + b;
    forall i: nat | i < |a| ensures !OccursAt(s, pat, i) {
      if i + |pat| <= |s| {
        var w := s[i..i + |pat|];
        assert w[0] == a[i];
        if i + 1 < |a| {
          assert w[1] == a[i + 1];
          assert w[1] != pat[1];
        } else if pat[0] != pat[1] {
          assert w[1] == pat[0];
          assert w[1] != pat[1];
        } else {
          assert w[0] != pat[1];
        }
      }
    }
  }

  /**
   * Replacement works left to right: when the first occurrence of the pattern
   * in `a + pat + b` is the one right after `a`, the result keeps `a`,
   * substitutes that occurrence and carries on with `b`.
   */
  lemma {:induction false} ReplaceAllFirstOccurrence(a: string, pat: string, rep: string, b: string)
    requires pat != ""
    requires forall i: nat :: i < |a| ==> !OccursAt(a + pat + b, pat, i)
    ensures ReplaceAll(a + pat + b, pat, rep) == a + rep + ReplaceAll(b, pat, rep)
    decreases |a|
  {
    var s := a + pat + b;
    if a == [] {
      assert s == pat + b;
      assert s[..|pat|] == pat;
      assert s[|pat|..] == b;
    } else {
      assert !OccursAt(s, pat, 0);
      var t := a[1..] + pat + b;
      assert s[1..] == t;
      forall i: nat | i < |a[1..]| ensures !OccursAt(t, pat, i) {
        OccursAtTail(s, pat, i);
      }
      ReplaceAllFirstOccurrence(a[1..], pat, rep, b);
      assert ReplaceAll(s, pat, rep) == [s[0]] + ReplaceAll(t, pat, rep);
      assert [a[0]] + a[1..] == a;
    }
  }

  /** Reference definition of replacing one character: substitute it everywhere. */
  function SubstChar(s: string, c: char, rep: string): string
    decreases |s|
  {
    if s == [] then ""
    else (if s[0] == c then rep else [s[0]]) + SubstChar(s[1..], c, rep)
  }

  /** Replacing a one-character pattern is character-wise substitution. */
  lemma {:induction false} ReplaceAllOneChar(s: string, c: char, rep: string)
    ensures ReplaceAll(s, [c], rep) == SubstChar(s, c, rep)
    decreases |s|
  {
    if s != [] {
      assert s[..1] == [s[0]];
      ReplaceAllOneChar(s[1..], c, rep);
    }
  }

  /** After substituting `c` by a text without `c`, no `c` is left. */
  lemma {:induction false} SubstCharRemoves(s: string, c: char, rep: string)
    requires c !in rep
    ensures c !in SubstChar(s, c, rep)
    decreases |s|
  {
    if s != [] {
      SubstCharRemoves(s[1..], c, rep);
    }
  }

  /** Substituting a character that does not occur changes nothing. */
  lemma {:induction false} SubstCharAbsent(s: string, c: char, rep: string)
    requires c !in s
    ensures SubstChar(s, c, rep) == s
    decreases |s|
  {
    if s != [] {
      SubstCharAbsent(s[1..], c, rep);
      assert [s[0]] + s[1..] == s;
    }
  }

  /** Substitution works piece by piece. */
  lemma {:induction false} SubstCharAppend(a: string, b: string, c: char, rep: string)
    ensures SubstChar(a + b, c, rep) == SubstChar(a, c, rep) + SubstChar(b, c, rep)
    decreases |a|
  {
    if a == [] {
      assert a + b == b;
    } else {
      SubstCharAppend(a[1..], b, c, rep);
      assert (a + b)[1..] == a[1..] + b;
    }
  }

  // ---------------------------------------------------------------------
  // Int32.ToString(CultureInfo.InvariantCulture)

  predicate IsDigit(c: char) {
    '0' <= c <= '9'
  }

  predicate IsDigits(s: string) {
    forall i :: 0 <= i < |s| ==> IsDigit(s[i])
  }

  function DigitChar(d: nat): (c: char)
    requires d < 10
    ensures IsDigit(c)
  {
    (('0' as int) + d) as char
  }

  function DigitValue(c: char): int {
    c as int - '0' as int
  }

  /** Decimal digits of `n`, most significant first, without leading zeros. */
  function NatToString(n: nat): (s: string)
    ensures |s| >= 1 && IsDigits(s)
    ensures s[0] == '0' ==> n == 0 && s == "0"
    decreases n
  {
    if n < 10 then [DigitChar(n)]
    else NatToString(n / 10) + [DigitChar(n % 10)]
  }

  /** Decimal text of `n`, with a leading '-' when negative. */
  function IntToString(n: int): string {
    if n < 0 then "-" + NatToString(-n) else NatToString(n)
  }

  /** The value of a string of decimal digits (the inverse of `NatToString`). */
  function ParseNat(s: string): nat
    requires IsDigits(s)
    decreases |s|
  {
    if s == [] then 0
    else 10 * ParseNat(s[..|s| - 1]) + DigitValue(s[|s| - 1])
  }

  /** The value of an optionally negated string of decimal digits. */
  function ParseInt(s: string): int
    requires IsDigits(s) || (|s| > 0 && s[0] == '-' && IsDigits(s[1..]))
  {
    if |s| > 0 && s[0] == '-' then -(ParseNat(s[1..]) as int) else ParseNat(s)
  }

  lemma {:induction false} ParseNatToString(n: nat)
    ensures ParseNat(NatToString(n)) == n
    decreases n
  {
    if n >= 10 {
      var s := NatToString(n);
      assert s[..|s| - 1] == NatToString(n / 10);
      ParseNatToString(n / 10);
    }
  }

  /** Decimal formatting loses nothing: parsing the text gives the number back. */
  lemma IntToStringRoundTrip(n: int)
    ensures var s := IntToString(n);
      (IsDigits(s) || (|s| > 0 && s[0] == '-' && IsDigits(s[1..]))) && ParseInt(s) == n
  {
    if n < 0 {
      var s := IntToString(n);
      assert s[1..] == NatToString(-n);
      ParseNatToString(-n);
    } else {
      ParseNatToString(n);
    }
  }

  /** Different numbers are formatted differently. */
  lemma IntToStringInjective(m: int, n: int)
    requires IntToString(m) == IntToString(n)
    ensures m == n
  {
    IntToStringRoundTrip(m);
    IntToStringRoundTrip(n);
  }
}
