/**
 * The string operations the scripts apply to region names, subdivision
 * codes and population figures: Python's `str.split()`, `str.split(sep)`,
 * the `in` substring test, slicing, `str.replace('.', '')` and the
 * decimal reading done by `pd.to_numeric`.
 */
module Text {
  import opened Wrappers

  /** Python's `str.isspace` for one character: the separators `str.split()` splits on. */
  predicate IsSpace(c: char) {
    c == ' ' || c == '\t' || c == '\n' || c == '\r' || c == '\U{B}' || c == '\U{C}'
    || ('\U{1C}' <= c <= '\U{1F}') || c == '\U{85}' || c == '\U{A0}' || c == '\U{1680}'
    || ('\U{2000}' <= c <= '\U{200A}') || c == '\U{2028}' || c == '\U{2029}' || c == '\U{202F}'
    || c == '\U{205F}' || c == '\U{3000}'
  }

  predicate AllSpace(s: string) {
    forall i :: 0 <= i < |s| ==> IsSpace(s[i])
  }

  predicate NoSpace(s: string) {
    forall i :: 0 <= i < |s| ==> !IsSpace(s[i])
  }

  /** `s` with its trailing whitespace removed. */
  function TrimEnd(s: string): (t: string)
    ensures t <= s && AllSpace(s[|t|..])
    ensures t == [] || !IsSpace(t[|t| - 1])
  {
    if s != [] && IsSpace(s[|s| - 1]) then TrimEnd(s[..|s| - 1]) else s
  }

  /** The longest run of non-whitespace characters at the end of `t`. */
  function TrailingRun(t: string): (w: string)
    ensures |w| <= |t| && w == t[|t| - |w|..] && NoSpace(w)
    ensures |w| == |t| || IsSpace(t[|t| - |w| - 1])
  {
    if t == [] || IsSpace(t[|t| - 1]) then []
    else TrailingRun(t[..|t| - 1]) + [t[|t| - 1]]
  }

  /**
   * `w` sits in `s` at offset `k` as its last word: preceded by whitespace
   * or by nothing, and followed only by whitespace.
   */
  predicate LastWordAt(s: string, w: string, k: int) {
    0 <= k <= |s| - |w| && s[k..k + |w|] == w && AllSpace(s[k + |w|..])
    && (k == 0 || IsSpace(s[k - 1]))
  }

  /**
   * `s.split()[-1]`: the last whitespace-separated word of `s`, or None
   * when `s` holds no word (where Python raises IndexError).  The word is a
   * non-empty run of non-space characters that ends the text of `s`.
   */
  function LastWord(s: string): (r: Option<string>)
    ensures r.None? <==> AllSpace(s)
    ensures r.Some? ==> r.value != [] && NoSpace(r.value)
    ensures r.Some? ==> exists k :: LastWordAt(s, r.value, k)
  {
    var t := TrimEnd(s);
    if t == [] then
      None
    else
      var w := TrailingRun(t);
      var k := |t| - |w|;
      assert s[k..k + |w|] == w;
      assert s[k + |w|..] == s[|t|..];
      assert k > 0 ==> s[k - 1] == t[k - 1];
      assert LastWordAt(s, w, k);
      Some(w)
  }

  lemma {:induction false} TrailingRunOf(a: string, w: string)
    requires NoSpace(w) && (a == [] || IsSpace(a[|a| - 1]))
    ensures TrailingRun(a + w) == w
  {
    if w == [] {
      assert a + w == a;
    } else {
      var init := w[..|w| - 1];
      assert (a + w)[..|a + w| - 1] == a + init;
      TrailingRunOf(a, init);
    }
  }

  /** A word after whitespace (or at the start) is the last word of the text. */
  lemma LastWordOf(a: string, w: string)
    requires w != [] && NoSpace(w) && (a == [] || IsSpace(a[|a| - 1]))
    ensures LastWord(a + w) == Some(w)
  {
    TrailingRunOf(a, w);
  }

  /** `p` occurs in `s` starting at offset `i`. */
  predicate OccursAt(s: string, p: string, i: int) {
    0 <= i <= |s| - |p| && s[i..i + |p|] == p
  }

  /** Python's `p in s` on strings: `p` occurs as a contiguous piece of `s`. */
  function Contains(s: string, p: string): (b: bool)
    ensures b <==> exists i :: OccursAt(s, p, i)
  {
    if |p| > |s| then false
    else if s[..|p|] == p then
      assert OccursAt(s, p, 0);
      true
    else
      var b := Contains(s[1..], p);
      assert b ==> exists i :: OccursAt(s, p, i) by {
        if b {
          var i :| OccursAt(s[1..], p, i);
          assert s[i + 1..i + 1 + |p|] == s[1..][i..i + |p|];
          assert OccursAt(s, p, i + 1);
        }
      }
      assert (exists i :: OccursAt(s, p, i)) ==> b by {
        if i :| OccursAt(s, p, i) {
          assert i != 0;
          assert s[1..][i - 1..i - 1 + |p|] == s[i..i + |p|];
          assert OccursAt(s[1..], p, i - 1);
        }
      }
      b
  }

  /**
   * `s.split(sep)[0]`: the text of `s` before the first `sep`, or all of
   * `s` when `sep` does not occur in it.
   */
  function Before(s: string, sep: char): (r: string)
    ensures r <= s && sep !in r
    ensures |r| == |s| || s[|r|] == sep
  {
    if s == [] || s[0] == sep then [] else [s[0]] + Before(s[1..], sep)
  }

  /** `Before` stops at the first separator. */
  lemma BeforeAt(s: string, sep: char, k: nat)
    requires k <= |s| && sep !in s[..k] && (k == |s| || s[k] == sep)
    ensures Before(s, sep) == s[..k]
  {
  }

  /** Splitting "a<sep>b" at its first separator gives `a` and, after the separator, `b`. */
  /** A string holding `sep` twice is the text before the first, `sep`, the text between, `sep`, and the rest. */
  lemma SplitTwice(s: string, sep: char)
    requires |Before(s, sep)| < |s|
    requires |Before(s[|Before(s, sep)| + 1..], sep)| < |s| - |Before(s, sep)| - 1
    ensures var a := Before(s, sep);
            var rest := s[|a| + 1..];
            var b := Before(rest, sep);
            s == a + [sep] + b + [sep] + rest[|b| + 1..]
  {
    var a := Before(s, sep);
    var rest := s[|a| + 1..];
    var b := Before(rest, sep);
    var c := rest[|b| + 1..];
    SplitBefore(s, sep);
    SplitBefore(rest, sep);
    Regroup(a, sep, b, c);
  }

  lemma Regroup(a: string, sep: char, b: string, c: string)
    ensures a + [sep] + (b + [sep] + c) == a + [sep] + b + [sep] + c
  {
  }

  /** A string holding `sep` is the text before it, `sep`, and the text after it. */
  lemma SplitBefore(s: string, sep: char)
    requires |Before(s, sep)| < |s|
    ensures s == Before(s, sep) + [sep] + s[|Before(s, sep)| + 1..]
  {
  }

  lemma SplitAt(a: string, sep: char, b: string)
    requires sep !in a
    ensures Before(a + [sep] + b, sep) == a
    ensures (a + [sep] + b)[|a| + 1..] == b
  {
    var s := a + [sep] + b;
    assert s[..|a|] == a;
    BeforeAt(s, sep, |a|);
  }

  /**
   * `s.split(sep)[1]`: the text between the first and the second `sep`
   * (or the end of `s`); None when `sep` does not occur, where Python
   * raises IndexError.
   */
  function SecondField(s: string, sep: char): (r: Option<string>)
    ensures r.None? <==> sep !in s
    ensures r.Some? ==> sep !in r.value && Before(s, sep) + [sep] + r.value <= s
    ensures r.Some? ==> var k := |Before(s, sep)| + 1 + |r.value|; k == |s| || s[k] == sep
  {
    var head := Before(s, sep);
    if |head| == |s| then
      assert head == s;
      None
    else
      var rest := s[|head| + 1..];
      var field := Before(rest, sep);
      assert s == head + [sep] + rest;
      Some(field)
  }

  /** The field after the first separator of "a<sep>b" is `b`, when neither part holds the separator. */
  lemma SecondFieldOf(a: string, sep: char, b: string)
    requires sep !in a && sep !in b
    ensures SecondField(a + [sep] + b, sep) == Some(b)
  {
    SplitAt(a, sep, b);
    assert b[..|b|] == b;
    BeforeAt(b, sep, |b|);
  }

  /** Python's slice `s[:n]`: the first `n` characters, or all of a shorter `s`. */
  function Take(s: string, n: nat): (r: string)
    ensures r <= s && |r| <= n
    ensures |r| == n || r == s
  {
    if |s| <= n then s else s[..n]
  }

  /** ASCII upper case to lower case; the case folding of pycountry's code index. */
  function LowerChar(c: char): char {
    if 'A' <= c <= 'Z' then (c as int - 'A' as int + 'a' as int) as char else c
  }

  function Lower(s: string): (r: string)
    ensures |r| == |s|
  {
    if s == [] then [] else [LowerChar(s[0])] + Lower(s[1..])
  }

  /** `Lower` folds each character on its own. */
  lemma {:induction false} LowerAt(s: string, i: nat)
    requires i < |s|
    ensures Lower(s)[i] == LowerChar(s[i])
  {
    if i > 0 {
      LowerAt(s[1..], i - 1);
    }
  }

  /** `str.replace('.', '')`: every `.` removed, every other character kept in order. */
  function StripDots(s: string): (r: string)
    ensures '.' !in r && |r| <= |s|
  {
    if s == [] then []
    else if s[0] == '.' then StripDots(s[1..])
    else [s[0]] + StripDots(s[1..])
  }

  lemma {:induction false} StripDotsConcat(a: string, b: string)
    ensures StripDots(a + b) == StripDots(a) + StripDots(b)
  {
    if a != [] {
      assert (a + b)[1..] == a[1..] + b;
      StripDotsConcat(a[1..], b);
    } else {
      assert a + b == b;
    }
  }

  /** A string without dots is left as it is. */
  lemma {:induction false} StripDotsNone(s: string)
    requires '.' !in s
    ensures StripDots(s) == s
  {
    if s != [] {
      StripDotsNone(s[1..]);
    }
  }

  /** Removing the dots twice removes no more than removing them once. */
  lemma {:induction false} StripDotsIdempotent(s: string)
    ensures StripDots(StripDots(s)) == StripDots(s)
  {
    if s != [] {
      StripDotsIdempotent(s[1..]);
      if s[0] != '.' {
        assert ([s[0]] + StripDots(s[1..]))[1..] == StripDots(s[1..]);
      }
    }
  }

  /** A thousands separator placed anywhere does not change the digits that remain. */
  lemma SeparatorIgnored(a: string, b: string)
    ensures StripDots(a + "." + b) == StripDots(a + b)
  {
    StripDotsConcat(a + ".", b);
    StripDotsConcat(a, ".");
    StripDotsConcat(a, b);
  }

  predicate IsDigit(c: char) {
    '0' <= c <= '9'
  }

  predicate AllDigits(s: string) {
    forall i :: 0 <= i < |s| ==> IsDigit(s[i])
  }

  function DigitValue(c: char): (d: nat)
    requires IsDigit(c)
    ensures d < 10
  {
    c as int - '0' as int
  }

  function DigitChar(d: nat): (c: char)
    requires d < 10
    ensures IsDigit(c) && DigitValue(c) == d
  {
    (d + '0' as int) as char
  }

  /** The number written in decimal by the digit string `s` (leading zeros allowed). */
  function DigitsValue(s: string): nat
    requires AllDigits(s)
  {
    if s == [] then 0 else DigitsValue(s[..|s| - 1]) * 10 + DigitValue(s[|s| - 1])
  }

  /** Decimal digits of `n`, most significant first, without leading zeros. */
  function ShowNat(n: nat): (s: string)
    ensures s != [] && AllDigits(s)
    ensures |s| > 1 ==> s[0] != '0'
  {
    if n < 10 then [DigitChar(n)] else ShowNat(n / 10) + [DigitChar(n % 10)]
  }

  lemma {:induction false} ShowNatValue(n: nat)
    ensures DigitsValue(ShowNat(n)) == n
  {
    if n >= 10 {
      var s := ShowNat(n);
      assert s[..|s| - 1] == ShowNat(n / 10);
      ShowNatValue(n / 10);
    }
  }

  /**
   * Reading a whole string as a non-negative decimal integer, as
   * `pd.to_numeric` does for a string of digits; None for an empty
   * string or any other character, where `pd.to_numeric` raises.
   */
  function ParseNat(s: string): (r: Option<nat>)
    ensures r.Some? <==> s != [] && AllDigits(s)
  {
    if s != [] && AllDigits(s) then Some(DigitsValue(s)) else None
  }

  /** Writing a number in decimal and reading it back gives the number. */
  lemma ParseShowNat(n: nat)
    ensures ParseNat(ShowNat(n)) == Some(n)
  {
    ShowNatValue(n);
  }
}
