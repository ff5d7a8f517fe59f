/**
 * Character and string helpers with the meaning Python's `str` methods give
 * them: `isspace`, `strip`, `lstrip`, `split`, `join`, `lower`, `startswith`,
 * `in`, and `int()` on decimal text. Every other module builds on these.
 */
module Text {
  import opened Wrappers

  /** Python's `str.isspace` for one character: exactly what `str.strip()` removes. */
  predicate IsSpace(c: char) {
    || c == ' '
    || '\U{9}' <= c <= '\U{D}'
    || '\U{1C}' <= c <= '\U{1F}'
    || c == '\U{85}' || c == '\U{A0}' || c == '\U{1680}'
    || '\U{2000}' <= c <= '\U{200A}'
    || c == '\U{2028}' || c == '\U{2029}' || c == '\U{202F}' || c == '\U{205F}' || c == '\U{3000}'
  }

  predicate IsDigit(c: char) {
    '0' <= c <= '9'
  }

  predicate IsAsciiLetter(c: char) {
    'a' <= c <= 'z' || 'A' <= c <= 'Z'
  }

  /** The class `[a-zA-Z0-9]`. */
  predicate IsAsciiAlnum(c: char) {
    IsDigit(c) || IsAsciiLetter(c)
  }

  /** The characters a slug is made of: lower-case ASCII letters, digits and `-`. */
  predicate IsSlugChar(c: char) {
    'a' <= c <= 'z' || IsDigit(c) || c == '-'
  }

  predicate IsDash(c: char) {
    c == '-'
  }

  predicate IsSlash(c: char) {
    c == '/'
  }

  /** `str.lower()` on one character, for the ASCII range. */
  function LowerChar(c: char): char {
    if 'A' <= c <= 'Z' then (c as int + 32) as char else c
  }

  function Lower(s: string): string {
    seq(|s|, i requires 0 <= i < |s| => LowerChar(s[i]))
  }

  /** `s[:n]`: the first `n` characters, or all of `s` when it is shorter. */
  function Take(s: string, n: nat): (r: string)
    ensures |r| <= n && StartsWith(s, r)
    ensures |s| <= n ==> r == s
    ensures |s| > n ==> |r| == n
  {
    if |s| <= n then s else s[..n]
  }

  predicate StartsWith(s: string, prefix: string) {
    |prefix| <= |s| && s[..|prefix|] == prefix
  }

  predicate EndsWith(s: string, suffix: string) {
    |suffix| <= |s| && s[|s| - |suffix|..] == suffix
  }

  /** Python's `needle in s` for strings. */
  predicate Contains(s: string, needle: string) {
    exists i | 0 <= i <= |s| :: OccursAt(s, needle, i)
  }

  /** `needle` sits in `s` starting at index `i`. */
  predicate OccursAt(s: string, needle: string, i: int) {
    0 <= i <= |s| - |needle| && s[i..i + |needle|] == needle
  }

  // ---------------------------------------------------------------------------
  // Trimming: `strip`, `lstrip`, `strip(chars)`
  // ---------------------------------------------------------------------------

  /** Number of leading characters that `drop` removes. */
  function CountLeading(s: string, drop: char -> bool): (n: nat)
    ensures n <= |s|
    ensures forall i :: 0 <= i < n ==> drop(s[i])
    ensures n < |s| ==> !drop(s[n])
  {
    if |s| > 0 && drop(s[0]) then 1 + CountLeading(s[1..], drop) else 0
  }

  /** Number of trailing characters that `drop` removes. */
  function CountTrailing(s: string, drop: char -> bool): (n: nat)
    ensures n <= |s|
    ensures forall i :: |s| - n <= i < |s| ==> drop(s[i])
    ensures n < |s| ==> !drop(s[|s| - n - 1])
  {
    if |s| > 0 && drop(s[|s| - 1]) then 1 + CountTrailing(s[..|s| - 1], drop) else 0
  }

  /** `s.lstrip(chars)`, where `drop` tells which characters are in `chars`. */
  function TrimStart(s: string, drop: char -> bool): string {
    s[CountLeading(s, drop)..]
  }

  /** `s.rstrip(chars)`. */
  function TrimEnd(s: string, drop: char -> bool): string {
    s[..|s| - CountTrailing(s, drop)]
  }

  /** A string with no droppable character at either end. */
  predicate Trimmed(s: string, drop: char -> bool) {
    |s| == 0 || (!drop(s[0]) && !drop(s[|s| - 1]))
  }

  /** `s.strip(chars)`: the middle of `s` once droppable characters are removed from both ends. */
  function StripBy(s: string, drop: char -> bool): (r: string)
    ensures Trimmed(r, drop)
    ensures CountLeading(s, drop) + |r| <= |s|
    ensures r == s[CountLeading(s, drop)..CountLeading(s, drop) + |r|]
    ensures forall i :: CountLeading(s, drop) + |r| <= i < |s| ==> drop(s[i])
  {
    var lead := CountLeading(s, drop);
    var t := TrimStart(s, drop);
    var r := TrimEnd(t, drop);
    assert t == s[lead..];
    assert r == s[lead..lead + |r|];
    r
  }

  /** `s.strip()` with no argument. */
  function Strip(s: string): string {
    StripBy(s, IsSpace)
  }

  /** A character that `drop` keeps survives stripping, at its offset from the leading run. */
  lemma StripByKeeps(s: string, drop: char -> bool, p: int)
    requires 0 <= p < |s| && !drop(s[p])
    ensures CountLeading(s, drop) <= p < CountLeading(s, drop) + |StripBy(s, drop)|
    ensures StripBy(s, drop)[p - CountLeading(s, drop)] == s[p]
  {
    var lead := CountLeading(s, drop);
    var r := StripBy(s, drop);
    assert lead <= p && p < lead + |r|;
    assert r[p - lead] == s[lead..lead + |r|][p - lead];
  }

  /** Stripping a string that is already trimmed leaves it unchanged. */
  lemma StripByTrimmed(s: string, drop: char -> bool)
    requires Trimmed(s, drop)
    ensures StripBy(s, drop) == s
  {
    assert CountLeading(s, drop) == 0;
    assert TrimStart(s, drop) == s;
    assert CountTrailing(s, drop) == 0;
  }

  lemma StripIdempotent(s: string)
    ensures Strip(Strip(s)) == Strip(s)
  {
    StripByTrimmed(Strip(s), IsSpace);
  }

  /** A string whose every character survives `drop` is its own strip. */
  lemma StripByKeepsClean(s: string, drop: char -> bool)
    requires forall i :: 0 <= i < |s| ==> !drop(s[i])
    ensures StripBy(s, drop) == s
  {
    StripByTrimmed(s, drop);
  }

  // ---------------------------------------------------------------------------
  // `str.split(sep)` for a one-character separator, and `sep.join(parts)`
  // ---------------------------------------------------------------------------

  /** `s.split(sep)`: never empty, and the empty string gives `[""]`. */
  function Split(s: string, sep: char): (r: seq<string>)
    ensures |r| >= 1
    ensures forall i :: 0 <= i < |r| ==> sep !in r[i]
    decreases |s|
  {
    if |s| == 0 then [""]
    else
      var rest := Split(s[1..], sep);
      if s[0] == sep then [""] + rest else [[s[0]] + rest[0]] + rest[1..]
  }

  function Join(parts: seq<string>, sep: string): string {
    if |parts| == 0 then ""
    else if |parts| == 1 then parts[0]
    else parts[0] + sep + Join(parts[1..], sep)
  }

  /** Number of occurrences of `c` in `s`. */
  function Occurrences(s: string, c: char): nat {
    if |s| == 0 then 0 else (if s[0] == c then 1 else 0) + Occurrences(s[1..], c)
  }

  /** Splitting yields one more part than there are separators. */
  lemma {:induction false} SplitLength(s: string, sep: char)
    ensures |Split(s, sep)| == Occurrences(s, sep) + 1
    decreases |s|
  {
    if |s| > 0 {
      SplitLength(s[1..], sep);
    }
  }

  /** Joining the parts back with the separator restores the input. */
  lemma {:induction false} JoinSplit(s: string, sep: char)
    ensures Join(Split(s, sep), [sep]) == s
    decreases |s|
  {
    if |s| > 0 {
      var rest := Split(s[1..], sep);
      JoinSplit(s[1..], sep);
      if s[0] == sep {
        assert Split(s, sep) == [""] + rest;
        assert Join([""] + rest, [sep]) == "" + [sep] + Join(rest, [sep]);
        assert s == [s[0]] + s[1..];
      } else {
        var parts := [[s[0]] + rest[0]] + rest[1..];
        assert Split(s, sep) == parts;
        if |rest| == 1 {
          assert Join(rest, [sep]) == rest[0];
          assert Join(parts, [sep]) == [s[0]] + rest[0];
        } else {
          assert Join(rest, [sep]) == rest[0] + [sep] + Join(rest[1..], [sep]);
          assert parts[1..] == rest[1..];
          assert Join(parts, [sep]) == [s[0]] + rest[0] + [sep] + Join(rest[1..], [sep]);
        }
        assert s == [s[0]] + s[1..];
      }
    }
  }

  /** A separator-free string splits into itself. */
  lemma {:induction false} SplitWithoutSeparator(s: string, sep: char)
    requires sep !in s
    ensures Split(s, sep) == [s]
    decreases |s|
  {
    if |s| > 0 {
      assert sep !in s[1..] by {
        forall i | 0 <= i < |s[1..]| ensures s[1..][i] != sep {
          assert s[1..][i] == s[i + 1];
        }
      }
      SplitWithoutSeparator(s[1..], sep);
      assert s == [s[0]] + s[1..];
    }
  }

  /** A separator-free head glues onto the first part of what follows it. */
  lemma {:induction false} SplitPrefix(a: string, b: string, sep: char)
    requires sep !in a
    ensures Split(a + b, sep) == [a + Split(b, sep)[0]] + Split(b, sep)[1..]
    decreases |a|
  {
    if |a| > 0 {
      assert sep !in a[1..] by {
        forall i | 0 <= i < |a[1..]| ensures a[1..][i] != sep {
          assert a[1..][i] == a[i + 1];
        }
      }
      SplitPrefix(a[1..], b, sep);
      assert (a + b)[1..] == a[1..] + b;
      assert (a + b)[0] == a[0];
      assert [a[0]] + (a[1..] + Split(b, sep)[0]) == a + Split(b, sep)[0];
    } else {
      var parts := Split(b, sep);
      assert a + b == b;
      assert a + parts[0] == parts[0];
      assert parts == [parts[0]] + parts[1..];
    }
  }

  /** Splitting a joined list of separator-free parts gives the parts back. */
  lemma {:induction false} SplitJoin(parts: seq<string>, sep: char)
    requires |parts| >= 1
    requires forall i :: 0 <= i < |parts| ==> sep !in parts[i]
    ensures Split(Join(parts, [sep]), sep) == parts
    decreases |parts|
  {
    if |parts| == 1 {
      SplitWithoutSeparator(parts[0], sep);
    } else {
      var tail := Join(parts[1..], [sep]);
      SplitJoin(parts[1..], sep);
      var s2 := [sep] + tail;
      assert Split(s2, sep) == [""] + Split(tail, sep) by {
        assert s2[0] == sep && s2[1..] == tail;
      }
      assert Join(parts, [sep]) == parts[0] + s2;
      SplitPrefix(parts[0], s2, sep);
      var split2 := [""] + Split(tail, sep);
      assert split2[0] == "" && split2[1..] == parts[1..];
      assert parts[0] + "" == parts[0];
      assert parts == [parts[0]] + parts[1..];
    }
  }

  // ---------------------------------------------------------------------------
  // Decimal numbers: `int(text)` and `str(n)`
  // ---------------------------------------------------------------------------

  predicate AllDigits(s: string) {
    forall i :: 0 <= i < |s| ==> IsDigit(s[i])
  }

  function DigitValue(c: char): nat
    requires IsDigit(c)
  {
    c as int - '0' as int
  }

  function DigitChar(d: nat): char
    requires d < 10
  {
    ('0' as int + d) as char
  }

  /** The value of a string of decimal digits; leading zeros are allowed. */
  function DigitsValue(s: string): nat
    requires AllDigits(s)
  {
    if |s| == 0 then 0 else DigitsValue(s[..|s| - 1]) * 10 + DigitValue(s[|s| - 1])
  }

  /** `str(n)` for a natural number. */
  function ShowNat(n: nat): (r: string)
    ensures |r| >= 1
    ensures AllDigits(r)
  {
    if n < 10 then [DigitChar(n)] else ShowNat(n / 10) + [DigitChar(n % 10)]
  }

  /** `str(n)` for any integer. */
  function ShowInt(n: int): string {
    if n < 0 then "-" + ShowNat(-n) else ShowNat(n)
  }

  /**
   * Python's `int(text)` on base-ten text: surrounding whitespace is ignored, one
   * optional sign, then at least one digit. `None` stands for the `ValueError`.
   */
  function ParseInt(s: string): Option<int> {
    var t := Strip(s);
    if |t| > 0 && (t[0] == '+' || t[0] == '-') then
      var digits := t[1..];
      if |digits| > 0 && AllDigits(digits) then
        var magnitude: int := DigitsValue(digits);
        Some(if t[0] == '-' then -magnitude else magnitude)
      else None
    else if |t| > 0 && AllDigits(t) then Some(DigitsValue(t))
    else None
  }

  lemma {:induction false} DigitsValueShowNat(n: nat)
    ensures DigitsValue(ShowNat(n)) == n
  {
    if n >= 10 {
      DigitsValueShowNat(n / 10);
      var s := ShowNat(n);
      assert s[..|s| - 1] == ShowNat(n / 10);
    }
  }

  /** A digit string is trimmed, so `Strip` leaves it alone. */
  lemma StripDigits(s: string)
    requires AllDigits(s)
    ensures Strip(s) == s
  {
    StripByKeepsClean(s, IsSpace);
  }

  /** `int(digits)` is the value of the digits, leading zeros included. */
  lemma ParseIntDigits(s: string)
    requires |s| > 0 && AllDigits(s)
    ensures ParseInt(s) == Some(DigitsValue(s))
  {
    StripDigits(s);
    assert IsDigit(s[0]);
  }

  /** `int(str(n)) == n`. */
  lemma ParseIntShowNat(n: nat)
    ensures ParseInt(ShowNat(n)) == Some(n)
  {
    StripDigits(ShowNat(n));
    DigitsValueShowNat(n);
  }
}
