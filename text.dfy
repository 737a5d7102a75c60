/** The small optional-value wrapper used by the branch-key resolver and the
    digit-run search (Python's `None` / match object). */
module Wrappers {
  datatype Option<+T> = None | Some(value: T)
}

/** Character classes and string helpers that the line rules rely on:
    Python's `\d`, `str.isspace`, `str.strip`, `str.count`, `in`,
    `re.sub(r'\d', '', s)`, `str(n)` and `int(digits)`. */
module Text {
  import opened Collections

  /** `\d` restricted to ASCII decimal digits. */
  predicate IsDigit(c: char) {
    '0' <= c <= '9'
  }

  /** Python's `str.isspace()`: the characters `str.strip()` removes. */
  predicate IsSpace(c: char) {
    || c == ' '
    || ('\t' <= c <= '\r')                 // \t \n \x0b \x0c \r
    || ('\U{1c}' <= c <= '\U{1f}')         // file, group, record, unit separators
    || c == '\U{85}' || c == '\U{a0}' || c == '\U{1680}'
    || ('\U{2000}' <= c <= '\U{200a}')
    || c == '\U{2028}' || c == '\U{2029}' || c == '\U{202f}'
    || c == '\U{205f}' || c == '\U{3000}'
  }

  predicate AllDigits(s: string) {
    forall i :: 0 <= i < |s| ==> IsDigit(s[i])
  }

  predicate NoDigits(s: string) {
    forall i :: 0 <= i < |s| ==> !IsDigit(s[i])
  }

  /** `len(re.findall(r'\d', s))` */
  function CountDigits(s: string): (n: nat)
    ensures n <= |s|
    ensures n == 0 <==> NoDigits(s)
    ensures |s| == 1 ==> (n == 1 <==> IsDigit(s[0]))
  {
    if s == [] then 0
    else CountDigits(s[..|s| - 1]) + (if IsDigit(s[|s| - 1]) then 1 else 0)
  }

  /** The count is additive over concatenation; with the one-character case
      above this fixes it as the exact number of digits. */
  lemma {:induction false} CountDigitsAppend(a: string, b: string)
    ensures CountDigits(a + b) == CountDigits(a) + CountDigits(b)
  {
    if b == [] {
      assert a + b == a;
    } else {
      AppendLast(a, b);
      CountDigitsAppend(a, b[..|b| - 1]);
    }
  }

  /** `s.count(c)` for a single character `c` */
  function CountChar(s: string, c: char): (n: nat)
    ensures n <= |s|
    ensures n == 0 <==> c !in s
    ensures |s| == 1 ==> (n == 1 <==> s[0] == c)
  {
    if s == [] then 0
    else CountChar(s[..|s| - 1], c) + (if s[|s| - 1] == c then 1 else 0)
  }

  /** The count is additive over concatenation; with the one-character case
      above this fixes it as the exact number of occurrences. */
  lemma {:induction false} CountCharAppend(a: string, b: string, c: char)
    ensures CountChar(a + b, c) == CountChar(a, c) + CountChar(b, c)
  {
    if b == [] {
      assert a + b == a;
    } else {
      AppendLast(a, b);
      CountCharAppend(a, b[..|b| - 1], c);
    }
  }

  /** `re.sub(r'\d', '', s)`: every non-digit character, in order. */
  function RemoveDigits(s: string): (r: string)
    ensures NoDigits(r)
    ensures |r| == |s| - CountDigits(s)
    ensures forall c :: c in r <==> c in s && !IsDigit(c)
  {
    if s == [] then []
    else RemoveDigits(s[..|s| - 1]) + (if IsDigit(s[|s| - 1]) then [] else [s[|s| - 1]])
  }

  /** The non-digit at index `i` lands at `i` minus the number of digits
      before it. */
  lemma {:induction false} RemoveDigitsAt(s: string, i: nat)
    requires i < |s| && !IsDigit(s[i])
    ensures i - CountDigits(s[..i]) < |RemoveDigits(s)|
    ensures RemoveDigits(s)[i - CountDigits(s[..i])] == s[i]
  {
    var init := s[..|s| - 1];
    if i < |s| - 1 {
      assert init[..i] == s[..i] && init[i] == s[i];
      RemoveDigitsAt(init, i);
    } else {
      assert s[..i] == init;
    }
  }

  /** The kept characters stay in their order. */
  lemma {:induction false} RemoveDigitsInOrder(s: string)
    ensures forall i :: 0 <= i < |s| && !IsDigit(s[i]) ==>
              && i - CountDigits(s[..i]) < |RemoveDigits(s)|
              && RemoveDigits(s)[i - CountDigits(s[..i])] == s[i]
  {
    forall i | 0 <= i < |s| && !IsDigit(s[i])
      ensures && i - CountDigits(s[..i]) < |RemoveDigits(s)|
              && RemoveDigits(s)[i - CountDigits(s[..i])] == s[i]
    {
      RemoveDigitsAt(s, i);
    }
  }

  /** Where `s.lstrip()` would start: the first non-whitespace index at or
      after `i`, or `|s|`. */
  function SkipSpaces(s: string, i: nat): (j: nat)
    requires i <= |s|
    ensures i <= j <= |s|
    ensures forall k :: i <= k < j ==> IsSpace(s[k])
    ensures j < |s| ==> !IsSpace(s[j])
    decreases |s| - i
  {
    if i == |s| || !IsSpace(s[i]) then i else SkipSpaces(s, i + 1)
  }

  /** Where `rstrip` would end when it may not cut below `lo`: the index
      after the last non-whitespace character in `s[lo..j]`, or `lo`. */
  function SkipSpacesBack(s: string, lo: nat, j: nat): (e: nat)
    requires lo <= j <= |s|
    ensures lo <= e <= j
    ensures forall k :: e <= k < j ==> IsSpace(s[k])
    ensures e > lo ==> !IsSpace(s[e - 1])
  {
    if j == lo || !IsSpace(s[j - 1]) then j else SkipSpacesBack(s, lo, j - 1)
  }

  /** `s.strip()`: whitespace cut from both ends. */
  function Strip(s: string): (r: string)
    ensures |r| <= |s|
    ensures r == [] || (!IsSpace(r[0]) && !IsSpace(r[|r| - 1]))
  {
    var i := SkipSpaces(s, 0);
    s[i..SkipSpacesBack(s, i, |s|)]
  }

  /** `r` is what stripping leaves of `s`: the infix of `s` that starts at
      its first non-whitespace character, with only whitespace after it. */
  ghost predicate StrippedFrom(r: string, s: string) {
    var i := SkipSpaces(s, 0);
    && i + |r| <= |s| && r == s[i..i + |r|]
    && (forall k :: 0 <= k < i ==> IsSpace(s[k]))
    && (forall k :: i + |r| <= k < |s| ==> IsSpace(s[k]))
  }

  /** Only whitespace is cut, on either side, and what is kept is the infix
      of `s` in between. */
  lemma StripSpec(s: string)
    ensures StrippedFrom(Strip(s), s)
  {
  }

  /** Stripping only cuts, so a digit-free string stays digit-free. */
  lemma StripKeepsNoDigits(s: string)
    requires NoDigits(s)
    ensures NoDigits(Strip(s))
  {
    var r, i := Strip(s), SkipSpaces(s, 0);
    forall j | 0 <= j < |r| ensures !IsDigit(r[j]) {
      assert r[j] == s[i + j];
    }
  }

  /** `',' in s` */
  predicate Contains(s: string, c: char) {
    exists i :: 0 <= i < |s| && s[i] == c
  }

  /** `s[k:]` for a non-negative `k`, with Python's clamping. */
  function Drop(s: string, k: nat): (r: string)
    ensures |r| == if k <= |s| then |s| - k else 0
    ensures forall i :: 0 <= i < |r| ==> r[i] == s[k + i]
  {
    if k <= |s| then s[k..] else []
  }

  function DigitChar(d: nat): (c: char)
    requires d < 10
    ensures IsDigit(c)
  {
    ('0' as int + d) as char
  }

  function DigitValue(c: char): (d: nat)
    requires IsDigit(c)
    ensures d < 10 && DigitChar(d) == c
  {
    (c as int - '0' as int) as nat
  }

  /** `int(s)` for a string of decimal digits (leading zeros ignored). */
  function DecimalValue(s: string): (v: nat)
    requires AllDigits(s)
    ensures v == 0 <==> forall i :: 0 <= i < |s| ==> s[i] == '0'
  {
    if s == [] then 0
    else 10 * DecimalValue(s[..|s| - 1]) + DigitValue(s[|s| - 1])
  }

  /** `str(n)` */
  function NatToString(n: nat): (r: string)
    ensures 1 <= |r| && AllDigits(r)
    ensures r[0] == '0' ==> n == 0 && r == "0"
  {
    if n < 10 then [DigitChar(n)]
    else NatToString(n / 10) + [DigitChar(n % 10)]
  }

  /** `int(str(n)) == n`: the decimal text of a count reads back as that count. */
  lemma {:induction false} DecimalRoundTrip(n: nat)
    ensures DecimalValue(NatToString(n)) == n
  {
    var s := NatToString(n);
    if n >= 10 {
      var init := NatToString(n / 10);
      assert s == init + [DigitChar(n % 10)];
      assert s[..|s| - 1] == init;
      DecimalRoundTrip(n / 10);
      assert DecimalValue(s) == 10 * (n / 10) + n % 10;
    }
  }

  /** `str(int(s)) == s` for a digit string without leading zeros. */
  lemma {:induction false} DigitsRoundTrip(s: string)
    requires AllDigits(s) && s != [] && (s[0] == '0' ==> s == "0")
    ensures NatToString(DecimalValue(s)) == s
  {
    var init := s[..|s| - 1];
    var d := DigitValue(s[|s| - 1]);
    if init == [] {
      assert DecimalValue(s) == d;
    } else {
      DigitsRoundTrip(init);
      DecimalPositive(init);
      var v := DecimalValue(init);
      assert DecimalValue(s) == 10 * v + d;
      assert (10 * v + d) / 10 == v && (10 * v + d) % 10 == d;
      assert s == init + [s[|s| - 1]];
    }
  }

  lemma {:induction false} DecimalPositive(s: string)
    requires AllDigits(s) && s != [] && s[0] != '0'
    ensures DecimalValue(s) > 0
  {
    if |s| > 1 {
      DecimalPositive(s[..|s| - 1]);
    }
  }

  /** `s.split(sep)` for a single-character separator: the pieces between
      separators, so `|Split(s, sep)|` is one more than the separators in `s`. */
  function Split(s: string, sep: char): (r: seq<string>)
    ensures |r| >= 1
    decreases |s|
  {
    if s == [] then [[]]
    else
      var rest := Split(s[1..], sep);
      if s[0] == sep then [[]] + rest else [[s[0]] + rest[0]] + rest[1..]
  }

  /** A string without the separator splits into itself. */
  lemma {:induction false} SplitWithoutSep(a: string, sep: char)
    requires sep !in a
    ensures Split(a, sep) == [a]
  {
    if a != [] {
      SplitWithoutSep(a[1..], sep);
      assert [a[0]] + a[1..] == a;
    }
  }

  /** The first separator ends the first piece. */
  lemma {:induction false} SplitAtFirstSep(a: string, b: string, sep: char)
    requires sep !in a
    ensures Split(a + [sep] + b, sep) == [a] + Split(b, sep)
  {
    var s := a + [sep] + b;
    if a == [] {
      assert s[1..] == b;
    } else {
      assert s[1..] == a[1..] + [sep] + b;
      SplitAtFirstSep(a[1..], b, sep);
      assert [a[0]] + a[1..] == a;
    }
  }
}
