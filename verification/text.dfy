/**
 The handful of Python string operations the schedule engine relies on,
 written out with Python's semantics: `str.isspace`, `str.strip()`,
 `str.split()` (no argument), `str.split(sep)`, `sep.join(parts)`,
 `str.replace(c, '')`, the substring test `a in b`, `str(int)` and
 `int(str)`.
 */
module Text {
  import opened Outcomes

  /** Python's `str.isspace()` for one character. */
  predicate IsSpace(c: char) {
    || c == ' ' || c == '\t' || c == '\n' || c == '\r'
    || c == '\U{000B}' || c == '\U{000C}'
    || ('\U{001C}' <= c <= '\U{001F}')
    || c == '\U{0085}' || c == '\U{00A0}' || c == '\U{1680}'
    || ('\U{2000}' <= c <= '\U{200A}')
    || c == '\U{2028}' || c == '\U{2029}' || c == '\U{202F}' || c == '\U{205F}' || c == '\U{3000}'
  }

  predicate IsDigit(c: char) {
    '0' <= c <= '9'
  }

  predicate NoSpaces(s: string) {
    forall i :: 0 <= i < |s| ==> !IsSpace(s[i])
  }

  /** `p` is a prefix of `s` (Python's `s.startswith(p)`). */
  predicate StartsWith(s: string, p: string) {
    |p| <= |s| && s[..|p|] == p
  }

  /** Python's substring test `sub in s`. */
  predicate Contains(s: string, sub: string)
    decreases |s|
  {
    StartsWith(s, sub) || (|s| > 0 && Contains(s[1..], sub))
  }

  function DropLeadingSpaces(s: string): (r: string)
    ensures |r| <= |s| && r == s[|s| - |r|..]
    ensures |r| > 0 ==> !IsSpace(r[0])
    ensures forall i :: 0 <= i < |s| - |r| ==> IsSpace(s[i])
  {
    if |s| > 0 && IsSpace(s[0]) then DropLeadingSpaces(s[1..]) else s
  }

  function DropTrailingSpaces(s: string): (r: string)
    ensures |r| <= |s| && r == s[..|r|]
    ensures |r| > 0 ==> !IsSpace(r[|r| - 1])
    ensures forall i :: |r| <= i < |s| ==> IsSpace(s[i])
  {
    if |s| > 0 && IsSpace(s[|s| - 1]) then DropTrailingSpaces(s[..|s| - 1]) else s
  }

  /** Python's `s.strip()`: the text between the leading and the trailing whitespace. */
  function Strip(s: string): (r: string)
    ensures |r| > 0 ==> !IsSpace(r[0]) && !IsSpace(r[|r| - 1])
    ensures (|s| == 0 || (!IsSpace(s[0]) && !IsSpace(s[|s| - 1]))) ==> r == s
  {
    DropTrailingSpaces(DropLeadingSpaces(s))
  }

  /** Python's `''.join(s.split())`: the text with every whitespace character removed. */
  function RemoveSpaces(s: string): (r: string)
    ensures NoSpaces(r)
    ensures |r| <= |s|
  {
    if |s| == 0 then ""
    else if IsSpace(s[0]) then RemoveSpaces(s[1..])
    else [s[0]] + RemoveSpaces(s[1..])
  }

  /** Python's `s.replace(c, '')` for a one-character `c`. */
  function RemoveChar(s: string, c: char): (r: string)
    ensures c !in r
    ensures |r| <= |s|
  {
    if |s| == 0 then ""
    else if s[0] == c then RemoveChar(s[1..], c)
    else [s[0]] + RemoveChar(s[1..], c)
  }

  /** The length of the run of non-whitespace characters that starts `s`. */
  function WordLength(s: string): (n: nat)
    ensures n <= |s|
    ensures forall i :: 0 <= i < n ==> !IsSpace(s[i])
    ensures n < |s| ==> IsSpace(s[n])
  {
    if |s| == 0 || IsSpace(s[0]) then 0 else 1 + WordLength(s[1..])
  }

  /** Python's `s.split()`: the maximal runs of non-whitespace characters, in order. */
  function Words(s: string): (ws: seq<string>)
    ensures forall k :: 0 <= k < |ws| ==> |ws[k]| > 0 && NoSpaces(ws[k])
    decreases |s|
  {
    if |s| == 0 then []
    else if IsSpace(s[0]) then Words(s[1..])
    else
      var n := WordLength(s);
      [s[..n]] + Words(s[n..])
  }

  /** The first word of a text that starts with a word and a space is that word. */
  lemma {:induction false} WordsOfLeadingWord(word: string, rest: string)
    requires |word| > 0 && NoSpaces(word)
    ensures |Words(word + " " + rest)| > 0 && Words(word + " " + rest)[0] == word
  {
    var s := word + " " + rest;
    assert s == word + (" " + rest);
    assert s[0] == word[0];
    WordLengthOfWord(word, " " + rest);
    assert s[..|word|] == word;
    assert Words(s) == [word] + Words(s[|word|..]);
  }

  lemma {:induction false} WordLengthOfWord(word: string, rest: string)
    requires NoSpaces(word)
    requires |rest| > 0 && IsSpace(rest[0])
    ensures WordLength(word + rest) == |word|
    decreases |word|
  {
    if |word| > 0 {
      assert (word + rest)[1..] == word[1..] + rest;
      WordLengthOfWord(word[1..], rest);
    } else {
      assert word + rest == rest;
    }
  }

  /** Python's `s.split(sep)` for a non-empty separator: cut at every occurrence, scanning left to right. */
  function Split(s: string, sep: string): (parts: seq<string>)
    requires |sep| > 0
    ensures |parts| >= 1
    decreases |s|
  {
    if |s| < |sep| then [s]
    else if s[..|sep|] == sep then [""] + Split(s[|sep|..], sep)
    else
      var rest := Split(s[1..], sep);
      [[s[0]] + rest[0]] + rest[1..]
  }

  /** Python's `sep.join(parts)`. */
  function Join(parts: seq<string>, sep: string): string
    decreases |parts|
  {
    if |parts| == 0 then ""
    else if |parts| == 1 then parts[0]
    else parts[0] + sep + Join(parts[1..], sep)
  }

  lemma JoinConsFirst(c: char, x: string, tail: seq<string>, sep: string)
    ensures Join([[c] + x] + tail, sep) == [c] + Join([x] + tail, sep)
  {
    if |tail| > 0 {
      assert ([[c] + x] + tail)[1..] == tail;
      assert ([x] + tail)[1..] == tail;
    }
  }

  /** Joining the pieces of a split with the same separator gives back the text. */
  lemma {:induction false} JoinSplit(s: string, sep: string)
    requires |sep| > 0
    ensures Join(Split(s, sep), sep) == s
    decreases |s|
  {
    if |s| < |sep| {
    } else if s[..|sep|] == sep {
      var t := s[|sep|..];
      JoinSplit(t, sep);
      JoinEmptyFirst(Split(t, sep), sep);
      assert s == sep + t;
    } else {
      var rest := Split(s[1..], sep);
      JoinSplit(s[1..], sep);
      assert [rest[0]] + rest[1..] == rest;
      JoinConsFirst(s[0], rest[0], rest[1..], sep);
      assert s == [s[0]] + s[1..];
    }
  }

  lemma JoinEmptyFirst(rest: seq<string>, sep: string)
    requires |rest| > 0
    ensures Join([""] + rest, sep) == sep + Join(rest, sep)
  {
    assert ([""] + rest)[1..] == rest;
  }

  /** A text in which the separator never occurs splits into itself alone. */
  lemma {:induction false} SplitWithoutSeparator(s: string, sep: string)
    requires |sep| > 0 && !Contains(s, sep)
    ensures Split(s, sep) == [s]
    decreases |s|
  {
    if |s| >= |sep| {
      SplitWithoutSeparator(s[1..], sep);
      assert [s[0]] + s[1..] == s;
    }
  }

  /** The separator occurs in `s` starting at position `j`. */
  predicate OccursAt(s: string, sep: string, j: int) {
    0 <= j && j + |sep| <= |s| && s[j..j + |sep|] == sep
  }

  /** The first piece of a split is the text before the first occurrence of the separator. */
  lemma {:induction false} SplitHead(s: string, sep: string, k: nat)
    requires |sep| > 0 && OccursAt(s, sep, k)
    requires forall j :: 0 <= j < k ==> !OccursAt(s, sep, j)
    ensures Split(s, sep)[0] == s[..k]
    decreases k
  {
    if k == 0 {
      assert s[..|sep|] == sep;
    } else {
      NoOccurrenceShifts(s, sep, k);
      assert s[1..][k - 1..k - 1 + |sep|] == s[k..k + |sep|];
      SplitHead(s[1..], sep, k - 1);
      SplitConsHead(s, sep);
      ConsPrefix(s, k);
    }
  }

  /**
   When the separator does not start anywhere in the first `n` characters,
   the first piece of a split begins with those characters.
   */
  lemma {:induction false} SplitHeadPrefix(s: string, sep: string, n: nat)
    requires |sep| > 0 && n <= |s|
    requires forall j :: 0 <= j < n ==> !OccursAt(s, sep, j)
    ensures n <= |Split(s, sep)[0]| && Split(s, sep)[0][..n] == s[..n]
    decreases n
  {
    if n > 0 && |s| >= |sep| {
      NoOccurrenceShifts(s, sep, n);
      SplitHeadPrefix(s[1..], sep, n - 1);
      SplitConsHead(s, sep);
      ConsPrefix(s, n);
    }
  }

  lemma ConsPrefix(s: string, k: nat)
    requires 0 < k <= |s|
    ensures s[..k] == [s[0]] + s[1..][..k - 1]
  {
    assert forall i :: 0 <= i < k ==> s[..k][i] == ([s[0]] + s[1..][..k - 1])[i];
  }

  /** A text that does not start with the separator keeps its first character in its first piece. */
  lemma SplitConsHead(s: string, sep: string)
    requires |sep| > 0 && |s| >= |sep| && !OccursAt(s, sep, 0)
    ensures Split(s, sep)[0] == [s[0]] + Split(s[1..], sep)[0]
  {
    assert s[..|sep|] == s[0..|sep|];
  }

  /** No occurrence among the first `n` positions of `s` means none among the first `n - 1` of its tail. */
  lemma NoOccurrenceShifts(s: string, sep: string, n: nat)
    requires |s| > 0 && n > 0
    requires forall j :: 0 <= j < n ==> !OccursAt(s, sep, j)
    ensures forall j :: 0 <= j < n - 1 ==> !OccursAt(s[1..], sep, j)
  {
    forall j | 0 <= j < n - 1
      ensures !OccursAt(s[1..], sep, j)
    {
      assert !OccursAt(s, sep, j + 1);
      if j + |sep| <= |s| - 1 {
        assert s[1..][j..j + |sep|] == s[j + 1..j + 1 + |sep|];
      }
    }
  }

  /** A text that starts with the separator splits into an empty piece and the split of the remainder. */
  lemma SplitLeadingSeparator(sep: string, rest: string)
    requires |sep| > 0
    ensures Split(sep + rest, sep) == [""] + Split(rest, sep)
  {
    var s := sep + rest;
    assert s[..|sep|] == sep;
    assert s[|sep|..] == rest;
  }

  /** Splitting on a one-character separator that `a` lacks peels `a` off as the first piece. */
  lemma {:induction false} SplitAtChar(a: string, c: char, b: string)
    requires c !in a
    ensures Split(a + [c] + b, [c]) == [a] + Split(b, [c])
    decreases |a|
  {
    var s := a + [c] + b;
    if |a| == 0 {
      assert s[..1] == [c];
      assert s[1..] == b;
    } else {
      assert s[..1] == [a[0]] && a[0] != c;
      assert s[1..] == a[1..] + [c] + b;
      SplitAtChar(a[1..], c, b);
      assert [a[0]] + a[1..] == a;
    }
  }

  /** The decimal digit of a value below ten. */
  function DigitChar(d: nat): (c: char)
    requires d < 10
    ensures IsDigit(c)
  {
    ['0', '1', '2', '3', '4', '5', '6', '7', '8', '9'][d]
  }

  function DigitValue(c: char): (d: nat)
    requires IsDigit(c)
    ensures d < 10
  {
    (c as int - '0' as int) as nat
  }

  lemma DigitRoundTrip(d: nat)
    requires d < 10
    ensures DigitValue(DigitChar(d)) == d
  {
  }

  /** The decimal numeral of a natural number, without leading zeros. */
  function NatToString(n: nat): (s: string)
    ensures |s| > 0 && forall i :: 0 <= i < |s| ==> IsDigit(s[i])
    decreases n
  {
    if n < 10 then [DigitChar(n)] else NatToString(n / 10) + [DigitChar(n % 10)]
  }

  /** Python's `str(n)` for an integer. */
  function IntToString(n: int): string {
    if n < 0 then "-" + NatToString(-n) else NatToString(n)
  }

  predicate AllDigits(s: string) {
    forall i :: 0 <= i < |s| ==> IsDigit(s[i])
  }

  /** The value of a string of decimal digits, most significant first. */
  function DigitsValue(s: string): nat
    requires AllDigits(s)
    decreases |s|
  {
    if |s| == 0 then 0 else 10 * DigitsValue(s[..|s| - 1]) + DigitValue(s[|s| - 1])
  }

  /** Digits, optionally grouped by single underscores, as Python's `int()` accepts them. */
  predicate DigitGroups(s: string) {
    && |s| > 0
    && IsDigit(s[0]) && IsDigit(s[|s| - 1])
    && forall i :: 0 <= i < |s| ==> GroupChar(s, i)
  }

  /** A digit, or an underscore between two digits. */
  predicate GroupChar(s: string, i: int)
    requires 0 <= i < |s|
  {
    IsDigit(s[i]) || (s[i] == '_' && 0 < i < |s| - 1 && IsDigit(s[i + 1]))
  }

  lemma RemoveUnderscoreDigits(s: string)
    requires forall i :: 0 <= i < |s| ==> IsDigit(s[i]) || s[i] == '_'
    ensures AllDigits(RemoveChar(s, '_'))
  {
    if |s| > 0 {
      RemoveUnderscoreDigits(s[1..]);
    }
  }

  function UnsignedValue(s: string): Option<nat> {
    if DigitGroups(s) then
      forall i | 0 <= i < |s|
        ensures IsDigit(s[i]) || s[i] == '_'
      {
        assert GroupChar(s, i);
      }
      RemoveUnderscoreDigits(s);
      Some(DigitsValue(RemoveChar(s, '_')))
    else None
  }

  /**
   Python's `int(s)` for a string: surrounding whitespace, an optional sign,
   then decimal digits that single underscores may group. `None` is the
   `ValueError` Python raises for anything else.
   */
  function ParseInt(s: string): Option<int> {
    ParseSigned(Strip(s))
  }

  /** `int()` of text that has no surrounding whitespace. */
  function ParseSigned(t: string): Option<int> {
    if |t| > 0 && (t[0] == '-' || t[0] == '+') then
      match UnsignedValue(t[1..])
      case None => None
      case Some(v) => Some(if t[0] == '-' then -(v as int) else v)
    else
      UnsignedValue(t)
  }

  lemma {:induction false} NatToStringValue(n: nat)
    ensures DigitsValue(NatToString(n)) == n
    decreases n
  {
    if n >= 10 {
      NatToStringValue(n / 10);
      var s := NatToString(n);
      assert s[..|s| - 1] == NatToString(n / 10);
      DigitRoundTrip(n % 10);
    } else {
      DigitRoundTrip(n);
    }
  }

  lemma NoUnderscoreUnchanged(s: string)
    requires AllDigits(s)
    ensures RemoveChar(s, '_') == s
  {
    if |s| > 0 {
      NoUnderscoreUnchanged(s[1..]);
      assert [s[0]] + s[1..] == s;
    }
  }

  lemma UnsignedNumeral(m: nat)
    ensures UnsignedValue(NatToString(m)) == Some(m)
  {
    var d := NatToString(m);
    NatToStringValue(m);
    NoUnderscoreUnchanged(d);
    forall i | 0 <= i < |d|
      ensures GroupChar(d, i)
    {
    }
    assert DigitGroups(d);
  }

  lemma DigitIsNotSpace(c: char)
    requires IsDigit(c)
    ensures !IsSpace(c)
  {
  }

  /** Python's `int(str(n)) == n`: the numeral of an integer parses back to it. */
  lemma ParseIntToString(n: int)
    ensures ParseInt(IntToString(n)) == Some(n)
  {
    if n < 0 {
      ParseNegativeNumeral(n);
    } else {
      ParseNatNumeral(n);
    }
  }

  lemma ParseNatNumeral(n: int)
    requires 0 <= n
    ensures ParseInt(IntToString(n)) == Some(n)
  {
    var d := NatToString(n);
    assert IntToString(n) == d;
    UnsignedNumeral(n);
    DigitIsNotSpace(d[0]);
    DigitIsNotSpace(d[|d| - 1]);
    StripUnpadded(d);
  }

  lemma ParseNegativeNumeral(n: int)
    requires n < 0
    ensures ParseInt(IntToString(n)) == Some(n)
  {
    MinusNumeral(IntToString(n), n);
  }

  lemma MinusNumeral(s: string, n: int)
    requires n < 0 && s == "-" + NatToString(-n)
    ensures ParseInt(s) == Some(n)
  {
    var d := NatToString(-n);
    UnsignedNumeral(-n);
    DigitIsNotSpace(d[|d| - 1]);
    ParseMinusDigits(s, d, -n);
  }

  /** `int()` of a minus sign followed by unpadded digits. */
  lemma ParseMinusDigits(s: string, d: string, m: nat)
    requires s == "-" + d
    requires |d| > 0 && !IsSpace(d[|d| - 1]) && UnsignedValue(d) == Some(m)
    ensures ParseInt(s) == Some(-(m as int))
  {
    assert s[|s| - 1] == d[|d| - 1];
    StripUnpadded(s);
    SignedNumeral(d, m);
  }

  lemma SignedNumeral(d: string, m: nat)
    requires UnsignedValue(d) == Some(m)
    ensures ParseSigned("-" + d) == Some(-(m as int))
  {
    assert ("-" + d)[1..] == d;
  }

  lemma StripUnpadded(s: string)
    requires |s| > 0 && !IsSpace(s[0]) && !IsSpace(s[|s| - 1])
    ensures Strip(s) == s
  {
  }

  /** `"%02d"`: a day or month number written with two digits. */
  function Pad2(n: nat): (s: string)
    requires n < 100
    ensures |s| == 2 && IsDigit(s[0]) && IsDigit(s[1])
  {
    [DigitChar(n / 10), DigitChar(n % 10)]
  }
}
