/** The pieces of Python's string handling that the backend relies on:
    `str.strip()` on anchor text, `str(n)` of a count interpolated into an
    f-string, and the prefix/substring relations used to state what a
    concatenated string contains. */
module Text {
  import opened Outcomes

  /** Python's `str.isspace()` for one character: the characters that
      `str.strip()` with no argument removes. */
  predicate IsSpace(c: char)
  {
    || ('\t' <= c <= '\r')                  // \t \n \x0b \x0c \r
    || ('\U{1C}' <= c <= ' ')               // \x1c .. \x1f and the space
    || c == '\U{85}' || c == '\U{A0}' || c == '\U{1680}'
    || ('\U{2000}' <= c <= '\U{200A}')
    || c == '\U{2028}' || c == '\U{2029}' || c == '\U{202F}'
    || c == '\U{205F}' || c == '\U{3000}'
  }

  /** The first index at or after `i` that does not hold whitespace. */
  function SkipSpace(s: string, i: nat): (k: nat)
    requires i <= |s|
    ensures i <= k <= |s|
    ensures forall m :: i <= m < k ==> IsSpace(s[m])
    ensures k < |s| ==> !IsSpace(s[k])
    decreases |s| - i
  {
    if i < |s| && IsSpace(s[i]) then SkipSpace(s, i + 1) else i
  }

  /** The end of `s[lo..j]` once its trailing whitespace is dropped. */
  function TrimEnd(s: string, lo: nat, j: nat): (k: nat)
    requires lo <= j <= |s|
    ensures lo <= k <= j
    ensures forall m :: k <= m < j ==> IsSpace(s[m])
    ensures lo < k ==> !IsSpace(s[k - 1])
    decreases j
  {
    if lo < j && IsSpace(s[j - 1]) then TrimEnd(s, lo, j - 1) else j
  }

  /** Python's `s.strip()`: the slice of `s` left once leading and trailing
      whitespace is removed. */
  function Strip(s: string): (r: string)
    ensures SkipSpace(s, 0) + |r| <= |s|
    ensures r == s[SkipSpace(s, 0)..SkipSpace(s, 0) + |r|]
    ensures forall m :: 0 <= m < SkipSpace(s, 0) ==> IsSpace(s[m])
    ensures forall m :: SkipSpace(s, 0) + |r| <= m < |s| ==> IsSpace(s[m])
    ensures r != [] ==> !IsSpace(r[0]) && !IsSpace(r[|r| - 1])
  {
    var i := SkipSpace(s, 0);
    var j := TrimEnd(s, i, |s|);
    s[i..j]
  }

  /** A string with no whitespace at either end is left as it is. */
  lemma StripTrimmed(s: string)
    requires s != [] ==> !IsSpace(s[0]) && !IsSpace(s[|s| - 1])
    ensures Strip(s) == s
  {
    assert SkipSpace(s, 0) == 0;
    if s != [] {
      assert TrimEnd(s, 0, |s|) == |s|;
    }
  }

  /** Stripping twice is stripping once. */
  lemma StripIdempotent(s: string)
    ensures Strip(Strip(s)) == Strip(s)
  {
    StripTrimmed(Strip(s));
  }

  /** A string made only of whitespace strips to the empty string. */
  lemma StripBlank(s: string)
    requires forall m :: 0 <= m < |s| ==> IsSpace(s[m])
    ensures Strip(s) == []
  {
  }

  predicate IsDigit(c: char)
  {
    '0' <= c <= '9'
  }

  predicate AllDigits(s: string)
  {
    forall m :: 0 <= m < |s| ==> IsDigit(s[m])
  }

  function DigitChar(d: nat): (c: char)
    requires d < 10
    ensures IsDigit(c) && c as int - '0' as int == d
  {
    ['0', '1', '2', '3', '4', '5', '6', '7', '8', '9'][d]
  }

  /** Python's `str(n)` for a non-negative integer: its decimal digits,
      most significant first, with no leading zero. */
  function Decimal(n: nat): (s: string)
    ensures |s| >= 1 && AllDigits(s)
    ensures s[0] == '0' ==> n == 0 && s == "0"
    decreases n
  {
    if n < 10 then [DigitChar(n)] else Decimal(n / 10) + [DigitChar(n % 10)]
  }

  /** The number a string of decimal digits denotes. */
  function ParseDecimal(s: string): (n: nat)
    requires AllDigits(s)
    ensures s == [] ==> n == 0
    decreases |s|
  {
    if s == [] then 0
    else ParseDecimal(s[..|s| - 1]) * 10 + (s[|s| - 1] as int - '0' as int)
  }

  /** Reading back the digits of `str(n)` gives `n`. */
  lemma {:induction false} DecimalRoundTrip(n: nat)
    ensures ParseDecimal(Decimal(n)) == n
    decreases n
  {
    var s := Decimal(n);
    if n >= 10 {
      DecimalRoundTrip(n / 10);
      assert s[..|s| - 1] == Decimal(n / 10);
    }
  }

  /** Different counts print differently. */
  lemma DecimalInjective(a: nat, b: nat)
    requires Decimal(a) == Decimal(b)
    ensures a == b
  {
    DecimalRoundTrip(a);
    DecimalRoundTrip(b);
  }

  /** `sub` occurs in `s` as a contiguous piece. */
  predicate Occurs(sub: string, s: string)
  {
    exists k :: 0 <= k <= |s| && sub <= s[k..]
  }

  /** The middle piece of a three-part concatenation sits right after the
      first piece. */
  lemma InfixAt(l: string, m: string, r: string)
    ensures l <= l + m + r
    ensures m <= (l + m + r)[|l|..]
    ensures Occurs(m, l + m + r)
  {
    var s := l + m + r;
    assert s[|l|..] == m + r;
  }

  /** `s` with the leading `prefix` removed, or None when `s` does not
      start with `prefix`. */
  function DropPrefix(prefix: string, s: string): (r: Option<string>)
    ensures r.Some? <==> prefix <= s
    ensures r.Some? ==> s == prefix + r.value
  {
    if prefix <= s then Some(s[|prefix|..]) else None
  }

  /** Removing a prefix undoes prepending it. */
  lemma DropPrefixConcat(prefix: string, t: string)
    ensures DropPrefix(prefix, prefix + t) == Some(t)
  {
    assert prefix <= prefix + t;
    assert (prefix + t)[|prefix|..] == t;
  }
}
