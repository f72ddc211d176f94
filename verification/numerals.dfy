/** Decimal numerals: Python's `int(text)` on the text of a chunk ordinal, and
    the zero-padded `%03d` numbering that the segmenter writes into chunk names. */
module Numerals {

  import opened Wrappers
  import opened Text

  predicate IsDigit(c: char) {
    '0' <= c <= '9'
  }

  predicate AllDigits(s: string) {
    forall i :: 0 <= i < |s| ==> IsDigit(s[i])
  }

  function DigitValue(c: char): nat
    requires IsDigit(c)
  {
    c as int - '0' as int
  }

  function DigitChar(d: nat): (c: char)
    requires d < 10
    ensures IsDigit(c) && DigitValue(c) == d
  {
    ('0' as int + d) as char
  }

  /** The number a string of decimal digits denotes, read most significant
      digit first. */
  function DigitsValue(s: string): nat
    requires AllDigits(s)
  {
    if |s| == 0 then 0 else DigitsValue(s[..|s| - 1]) * 10 + DigitValue(s[|s| - 1])
  }

  /** The shortest decimal numeral of `n`: at least one digit, no leading zero
      unless `n` is zero, and it denotes `n`. */
  function Decimal(n: nat): (s: string)
    ensures |s| >= 1 && AllDigits(s)
    ensures DigitsValue(s) == n
    ensures |s| > 1 ==> s[0] != '0'
  {
    if n < 10 then [DigitChar(n)]
    else
      var s := Decimal(n / 10) + [DigitChar(n % 10)];
      assert s[..|s| - 1] == Decimal(n / 10);
      s
  }

  function Zeros(k: nat): (s: string)
    ensures |s| == k && AllDigits(s)
  {
    if k == 0 then [] else Zeros(k - 1) + ['0']
  }

  /** `s` left-padded with zeros to at least `width` characters, as the
      `printf` conversion `%0<width>d` pads a numeral. */
  function ZeroPad(s: string, width: nat): string {
    if |s| >= width then s else Zeros(width - |s|) + s
  }

  lemma {:induction false} LeadingZeros(k: nat, s: string)
    requires AllDigits(s)
    ensures AllDigits(Zeros(k) + s)
    ensures DigitsValue(Zeros(k) + s) == DigitsValue(s)
    decreases |s|
  {
    var t := Zeros(k) + s;
    assert AllDigits(t) by {
      forall i | 0 <= i < |t|
        ensures IsDigit(t[i])
      {
        if i >= k { assert t[i] == s[i - k]; }
      }
    }
    if |s| == 0 {
      assert t == Zeros(k);
      AllZeros(k);
    } else {
      var init := s[..|s| - 1];
      assert t[..|t| - 1] == Zeros(k) + init;
      LeadingZeros(k, init);
    }
  }

  lemma {:induction false} AllZeros(k: nat)
    ensures DigitsValue(Zeros(k)) == 0
  {
    if k > 0 {
      assert Zeros(k)[..k - 1] == Zeros(k - 1);
      AllZeros(k - 1);
    }
  }

  /** The control characters U+001C..U+001F. `str.isspace` counts them as
      whitespace, but `int()` does not: CPython hands ASCII characters to its
      numeral reader unchanged, and that reader skips only TAB..CR and SPACE. */
  predicate IsInformationSeparator(c: char) {
    '\U{1C}' <= c <= '\U{1F}'
  }

  /** Whitespace that `int()` skips around a numeral. */
  predicate IsIntSpace(c: char) {
    IsSpace(c) && !IsInformationSeparator(c)
  }

  /** Python's `int(text)` in base 10: surrounding whitespace is ignored, an
      optional `+` or `-` must be followed directly by at least one ASCII
      digit, and nothing else may appear. An information separator anywhere
      makes the text invalid, since it is neither skipped nor a digit; every
      other whitespace character is skipped exactly as `strip()` skips it. */
  function ParseInt(text: string): (r: Option<int>)
    ensures Strip(text) == [] ==> r.None?
  {
    if exists k :: 0 <= k < |text| && IsInformationSeparator(text[k]) then
      None
    else
      var t := Strip(text);
      if |t| > 0 && (t[0] == '+' || t[0] == '-') then
        var ds := t[1..];
        if |ds| > 0 && AllDigits(ds) then
          var v: int := DigitsValue(ds);
          Some(if t[0] == '-' then -v else v)
        else
          None
      else if |t| > 0 && AllDigits(t) then
        Some(DigitsValue(t))
      else
        None
  }

  /** `t` is, as it stands, an optional sign directly followed by a non-empty
      run of ASCII digits, and it denotes `v`. */
  predicate SignedDigits(t: string, v: int) {
    || (|t| > 0 && AllDigits(t) && v == DigitsValue(t))
    || (|t| > 1 && t[0] == '+' && AllDigits(t[1..]) && v == DigitsValue(t[1..]))
    || (|t| > 1 && t[0] == '-' && AllDigits(t[1..]) && v == 0 - DigitsValue(t[1..]))
  }

  /** `text[p..q]` is a signed numeral denoting `v`, and outside it `text` is
      whitespace that `int()` skips. */
  ghost predicate NumeralAt(text: string, p: int, q: int, v: int) {
    && 0 <= p <= q <= |text|
    && SignedDigits(text[p..q], v)
    && (forall k :: 0 <= k < p ==> IsIntSpace(text[k]))
    && (forall k :: q <= k < |text| ==> IsIntSpace(text[k]))
  }

  /** `text` has the shape `int()` accepts in base 10, and denotes `v`. */
  ghost predicate Numeral(text: string, v: int) {
    exists p, q :: NumeralAt(text, p, q, v)
  }

  /** Whatever `ParseInt` accepts is a numeral of that value. */
  lemma ParseIntSound(text: string, v: int)
    requires ParseInt(text) == Some(v)
    ensures Numeral(text, v)
  {
    var t := Strip(text);
    var i := StripSpan(text);
    assert forall k :: 0 <= k < |text| ==> !IsInformationSeparator(text[k]);
    forall k | 0 <= k < i || i + |t| <= k < |text|
      ensures IsIntSpace(text[k])
    {
      assert IsSpace(text[k]);
    }
    assert text[i..i + |t|] == t;
    assert SignedDigits(t, v);
    assert NumeralAt(text, i, i + |t|, v);
  }

  /** Every numeral is accepted by `ParseInt`, with its value. */
  lemma ParseNumeral(text: string, p: int, q: int, v: int)
    requires NumeralAt(text, p, q, v)
    ensures ParseInt(text) == Some(v)
  {
    var t := text[p..q];
    NumeralTrimmed(t, v);
    NumeralClean(text, p, q, v);
    StripWindow(text, p, q);
    assert Strip(text) == t;
  }

  lemma NumeralTrimmed(t: string, v: int)
    requires SignedDigits(t, v)
    ensures |t| > 0 && Trimmed(t)
  {
    assert IsDigit(t[|t| - 1]) by {
      if !AllDigits(t) { assert t[1..][|t| - 2] == t[|t| - 1]; }
    }
  }

  lemma NumeralClean(text: string, p: int, q: int, v: int)
    requires NumeralAt(text, p, q, v)
    ensures forall k :: 0 <= k < |text| ==> !IsInformationSeparator(text[k])
    ensures SpaceBetween(text, 0, p) && SpaceBetween(text, q, |text|)
  {
    var t := text[p..q];
    forall k | 0 <= k < |text|
      ensures !IsInformationSeparator(text[k])
    {
      if p <= k < q {
        assert text[k] == t[k - p];
        if k > p && !AllDigits(t) { assert t[k - p] == t[1..][k - p - 1]; }
      }
    }
  }

  /** `int()` accepts exactly the numerals, each with its own value. */
  lemma ParseIntMeaning(text: string, v: int)
    ensures ParseInt(text) == Some(v) <==> Numeral(text, v)
  {
    if ParseInt(text) == Some(v) {
      ParseIntSound(text, v);
    }
    if Numeral(text, v) {
      var p, q :| NumeralAt(text, p, q, v);
      ParseNumeral(text, p, q, v);
    }
  }

  lemma MinusOne()
    ensures SignedDigits("-1", -1)
  {
    assert "-1"[1..] == "1";
    assert DigitsValue("1") == 1;
  }

  /** `int("1 2")` raises: whitespace is skipped only around the numeral. */
  lemma InnerSpaceRejected()
    ensures ParseInt("1 2") == None
  {
    var t := "1 2";
    StripTrimmed(t);
    assert forall k :: 0 <= k < |t| ==> !IsInformationSeparator(t[k]);
    assert !IsDigit(t[1]);
  }

  /** A text free of information separators whose strip is a run of ASCII
      digits is an integer: that run read in base 10. */
  lemma ParseStripped(text: string)
    requires forall k :: 0 <= k < |text| ==> !IsInformationSeparator(text[k])
    requires |Strip(text)| > 0 && AllDigits(Strip(text))
    ensures ParseInt(text) == Some(DigitsValue(Strip(text)))
  {
    assert IsDigit(Strip(text)[0]);
  }

  /** A non-empty run of ASCII digits is an integer, read in base 10. */
  lemma ParseDigits(s: string)
    requires |s| > 0 && AllDigits(s)
    ensures ParseInt(s) == Some(DigitsValue(s))
  {
    assert IsDigit(s[0]) && IsDigit(s[|s| - 1]);
    StripTrimmed(s);
    forall k | 0 <= k < |s|
      ensures !IsInformationSeparator(s[k])
    {
      assert IsDigit(s[k]);
    }
    ParseStripped(s);
  }

  /** `int()` ignores the whitespace it recognises around a run of ASCII
      digits. */
  lemma ParseSurrounded(pre: string, s: string, post: string)
    requires forall k :: 0 <= k < |pre| ==> IsIntSpace(pre[k])
    requires forall k :: 0 <= k < |post| ==> IsIntSpace(post[k])
    requires |s| > 0 && AllDigits(s)
    ensures ParseInt(pre + s + post) == Some(DigitsValue(s))
  {
    var text := pre + s + post;
    var p, q := |pre|, |pre| + |s|;
    SurroundedParts(pre, s, post);
    assert IsDigit(s[0]) && IsDigit(s[|s| - 1]);
    assert text[p..q] == s;
    StripWindow(text, p, q);
    assert Strip(text) == s;
    ParseStripped(text);
  }

  lemma SurroundedParts(pre: string, s: string, post: string)
    requires forall k :: 0 <= k < |pre| ==> IsIntSpace(pre[k])
    requires forall k :: 0 <= k < |post| ==> IsIntSpace(post[k])
    requires AllDigits(s)
    ensures forall k :: 0 <= k < |pre + s + post| ==> !IsInformationSeparator((pre + s + post)[k])
    ensures SpaceBetween(pre + s + post, 0, |pre|)
    ensures SpaceBetween(pre + s + post, |pre| + |s|, |pre + s + post|)
  {
    var text := pre + s + post;
    var p, q := |pre|, |pre| + |s|;
    forall k | 0 <= k < |text|
      ensures !IsInformationSeparator(text[k])
      ensures k < p || q <= k ==> IsSpace(text[k])
    {
      if k < p { assert text[k] == pre[k]; }
      else if k < q { assert text[k] == s[k - p]; }
      else { assert text[k] == post[k - q]; }
    }
  }

  /** The `%0<width>d` numeral of `n`: non-empty digits denoting `n`. */
  lemma PaddedDigits(n: nat, width: nat)
    ensures |ZeroPad(Decimal(n), width)| > 0
    ensures AllDigits(ZeroPad(Decimal(n), width))
    ensures DigitsValue(ZeroPad(Decimal(n), width)) == n
  {
    var d := Decimal(n);
    if |d| < width {
      assert ZeroPad(d, width) == Zeros(width - |d|) + d;
      LeadingZeros(width - |d|, d);
    } else {
      assert ZeroPad(d, width) == d;
    }
  }

  /** Every numeral the `%0<width>d` conversion writes for a non-negative
      number reads back as that number. */
  lemma ParsePadded(n: nat, width: nat)
    ensures ParseInt(ZeroPad(Decimal(n), width)) == Some(n)
  {
    PaddedDigits(n, width);
    ParseDigits(ZeroPad(Decimal(n), width));
  }

  /** A text with a character that is neither an ASCII digit, a sign nor
      whitespace that `int()` skips is never an integer. */
  lemma ParseRejectsForeign(text: string, k: int)
    requires 0 <= k < |text|
    requires !IsDigit(text[k]) && text[k] != '+' && text[k] != '-' && !IsIntSpace(text[k])
    ensures ParseInt(text) == None
  {
    if IsInformationSeparator(text[k]) {
      assert exists k' :: 0 <= k' < |text| && IsInformationSeparator(text[k']);
    } else {
      var t := Strip(text);
      var i := StripSpan(text);
      assert i <= k < i + |t|;
      var j := k - i;
      assert t[j] == text[k];
      assert !AllDigits(t);
      if j > 0 {
        assert t[1..][j - 1] == t[j];
        assert !AllDigits(t[1..]);
      }
    }
  }
}
