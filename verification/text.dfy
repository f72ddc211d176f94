/** The pieces of Python's `str` behaviour the pipeline relies on:
    `isspace`, `strip()`, `startswith` and `split(sep)`. */
module Text {

  import opened Wrappers

  /** Python's `str.isspace()` on one character: the ASCII controls TAB..CR,
      the information separators 0x1C..0x1F, SPACE, NEL, NBSP and the Unicode
      space separators. */
  predicate IsSpace(c: char) {
    || c == ' '
    || ('\t' <= c <= '\r')
    || ('\U{1C}' <= c <= '\U{1F}')
    || c == '\U{85}'
    || c == '\U{A0}'
    || c == '\U{1680}'
    || ('\U{2000}' <= c <= '\U{200A}')
    || c == '\U{2028}'
    || c == '\U{2029}'
    || c == '\U{202F}'
    || c == '\U{205F}'
    || c == '\U{3000}'
  }

  /** Every character of `s` at a position in `[lo, hi)` is whitespace. */
  ghost predicate SpaceBetween(s: string, lo: int, hi: int) {
    forall k {:trigger IsSpace(s[k])} :: lo <= k < hi && 0 <= k < |s| ==> IsSpace(s[k])
  }

  /** Neither end of `s` is whitespace. */
  predicate Trimmed(s: string) {
    |s| == 0 || (!IsSpace(s[0]) && !IsSpace(s[|s| - 1]))
  }

  /** `r` is the window of `s` starting at `i`, and `s` is whitespace outside it. */
  ghost predicate Span(s: string, i: int, r: string) {
    && 0 <= i <= |s| - |r|
    && r == s[i..i + |r|]
    && SpaceBetween(s, 0, i)
    && SpaceBetween(s, i + |r|, |s|)
  }

  /** The first position at or after `k` that is not whitespace (or `|s|`). */
  function SkipSpace(s: string, k: nat): (j: nat)
    requires k <= |s|
    ensures k <= j <= |s| && SpaceBetween(s, k, j)
    ensures j < |s| ==> !IsSpace(s[j])
    decreases |s| - k
  {
    if k < |s| && IsSpace(s[k]) then SkipSpace(s, k + 1) else k
  }

  /** The position just after the last non-whitespace character of `s[lo..k]`
      (or `lo`). */
  function SkipSpaceBack(s: string, lo: nat, k: nat): (j: nat)
    requires lo <= k <= |s|
    ensures lo <= j <= k && SpaceBetween(s, j, k)
    ensures j > lo ==> !IsSpace(s[j - 1])
    decreases k
  {
    if k > lo && IsSpace(s[k - 1]) then SkipSpaceBack(s, lo, k - 1) else k
  }

  /** `s.strip()`: `s` with its leading and trailing whitespace removed. The
      result is a window of `s` with only whitespace outside it, and neither of
      its own ends is whitespace. */
  function Strip(s: string): (r: string)
    ensures |r| <= |s|
    ensures exists i :: Span(s, i, r)
    ensures Trimmed(r)
  {
    var lo := SkipSpace(s, 0);
    var hi := SkipSpaceBack(s, lo, |s|);
    assert Span(s, lo, s[lo..hi]);
    s[lo..hi]
  }

  /** A string has at most one trimmed window with only whitespace outside it. */
  lemma SpanUnique(s: string, i: int, r: string, p: int, m: string)
    requires Span(s, i, r) && Trimmed(r)
    requires Span(s, p, m) && Trimmed(m)
    ensures r == m
  {
    if |r| > 0 {
      assert s[i] == r[0] && s[i + |r| - 1] == r[|r| - 1];
    }
    if |m| > 0 {
      assert s[p] == m[0] && s[p + |m| - 1] == m[|m| - 1];
    }
    if |r| > 0 && |m| > 0 {
      assert i == p && |r| == |m|;
    }
  }

  /** The window of `s` that `Strip` keeps, given by its start. */
  lemma StripSpan(s: string) returns (i: int)
    ensures Span(s, i, Strip(s))
  {
    i :| Span(s, i, Strip(s));
  }

  /** Strip removes exactly the whitespace-only ends: whenever `s` is
      whitespace outside a window `[p, q)` whose own ends are not whitespace,
      the result is that window, interior whitespace included. */
  lemma StripWindow(s: string, p: int, q: int)
    requires 0 <= p <= q <= |s|
    requires SpaceBetween(s, 0, p) && SpaceBetween(s, q, |s|)
    requires Trimmed(s[p..q])
    ensures Strip(s) == s[p..q]
  {
    var i := StripSpan(s);
    SpanUnique(s, i, Strip(s), p, s[p..q]);
  }

  /** A string with no whitespace at either end is its own strip. */
  lemma StripTrimmed(s: string)
    requires Trimmed(s)
    ensures Strip(s) == s
  {
    StripWindow(s, 0, |s|);
    assert s[0..|s|] == s;
  }

  /** Stripping a stripped string changes nothing. */
  lemma StripIdempotent(s: string)
    ensures Strip(Strip(s)) == Strip(s)
  {
    var m := Strip(s);
    StripWindow(m, 0, |m|);
    assert m[0..|m|] == m;
  }

  /** Whitespace after the kept window of `s` stays whitespace when one more
      whitespace character is appended. */
  lemma SpaceAfterAppend(s: string, c: char, lo: int)
    requires IsSpace(c) && 0 <= lo && SpaceBetween(s, lo, |s|)
    ensures SpaceBetween(s + [c], lo, |s| + 1)
  {
    var t := s + [c];
    forall k | lo <= k < |t|
      ensures IsSpace(t[k])
    {
      if k < |s| { assert t[k] == s[k]; }
    }
  }

  /** Appending a whitespace character never changes `strip()`. */
  lemma StripAppendSpace(s: string, c: char)
    requires IsSpace(c)
    ensures Strip(s + [c]) == Strip(s)
  {
    var m := Strip(s);
    var i := StripSpan(s);
    var t := s + [c];
    assert t[i..i + |m|] == m;
    assert SpaceBetween(t, 0, i);
    SpaceAfterAppend(s, c, i + |m|);
    StripWindow(t, i, i + |m|);
  }

  /** A trailing space never survives `strip()`. */
  lemma StripTrailingSpace(s: string)
    ensures Strip(s + " ") == Strip(s)
  {
    StripAppendSpace(s, ' ');
  }

  /** `s.startswith(prefix)`. */
  predicate StartsWith(s: string, prefix: string) {
    |prefix| <= |s| && s[..|prefix|] == prefix
  }

  /** Position of the first occurrence of `c` in `s`. */
  function IndexOf(s: string, c: char): (r: Option<nat>)
    ensures r.None? <==> c !in s
    ensures r.Some? ==> r.value < |s| && s[r.value] == c && c !in s[..r.value]
  {
    if |s| == 0 then None
    else if s[0] == c then Some(0)
    else
      match IndexOf(s[1..], c)
      case None => None
      case Some(i) =>
        assert s[..i + 1] == [s[0]] + s[1..][..i];
        Some(i + 1)
  }

  /** `sep.join(pieces)` for a one-character separator. */
  function JoinOn(pieces: seq<string>, sep: char): string
    requires |pieces| >= 1
  {
    if |pieces| == 1 then pieces[0] else pieces[0] + [sep] + JoinOn(pieces[1..], sep)
  }

  /** `s.split(sep)` for a one-character separator: the maximal runs of `s`
      between occurrences of `sep`. There is always at least one piece, no piece
      holds `sep`, and joining the pieces back with `sep` gives `s`. */
  function Split(s: string, sep: char): (r: seq<string>)
    ensures |r| >= 1
    ensures forall k :: 0 <= k < |r| ==> sep !in r[k]
    ensures JoinOn(r, sep) == s
    decreases |s|
  {
    match IndexOf(s, sep)
    case None => [s]
    case Some(i) =>
      var rest := Split(s[i + 1..], sep);
      assert s == s[..i] + [sep] + s[i + 1..];
      [s[..i]] + rest
  }

  /** The first occurrence of `c` in `a + [c] + b` is the one after `a`
      when `a` holds no `c`. */
  lemma IndexOfAfter(a: string, c: char, b: string)
    requires c !in a
    ensures IndexOf(a + [c] + b, c) == Some(|a|)
  {
    var s := a + [c] + b;
    assert s[|a|] == c;
  }

  /** The first piece of `a + [sep] + b` is `a` when `a` holds no `sep`. */
  lemma SplitAfter(a: string, sep: char, b: string)
    requires sep !in a
    ensures Split(a + [sep] + b, sep) == [a] + Split(b, sep)
  {
    var s := a + [sep] + b;
    IndexOfAfter(a, sep, b);
    assert s[..|a|] == a;
    assert s[|a| + 1..] == b;
  }

  /** The first piece of `s` is a prefix of `s`, and the separator follows it
      unless it is all of `s`. */
  lemma SplitFirst(s: string, sep: char)
    ensures |Split(s, sep)[0]| <= |s|
    ensures s[..|Split(s, sep)[0]|] == Split(s, sep)[0]
    ensures |Split(s, sep)[0]| < |s| ==> s[|Split(s, sep)[0]|] == sep
  {
    var r := Split(s, sep);
    if |r| > 1 {
      assert s == r[0] + [sep] + JoinOn(r[1..], sep);
    }
  }

  /** The first `d`-piece of the first `c`-piece of `s` is a prefix of `s`,
      followed in `s` by `c` or `d` unless it is all of `s`. */
  lemma SplitFirstOfFirst(s: string, c: char, d: char)
    ensures
      var t := Split(Split(s, c)[0], d)[0];
      && |t| <= |s| && s[..|t|] == t
      && (|t| < |s| ==> s[|t|] == c || s[|t|] == d)
      && c !in t && d !in t
  {
    var f := Split(s, c)[0];
    SplitFirst(s, c);
    SplitFirst(f, d);
    PrefixOfPrefix(s, f, Split(f, d)[0], c, d);
  }

  /** The text that `s[i + 1..].split(c)[0].split(d)[0]` takes sits right
      after position `i`, and is followed by `c`, `d` or the end of `s`. */
  lemma FieldAfter(s: string, i: nat, c: char, d: char)
    requires i < |s|
    ensures
      var t := Split(Split(s[i + 1..], c)[0], d)[0];
      && i + 1 + |t| <= |s| && s[i + 1..i + 1 + |t|] == t
      && (i + 1 + |t| == |s| || s[i + 1 + |t|] == c || s[i + 1 + |t|] == d)
      && c !in t && d !in t
  {
    var t := Split(Split(s[i + 1..], c)[0], d)[0];
    SplitFirstOfFirst(s[i + 1..], c, d);
    assert s[i + 1..i + 1 + |t|] == s[i + 1..][..|t|];
    if i + 1 + |t| < |s| {
      assert s[i + 1 + |t|] == s[i + 1..][|t|];
    }
  }

  /** A prefix of a prefix, with what follows each. */
  lemma PrefixOfPrefix(s: string, f: string, t: string, c: char, d: char)
    requires |f| <= |s| && s[..|f|] == f && (|f| < |s| ==> s[|f|] == c)
    requires |t| <= |f| && f[..|t|] == t && (|t| < |f| ==> f[|t|] == d)
    ensures |t| <= |s| && s[..|t|] == t
    ensures |t| < |s| ==> s[|t|] == c || s[|t|] == d
  {
    if |t| < |f| {
      assert s[|t|] == f[|t|];
    }
  }

  /** A separator-free `a` in front of `b` extends the first piece of `b`. */
  lemma SplitFirstPiece(a: string, sep: char, b: string)
    requires sep !in a
    ensures Split(a + b, sep)[0] == a + Split(b, sep)[0]
  {
    match IndexOf(b, sep)
    case None =>
      assert sep !in a + b;
    case Some(j) =>
      assert b == b[..j] + [sep] + b[j + 1..];
      assert a + b == (a + b[..j]) + [sep] + b[j + 1..];
      SplitAfter(a + b[..j], sep, b[j + 1..]);
      SplitAfter(b[..j], sep, b[j + 1..]);
  }

  /** When `s` splits into at least two pieces, the separator occurs, and the
      pieces after the first are those of the text after its first occurrence. */
  lemma SplitSecondPiece(s: string, sep: char)
    requires |Split(s, sep)| >= 2
    ensures IndexOf(s, sep).Some?
    ensures Split(s, sep)[1] == Split(s[IndexOf(s, sep).value + 1..], sep)[0]
  {
    match IndexOf(s, sep)
    case None =>
      assert false;
    case Some(j) =>
  }

  /** Text that is empty or opens with the separator has an empty first piece. */
  lemma SplitFirstEmpty(s: string, sep: char)
    requires s == [] || s[0] == sep
    ensures Split(s, sep)[0] == []
  {
    if s != [] {
      assert IndexOf(s, sep) == Some(0);
    }
  }

  /** Splitting undoes joining, whenever no piece holds the separator. */
  lemma {:induction false} SplitJoin(pieces: seq<string>, sep: char)
    requires |pieces| >= 1
    requires forall k :: 0 <= k < |pieces| ==> sep !in pieces[k]
    ensures Split(JoinOn(pieces, sep), sep) == pieces
    decreases |pieces|
  {
    if |pieces| == 1 {
      assert IndexOf(JoinOn(pieces, sep), sep).None?;
    } else {
      var rest := pieces[1..];
      assert forall k :: 0 <= k < |rest| ==> rest[k] == pieces[k + 1];
      SplitJoin(rest, sep);
      assert sep !in pieces[0];
      SplitAfter(pieces[0], sep, JoinOn(rest, sep));
      assert pieces == [pieces[0]] + rest;
    }
  }
}
