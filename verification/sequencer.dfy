/** The chunk sequencer: which directory entries are chunks, the ordinal each
    chunk name carries, and the ordering of chunks by that ordinal
    (`split_audio`'s listing filter and the `sorted` call at the head of
    `transcribe_audio_chunks`). */
module Sequencer {

  import opened Wrappers
  import opened Errors
  import opened Text
  import opened Numerals
  import opened Sorting

  const ChunkPrefix := "chunk_"

  /** `name.startswith("chunk_")`. */
  predicate IsChunkName(name: string) {
    StartsWith(name, ChunkPrefix)
  }

  /** `[f for f in listing if f.startswith("chunk_")]`: every chunk entry of
      the listing as often as it occurs there, and nothing else. */
  function ChunkFiles(listing: seq<string>): (r: seq<string>)
    ensures forall x :: multiset(r)[x] == if IsChunkName(x) then multiset(listing)[x] else 0
    ensures forall i :: 0 <= i < |r| ==> IsChunkName(r[i])
  {
    if |listing| == 0 then []
    else
      assert listing == [listing[0]] + listing[1..];
      (if IsChunkName(listing[0]) then [listing[0]] else []) + ChunkFiles(listing[1..])
  }

  /** The filter keeps a chunk entry and drops any other. */
  lemma ChunkFilesSingle(x: string)
    ensures ChunkFiles([x]) == if IsChunkName(x) then [x] else []
  {
    assert [x][1..] == [];
  }

  /** The filter keeps listing order: filtering a listing piecewise and
      concatenating is filtering the whole. */
  lemma {:induction false} ChunkFilesAppend(a: seq<string>, b: seq<string>)
    ensures ChunkFiles(a + b) == ChunkFiles(a) + ChunkFiles(b)
    decreases |a|
  {
    if |a| == 0 {
      assert a + b == b;
    } else {
      var head := if IsChunkName(a[0]) then [a[0]] else [];
      assert (a + b)[0] == a[0];
      assert (a + b)[1..] == a[1..] + b;
      assert ChunkFiles(a + b) == head + ChunkFiles(a[1..] + b);
      assert ChunkFiles(a) == head + ChunkFiles(a[1..]);
      ChunkFilesAppend(a[1..], b);
      AppendAssoc(head, ChunkFiles(a[1..]), ChunkFiles(b));
    }
  }

  lemma AppendAssoc<T>(p: seq<T>, q: seq<T>, r: seq<T>)
    ensures p + (q + r) == (p + q) + r
  {
  }

  /** The name the segmenter gives the chunk with ordinal `n`: the output
      template `chunk_%03d.wav`. */
  function ChunkName(n: nat): string {
    ChunkPrefix + ZeroPad(Decimal(n), 3) + ".wav"
  }

  /** The chunk names the segmenter writes for `n` segments, in playback order.
      The ensures only unfolds the comprehension for callers; what the names
      mean is stated by `SegmentNamesKeys`. */
  function SegmentNames(n: nat): (r: seq<string>)
    ensures |r| == n && forall i :: 0 <= i < n ==> r[i] == ChunkName(i)
  {
    seq(n, i requires 0 <= i => ChunkName(i))
  }

  /** `name.split('_')[1].split('.')[0]`: the text between the first `_` and
      the next `_` or `.` (or the end); absent (the `IndexError`) when the
      name has no `_`. The second `_`-field is the first field of what
      follows the first `_` (`Text.SplitSecondPiece`). */
  function OrdinalText(name: string): (r: Option<string>)
    ensures r.None? <==> '_' !in name
    ensures r.Some? ==> '_' !in r.value && '.' !in r.value
    ensures r.Some? ==>
      var start := IndexOf(name, '_').value + 1;
      var stop := start + |r.value|;
      && stop <= |name| && name[start..stop] == r.value
      && (stop == |name| || name[stop] == '_' || name[stop] == '.')
  {
    match IndexOf(name, '_')
    case None => None
    case Some(i) =>
      FieldAfter(name, i, '_', '.');
      Some(Split(Split(name[i + 1..], '_')[0], '.')[0])
  }

  /** `OrdinalText` is the first `.`-field of the second `_`-field. */
  lemma OrdinalTextIsSecondField(name: string)
    requires |Split(name, '_')| >= 2
    ensures OrdinalText(name) == Some(Split(Split(name, '_')[1], '.')[0])
  {
    SplitSecondPiece(name, '_');
  }

  /** The sort key `int(x.split('_')[1].split('.')[0])`. */
  function SortKey(name: string): (r: Result<int, Error>)
    ensures r == Failure(MissingOrdinalField(name)) <==> '_' !in name
    ensures r.Failure? ==> r.error == MissingOrdinalField(name) || r.error.InvalidOrdinal?
  {
    match OrdinalText(name)
    case None => Failure(MissingOrdinalField(name))
    case Some(t) =>
      match ParseInt(t)
      case None => Failure(InvalidOrdinal(name, t))
      case Some(k) => Success(k)
  }

  /** The ordinal of a name whose sort key exists (zero otherwise; it is only
      consulted once every key has been computed). */
  function Ordinal(name: string): int {
    SortKey(name).GetOr(0)
  }

  /** The first entry of `names` whose key cannot be computed is at `k`. */
  ghost predicate FirstBadKeyAt(names: seq<string>, k: int) {
    && 0 <= k < |names|
    && SortKey(names[k]).Failure?
    && forall j :: 0 <= j < k ==> SortKey(names[j]).Success?
  }

  /** There is only one first name whose key fails. */
  lemma FirstBadKeyUnique(names: seq<string>, k: int, k': int)
    requires FirstBadKeyAt(names, k) && FirstBadKeyAt(names, k')
    ensures k == k'
  {
  }

  /** The keys of `names`, computed front to back as `sorted` does before it
      compares anything; the first key that cannot be computed ends the call. */
  function KeysOf(names: seq<string>): (r: Result<seq<int>, Error>)
    ensures r.Success? <==> forall i :: 0 <= i < |names| ==> SortKey(names[i]).Success?
    ensures r.Success? ==> |r.value| == |names| && forall i :: 0 <= i < |names| ==> SortKey(names[i]) == Success(r.value[i])
    ensures r.Failure? ==> exists k :: FirstBadKeyAt(names, k) && SortKey(names[k]) == Failure(r.error)
  {
    if |names| == 0 then Success([])
    else
      match SortKey(names[0])
      case Failure(e) =>
        assert FirstBadKeyAt(names, 0);
        Failure(e)
      case Success(k) =>
        match KeysOf(names[1..])
        case Failure(e) =>
          ghost var j :| FirstBadKeyAt(names[1..], j) && SortKey(names[1..][j]) == Failure(e);
          BadKeyShift(names, j);
          Failure(e)
        case Success(ks) =>
          KeysCons(names, k, ks);
          Success([k] + ks)
  }

  lemma BadKeyShift(names: seq<string>, j: int)
    requires |names| > 0 && SortKey(names[0]).Success?
    requires FirstBadKeyAt(names[1..], j)
    ensures FirstBadKeyAt(names, j + 1)
  {
    ShiftFirstFailure(names, SortKey, j);
  }

  lemma ShiftFirstFailure<T, U, E>(xs: seq<T>, f: T -> Result<U, E>, j: int)
    requires |xs| > 0 && f(xs[0]).Success?
    requires 0 <= j < |xs| - 1 && f(xs[1..][j]).Failure?
    requires forall i :: 0 <= i < j ==> f(xs[1..][i]).Success?
    ensures f(xs[j + 1]).Failure?
    ensures forall i :: 0 <= i < j + 1 ==> f(xs[i]).Success?
  {
    forall i | 0 <= i < j + 1
      ensures f(xs[i]).Success?
    {
      if i > 0 { assert xs[i] == xs[1..][i - 1]; }
    }
  }

  lemma KeysCons(names: seq<string>, k: int, ks: seq<int>)
    requires |names| > 0 && SortKey(names[0]) == Success(k)
    requires |ks| == |names| - 1
    requires forall i :: 0 <= i < |ks| ==> SortKey(names[1..][i]) == Success(ks[i])
    ensures forall i :: 0 <= i < |names| ==> SortKey(names[i]) == Success(([k] + ks)[i])
  {
    ConsKeys(names, SortKey, k, ks);
  }

  lemma ConsKeys<T, E>(xs: seq<T>, f: T -> Result<int, E>, k: int, ks: seq<int>)
    requires |xs| > 0 && f(xs[0]) == Success(k) && |ks| == |xs| - 1
    requires forall i :: 0 <= i < |ks| ==> f(xs[1..][i]) == Success(ks[i])
    ensures forall i :: 0 <= i < |xs| ==> f(xs[i]) == Success(([k] + ks)[i])
  {
    forall i | 0 <= i < |xs|
      ensures f(xs[i]) == Success(([k] + ks)[i])
    {
      if i > 0 { assert xs[i] == xs[1..][i - 1]; }
    }
  }

  /** `sorted(chunks, key=...)` as written: fails with the first name whose key
      cannot be computed, and otherwise returns the chunks rearranged into
      non-decreasing ordinal order. */
  function SortChunks(names: seq<string>): (r: Result<seq<string>, Error>)
    ensures r.Success? <==> forall i :: 0 <= i < |names| ==> SortKey(names[i]).Success?
    ensures r.Failure? ==> exists k :: FirstBadKeyAt(names, k) && SortKey(names[k]) == Failure(r.error)
    ensures r.Success? ==> multiset(r.value) == multiset(names) && SortedBy(r.value, Ordinal)
  {
    match KeysOf(names)
    case Failure(e) => Failure(e)
    case Success(_) => Success(SortBy(names, Ordinal))
  }

  /** The ordering the pipeline evidently intends: a list of at most one path
      is already in order and passes through without its key being computed;
      longer lists are sorted as written. */
  function OrderChunks(names: seq<string>): (r: Result<seq<string>, Error>)
    ensures |names| <= 1 ==> r == Success(names)
    ensures r.Success? <==> |names| <= 1 || forall i :: 0 <= i < |names| ==> SortKey(names[i]).Success?
    ensures SortChunks(names).Success? ==> r == SortChunks(names)
  {
    if |names| <= 1 then
      assert SortChunks(names).Success? ==> SortBy(names, Ordinal) == names by {
        if SortChunks(names).Success? { SortBySorted(names, Ordinal); }
      }
      Success(names)
    else
      SortChunks(names)
  }

  /** The first `c`-separated piece of `a + b` is `a`, when `a` holds no `c`
      and `b` is empty or starts with `c`. */
  lemma SplitHead(a: string, c: char, b: string)
    requires c !in a
    requires b == [] || b[0] == c
    ensures Split(a + b, c)[0] == a
  {
    if b == [] {
      assert a + b == a;
    } else {
      assert a + b == a + [c] + b[1..];
      IndexOfAfter(a, c, b[1..]);
      assert (a + b)[..|a|] == a;
    }
  }

  /** The ordinal text of `pre + "_" + t + post` is `t` when `pre` holds no
      `_`, `t` holds neither separator, and `post` is empty or opens with one. */
  lemma OrdinalTextOf(pre: string, t: string, post: string)
    requires '_' !in pre && '_' !in t && '.' !in t
    requires post == [] || post[0] == '.' || post[0] == '_'
    ensures OrdinalText(pre + "_" + t + post) == Some(t)
  {
    var name := pre + "_" + t + post;
    assert name == pre + ['_'] + (t + post);
    IndexOfAfter(pre, '_', t + post);
    assert name[|pre| + 1..] == t + post;
    var p := Split(post, '_')[0];
    SplitFirstPiece(t, '_', post);
    SplitFirstPiece(t, '.', p);
    if post == [] || post[0] == '_' {
      SplitFirstEmpty(post, '_');
      SplitFirstEmpty(p, '.');
    } else {
      SplitFirst(post, '_');
      assert |p| > 0 && p[0] == post[0];
      SplitFirstEmpty(p, '.');
    }
    assert t + Split(p, '.')[0] == t;
  }

  /** The fixed parts of the chunk template. */
  lemma TemplateParts()
    ensures ChunkPrefix == "chunk" + "_"
    ensures '_' !in "chunk" && '_' !in ".wav" && ".wav"[0] == '.'
  {
  }

  /** A numeral holds neither separator. */
  lemma DigitsHoldNoSeparator(t: string)
    requires AllDigits(t)
    ensures '_' !in t && '.' !in t
  {
    assert forall i :: 0 <= i < |t| ==> IsDigit(t[i]);
  }

  /** A name whose ordinal text is a run of ASCII digits has that run's
      base-10 value as its key, whatever the rest of the name holds (a stale
      `chunk_5.wav` keys as 5, `chunk_007_old.wav` as 7). */
  lemma SortKeyOfDigits(pre: string, t: string, post: string)
    requires '_' !in pre && |t| > 0 && AllDigits(t)
    requires post == [] || post[0] == '.' || post[0] == '_'
    ensures SortKey(pre + "_" + t + post) == Success(DigitsValue(t))
  {
    DigitsHoldNoSeparator(t);
    OrdinalTextOf(pre, t, post);
    ParseDigits(t);
  }

  /** A name whose ordinal text holds a character that `int()` can neither
      read nor skip has no key: the sort fails with that text. */
  lemma SortKeyOfForeign(pre: string, t: string, post: string, k: int)
    requires '_' !in pre && '_' !in t && '.' !in t
    requires post == [] || post[0] == '.' || post[0] == '_'
    requires 0 <= k < |t|
    requires !IsDigit(t[k]) && t[k] != '+' && t[k] != '-' && !IsIntSpace(t[k])
    ensures SortKey(pre + "_" + t + post) == Failure(InvalidOrdinal(pre + "_" + t + post, t))
  {
    OrdinalTextOf(pre, t, post);
    ParseRejectsForeign(t, k);
  }

  /** The key of a name is `v` exactly when the name has a `_` and its
      ordinal text is a numeral `int()` reads as `v`: a sign is allowed,
      as is whitespace that `int()` skips around the digits. */
  lemma SortKeyMeaning(name: string, v: int)
    ensures SortKey(name) == Success(v) <==> '_' in name && Numeral(OrdinalText(name).value, v)
  {
    if '_' in name {
      ParseIntMeaning(OrdinalText(name).value, v);
    }
  }

  /** A name with a `_` has no key exactly when its ordinal text is no
      numeral at all; the error then carries that text. */
  lemma SortKeyInvalid(name: string)
    requires '_' in name
    ensures SortKey(name).Failure? <==> forall v :: !Numeral(OrdinalText(name).value, v)
    ensures SortKey(name).Failure? ==> SortKey(name) == Failure(InvalidOrdinal(name, OrdinalText(name).value))
  {
    var t := OrdinalText(name).value;
    if SortKey(name).Failure? {
      forall v
        ensures !Numeral(t, v)
      {
        ParseIntMeaning(t, v);
      }
    } else {
      ParseIntMeaning(t, SortKey(name).value);
    }
  }

  /** A name whose ordinal text is a signed numeral keys as its value. */
  lemma SortKeyOfSigned(pre: string, t: string, post: string, v: int)
    requires '_' !in pre && '_' !in t && '.' !in t
    requires post == [] || post[0] == '.' || post[0] == '_'
    requires SignedDigits(t, v)
    ensures SortKey(pre + "_" + t + post) == Success(v)
  {
    OrdinalTextOf(pre, t, post);
    assert t[0..|t|] == t;
    ParseNumeral(t, 0, |t|, v);
  }

  /** A signed ordinal is read with its sign. */
  lemma SignedOrdinalKey()
    ensures SortKey("chunk_-1.wav") == Success(-1)
  {
    assert "chunk_-1.wav" == "chunk" + "_" + "-1" + ".wav";
    MinusOne();
    SortKeyOfSigned("chunk", "-1", ".wav", -1);
  }

  /** Digits split by a space are no numeral, although each side is one. */
  lemma InnerSpaceKey()
    ensures SortKey("chunk_1 2.wav") == Failure(InvalidOrdinal("chunk_1 2.wav", "1 2"))
  {
    assert "chunk_1 2.wav" == "chunk" + "_" + "1 2" + ".wav";
    OrdinalTextOf("chunk", "1 2", ".wav");
    InnerSpaceRejected();
  }

  /** Every name the segmenter writes reads back as its own ordinal. */
  lemma SortKeyOfChunkName(n: nat)
    ensures SortKey(ChunkName(n)) == Success(n)
    ensures Ordinal(ChunkName(n)) == n
  {
    var t := ZeroPad(Decimal(n), 3);
    PaddedDigits(n, 3);
    DigitsHoldNoSeparator(t);
    TemplateParts();
    assert '_' !in t + ".wav";
    OrdinalTextOf("chunk", t, ".wav");
    ParsePadded(n, 3);
  }

  /** Different ordinals give different chunk names. */
  lemma ChunkNameInjective(m: nat, n: nat)
    requires ChunkName(m) == ChunkName(n)
    ensures m == n
  {
    SortKeyOfChunkName(m);
    SortKeyOfChunkName(n);
  }

  /** Each name the segmenter writes for `n` segments has its position as
      its ordinal, and no two of them share one. */
  lemma SegmentNamesKeys(n: nat)
    ensures forall i :: 0 <= i < n ==> SortKey(SegmentNames(n)[i]) == Success(i)
    ensures SortedBy(SegmentNames(n), Ordinal)
    ensures KeyDetermines(multiset(SegmentNames(n)), Ordinal)
  {
    SegmentOrdinals(n);
    SegmentOrdinalsDistinct(n);
  }

  lemma SegmentOrdinals(n: nat)
    ensures forall i :: 0 <= i < n ==> SortKey(SegmentNames(n)[i]) == Success(i) && Ordinal(SegmentNames(n)[i]) == i
  {
    var target := SegmentNames(n);
    forall i | 0 <= i < n
      ensures SortKey(target[i]) == Success(i) && Ordinal(target[i]) == i
    {
      SortKeyOfChunkName(i);
    }
  }

  lemma SegmentOrdinalsDistinct(n: nat)
    requires forall i :: 0 <= i < n ==> Ordinal(SegmentNames(n)[i]) == i
    ensures KeyDetermines(multiset(SegmentNames(n)), Ordinal)
  {
    PositionKeysDetermine(SegmentNames(n), Ordinal);
  }

  /** Whatever order the directory lists them in, the chunks the segmenter
      wrote for `n` segments come out of the sort in playback order. */
  lemma RestoresSegmentOrder(names: seq<string>, n: nat)
    requires multiset(names) == multiset(SegmentNames(n))
    ensures SortChunks(names) == Success(SegmentNames(n))
  {
    var target := SegmentNames(n);
    SegmentNamesKeys(n);
    forall i | 0 <= i < |names|
      ensures SortKey(names[i]).Success?
    {
      assert names[i] in multiset(target);
    }
    SortedUnique(SortChunks(names).value, target, Ordinal);
  }

  /** Stability: chunks with equal ordinals (`chunk_1.wav`, `chunk_001.wav`)
      keep the order the listing gave them. */
  lemma SortChunksStable(names: seq<string>, k: int)
    requires SortChunks(names).Success?
    ensures WithKey(SortChunks(names).value, Ordinal, k) == WithKey(names, Ordinal, k)
  {
    SortByStable(names, Ordinal, k);
  }

  /** Sorting sorted chunks changes nothing. */
  lemma SortChunksIdempotent(names: seq<string>)
    requires SortChunks(names).Success?
    ensures SortChunks(SortChunks(names).value) == SortChunks(names)
  {
    var r := SortChunks(names).value;
    forall i | 0 <= i < |r|
      ensures SortKey(r[i]).Success?
    {
      assert r[i] in multiset(names);
    }
    SortBySorted(r, Ordinal);
  }

  /** When no two different names share an ordinal, the outcome does not
      depend on the order of the listing. */
  lemma SortChunksOrderIndependent(a: seq<string>, b: seq<string>)
    requires multiset(a) == multiset(b)
    requires KeyDetermines(multiset(a), Ordinal)
    ensures SortChunks(a).Success? <==> SortChunks(b).Success?
    ensures SortChunks(a).Success? ==> SortChunks(a) == SortChunks(b)
  {
    if SortChunks(a).Success? {
      forall i | 0 <= i < |b|
        ensures SortKey(b[i]).Success?
      {
        assert b[i] in multiset(a);
      }
    } else if SortChunks(b).Success? {
      forall i | 0 <= i < |a|
        ensures SortKey(a[i]).Success?
      {
        assert a[i] in multiset(b);
      }
    }
    SortByOrderIndependent(a, b, Ordinal);
  }

  lemma ExampleNumerals()
    ensures ZeroPad(Decimal(10), 3) == "010" && ZeroPad(Decimal(2), 3) == "002"
  {
    assert Decimal(10) == "10" && Decimal(2) == "2";
  }

  lemma ExampleNames()
    ensures ChunkName(10) == "chunk_010.wav" && ChunkName(2) == "chunk_002.wav"
  {
    ExampleNumerals();
  }

  /** Two names whose keys are in descending order are swapped. */
  lemma SortPair(a: string, b: string, m: int, n: int)
    requires n < m
    requires SortKey(a) == Success(m) && SortKey(b) == Success(n)
    ensures SortChunks([a, b]) == Success([b, a])
  {
    var names := [a, b];
    assert forall i :: 0 <= i < |names| ==> SortKey(names[i]).Success?;
    SortByPair(a, b, Ordinal);
  }

  /** Two segmenter chunks listed in descending order are swapped. */
  lemma SortTwoChunks(m: nat, n: nat)
    requires n < m
    ensures SortChunks([ChunkName(m), ChunkName(n)]) == Success([ChunkName(n), ChunkName(m)])
  {
    SortKeyOfChunkName(m);
    SortKeyOfChunkName(n);
    SortPair(ChunkName(m), ChunkName(n), m, n);
  }

  /** Two chunks listed out of order are swapped into ordinal order. */
  lemma SortChunksExample()
    ensures SortChunks(["chunk_010.wav", "chunk_002.wav"]) == Success(["chunk_002.wav", "chunk_010.wav"])
  {
    ExampleNames();
    SortTwoChunks(10, 2);
  }

  lemma MalformedText()
    ensures OrdinalText("chunk_abc") == Some("abc")
  {
    assert "chunk_abc" == "chunk" + "_" + "abc" + "";
    OrdinalTextOf("chunk", "abc", "");
  }

  lemma MalformedNumber()
    ensures ParseInt("abc") == None
  {
    ParseRejectsForeign("abc", 0);
  }

  lemma MalformedKey()
    ensures SortKey("chunk_abc") == Failure(InvalidOrdinal("chunk_abc", "abc"))
  {
    MalformedText();
    MalformedNumber();
  }

  /** An information separator before the digits is whitespace to `strip()`
      but not to `int()`, so the key fails. */
  lemma SeparatorKey()
    ensures SortKey("chunk_\U{1C}5.wav") == Failure(InvalidOrdinal("chunk_\U{1C}5.wav", "\U{1C}5"))
  {
    assert "chunk_\U{1C}5.wav" == "chunk" + "_" + "\U{1C}5" + ".wav";
    SortKeyOfForeign("chunk", "\U{1C}5", ".wav", 0);
  }

  /** A chunk name whose ordinal is not a number stops the sort. */
  lemma SortChunksMalformed()
    ensures SortChunks(["chunk_abc"]) == Failure(InvalidOrdinal("chunk_abc", "abc"))
  {
    MalformedKey();
  }

  /** As written, a path without `_` cannot even be "sorted" on its own: the key
      is computed for every element, so a one-element list fails too. */
  lemma SortChunksSinglePath(path: string)
    requires '_' !in path
    ensures SortChunks([path]) == Failure(MissingOrdinalField(path))
  {
  }

  /** The corrected ordering passes such a path through. */
  lemma OrderChunksSinglePath(path: string)
    ensures OrderChunks([path]) == Success([path])
  {
  }
}
