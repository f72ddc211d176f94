/** The transcript assembler: the per-chunk texts, in chunk order, joined into
    one transcript whose ends are stripped once. */
module Assembler {

  import opened Text

  /** What one chunk's text adds to the running transcript: the local model's
      text as it is, the remote service's text followed by one space. */
  function Fragment(text: string, local: bool): string {
    if local then text else text + " "
  }

  /** The running transcript after appending the fragments of `texts` in order. */
  function Joined(texts: seq<string>, local: bool): string {
    if |texts| == 0 then ""
    else Joined(texts[..|texts| - 1], local) + Fragment(texts[|texts| - 1], local)
  }

  /** Appending one more text adds its fragment at the end. */
  lemma JoinedSnoc(texts: seq<string>, t: string, local: bool)
    ensures Joined(texts + [t], local) == Joined(texts, local) + Fragment(t, local)
  {
    assert (texts + [t])[..|texts|] == texts;
  }

  /** The finished transcript: the joined fragments, stripped once. */
  function Assemble(texts: seq<string>, local: bool): (r: string)
    ensures exists i :: Span(Joined(texts, local), i, r)
    ensures Trimmed(r)
  {
    Strip(Joined(texts, local))
  }

  /** `"".join(texts)`. */
  function Concat(texts: seq<string>): string {
    if |texts| == 0 then "" else texts[0] + Concat(texts[1..])
  }

  /** `" ".join(texts)`. */
  function SpaceJoin(texts: seq<string>): string {
    if |texts| == 0 then ""
    else if |texts| == 1 then texts[0]
    else texts[0] + " " + SpaceJoin(texts[1..])
  }

  lemma {:induction false} ConcatSnoc(texts: seq<string>, t: string)
    ensures Concat(texts + [t]) == Concat(texts) + t
  {
    if |texts| > 0 {
      assert (texts + [t])[1..] == texts[1..] + [t];
      ConcatSnoc(texts[1..], t);
    }
  }

  lemma {:induction false} SpaceJoinSnoc(texts: seq<string>, t: string)
    requires |texts| > 0
    ensures SpaceJoin(texts + [t]) == SpaceJoin(texts) + " " + t
  {
    assert (texts + [t])[1..] == texts[1..] + [t];
    if |texts| > 1 {
      SpaceJoinSnoc(texts[1..], t);
    }
  }

  /** In local mode the running transcript is the plain concatenation of the
      texts. */
  lemma {:induction false} LocalJoinedIsConcat(texts: seq<string>)
    ensures Joined(texts, true) == Concat(texts)
  {
    if |texts| > 0 {
      var init := texts[..|texts| - 1];
      LocalJoinedIsConcat(init);
      ConcatSnoc(init, texts[|texts| - 1]);
      assert init + [texts[|texts| - 1]] == texts;
    }
  }

  /** In remote mode the running transcript is the texts joined by single
      spaces, plus one trailing space. */
  lemma {:induction false} RemoteJoinedIsSpaceJoin(texts: seq<string>)
    requires |texts| > 0
    ensures Joined(texts, false) == SpaceJoin(texts) + " "
  {
    var init := texts[..|texts| - 1];
    var last := texts[|texts| - 1];
    assert init + [last] == texts;
    if |init| > 0 {
      RemoteJoinedIsSpaceJoin(init);
      SpaceJoinSnoc(init, last);
    }
  }

  /** Local mode: the transcript is `"".join(texts).strip()`. */
  lemma AssembleLocal(texts: seq<string>)
    ensures Assemble(texts, true) == Strip(Concat(texts))
  {
    LocalJoinedIsConcat(texts);
  }

  /** Remote mode: the transcript is `" ".join(texts).strip()`; the space after
      the last text never survives. */
  lemma AssembleRemote(texts: seq<string>)
    ensures Assemble(texts, false) == Strip(SpaceJoin(texts))
  {
    if |texts| > 0 {
      RemoteJoinedIsSpaceJoin(texts);
      StripTrailingSpace(SpaceJoin(texts));
    }
  }

  /** No chunks, empty transcript. */
  lemma AssembleEmpty(local: bool)
    ensures Assemble([], local) == ""
  {
    assert Trimmed("");
    StripTrimmed("");
  }

  /** One chunk: its text, stripped, whichever the mode. */
  lemma AssembleSingle(text: string, local: bool)
    ensures Assemble([text], local) == Strip(text)
  {
    assert [text][..0] == [];
    assert Joined([text], local) == Fragment(text, local);
    if !local {
      StripTrailingSpace(text);
    }
  }

  /** Strip runs once, over the whole transcript: when the joined texts do not
      begin or end with whitespace, the transcript is exactly the join, with
      every fragment's own leading and trailing whitespace kept. */
  lemma AssembleKeepsInterior(texts: seq<string>, local: bool)
    requires Trimmed(if local then Concat(texts) else SpaceJoin(texts))
    ensures Assemble(texts, local) == (if local then Concat(texts) else SpaceJoin(texts))
  {
    if local {
      AssembleLocal(texts);
      StripTrimmed(Concat(texts));
    } else {
      AssembleRemote(texts);
      StripTrimmed(SpaceJoin(texts));
    }
  }

  lemma HelloWorldText()
    ensures Concat(["Hello ", "world"]) == "Hello world"
    ensures Trimmed("Hello world") && Trimmed("Hello") && Trimmed("world")
    ensures "Hello " == "Hello" + " " && "Hello" + "world" == "Helloworld"
  {
    assert Concat(["world"]) == "world";
  }

  /** Stripping each fragment instead would lose the space between these two
      texts; stripping once keeps it. */
  lemma AssembleKeepsInnerSpace()
    ensures Assemble(["Hello ", "world"], true) == "Hello world"
    ensures Strip("Hello ") + Strip("world") == "Helloworld"
  {
    HelloWorldText();
    AssembleKeepsInterior(["Hello ", "world"], true);
    StripTrailingSpace("Hello");
    StripTrimmed("Hello");
    StripTrimmed("world");
  }
}
