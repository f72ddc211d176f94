/** The transcription pipeline: plan the split, list the chunk files, order
    them by their ordinal, transcribe each with the chosen back end and
    assemble the transcript. The audio tools, the file system and the
    transcription back ends are parameters. */
module Pipeline {

  import opened Wrappers
  import opened Errors
  import opened Text
  import opened Planner
  import opened Sequencer
  import opened Assembler
  import opened Sorting

  /** Where the extracted audio is written under the default output folder. */
  const DefaultAudioPath: string := "./output/audio.wav"

  /** A transcription back end: maps a chunk file name to its text, or to
      `None` when the call raises. The local model's text is appended as it
      is; the remote service's text is followed by one space. */
  datatype Backend =
    | Local(run: string -> Option<string>)
    | Remote(run: string -> Option<string>)

  /** The files the transcriber is given for one audio file: the audio file
      itself when it fits under the ceiling, otherwise the chunk files that
      the directory listing taken after segmentation shows. */
  function SplitAudio(audioPath: string, sizeBytes: nat, maxSizeMb: int, totalDuration: real,
                      listing: seq<string>): (r: Result<seq<string>, Error>)
    ensures sizeBytes <= ByteCeiling(maxSizeMb) ==> r == Success([audioPath])
    ensures sizeBytes > ByteCeiling(maxSizeMb) && r.Success? ==> r.value == ChunkFiles(listing)
    ensures maxSizeMb > 0 ==> r.Success?
    ensures r.Failure? <==> sizeBytes > ByteCeiling(maxSizeMb) && (maxSizeMb == 0 || sizeBytes < -ByteCeiling(maxSizeMb))
    ensures r.Failure? ==> r.error == ZeroDivision
  {
    match Plan(sizeBytes, maxSizeMb, totalDuration)
    case Failure(e) => Failure(e)
    case Success(Whole) => Success([audioPath])
    case Success(Segments(_, _)) => Success(ChunkFiles(listing))
  }

  /** Chunk `k` is the first one whose back end call fails. */
  ghost predicate FirstFailedAt(chunks: seq<string>, backend: Backend, k: int) {
    0 <= k < |chunks| && backend.run(chunks[k]).None?
    && forall j :: 0 <= j < k ==> backend.run(chunks[j]).Some?
  }

  /** The run ends with `e` because of the first failing chunk. */
  ghost predicate FailsWith(chunks: seq<string>, backend: Backend, e: Error) {
    exists k :: FirstFailedAt(chunks, backend, k) && e == TranscriptionFailed(chunks[k])
  }

  /** The back end's text for each chunk, in order; the first failing call
      ends the run. */
  function TextsOf(chunks: seq<string>, backend: Backend): (r: Result<seq<string>, Error>)
    ensures r.Success? <==> forall i :: 0 <= i < |chunks| ==> backend.run(chunks[i]).Some?
    ensures r.Success? ==> |r.value| == |chunks|
    ensures r.Success? ==> forall i :: 0 <= i < |chunks| ==> backend.run(chunks[i]) == Some(r.value[i])
    ensures r.Failure? ==> FailsWith(chunks, backend, r.error)
  {
    if |chunks| == 0 then Success([])
    else
      var init := chunks[..|chunks| - 1];
      var last := chunks[|chunks| - 1];
      assert forall j :: 0 <= j < |init| ==> chunks[j] == init[j];
      match TextsOf(init, backend)
      case Failure(e) =>
        FirstFailureKept(chunks, backend, e);
        Failure(e)
      case Success(ts) =>
        match backend.run(last)
        case None =>
          assert FirstFailedAt(chunks, backend, |init|);
          assert FailsWith(chunks, backend, TranscriptionFailed(last));
          Failure(TranscriptionFailed(last))
        case Some(t) => Success(ts + [t])
  }

  lemma FirstFailureKept(chunks: seq<string>, backend: Backend, e: Error)
    requires |chunks| > 0
    requires FailsWith(chunks[..|chunks| - 1], backend, e)
    ensures FailsWith(chunks, backend, e)
  {
    var init := chunks[..|chunks| - 1];
    var k :| FirstFailedAt(init, backend, k) && e == TranscriptionFailed(init[k]);
    assert FirstFailedAt(chunks, backend, k);
  }

  /** The transcript of chunks already in order. */
  function Transcript(sorted: seq<string>, backend: Backend): (r: Result<string, Error>)
    ensures r.Success? <==> forall i :: 0 <= i < |sorted| ==> backend.run(sorted[i]).Some?
    ensures r.Failure? ==> FailsWith(sorted, backend, r.error)
    ensures r.Success? ==>
      exists texts :: |texts| == |sorted|
        && (forall i :: 0 <= i < |sorted| ==> backend.run(sorted[i]) == Some(texts[i]))
        && r.value == Assemble(texts, backend.Local?)
  {
    match TextsOf(sorted, backend)
    case Failure(e) => Failure(e)
    case Success(texts) => Success(Assemble(texts, backend.Local?))
  }

  /** After `i` chunks the loop has text for each of them, and `combined`
      holds their fragments in order. */
  ghost predicate Progress(sorted: seq<string>, backend: Backend, i: nat, combined: string) {
    i <= |sorted|
    && exists done :: TextsOf(sorted[..i], backend) == Success(done) && combined == Joined(done, backend.Local?)
  }

  lemma ProgressStart(sorted: seq<string>, backend: Backend)
    ensures Progress(sorted, backend, 0, "")
  {
    assert sorted[..0] == [];
    assert TextsOf(sorted[..0], backend) == Success([]);
  }

  lemma ProgressStep(sorted: seq<string>, backend: Backend, i: nat, combined: string, t: string)
    requires i < |sorted| && Progress(sorted, backend, i, combined)
    requires backend.run(sorted[i]) == Some(t)
    ensures Progress(sorted, backend, i + 1, combined + Fragment(t, backend.Local?))
  {
    var done :| TextsOf(sorted[..i], backend) == Success(done) && combined == Joined(done, backend.Local?);
    assert sorted[..i + 1][..i] == sorted[..i];
    assert TextsOf(sorted[..i + 1], backend) == Success(done + [t]);
    JoinedSnoc(done, t, backend.Local?);
  }

  lemma ProgressFails(sorted: seq<string>, backend: Backend, i: nat, combined: string)
    requires i < |sorted| && Progress(sorted, backend, i, combined)
    requires backend.run(sorted[i]).None?
    ensures Transcript(sorted, backend) == Failure(TranscriptionFailed(sorted[i]))
  {
    assert forall j :: 0 <= j < i ==> sorted[..i][j] == sorted[j];
    var r := TextsOf(sorted, backend);
    var k :| FirstFailedAt(sorted, backend, k) && r.error == TranscriptionFailed(sorted[k]);
  }

  lemma ProgressDone(sorted: seq<string>, backend: Backend, combined: string)
    requires Progress(sorted, backend, |sorted|, combined)
    ensures Transcript(sorted, backend) == Success(Strip(combined))
  {
    assert sorted[..|sorted|] == sorted;
  }

  /** Transcribes the chunks in the order given, one back end call per chunk,
      appending each text to the running transcript, and strips the result
      once at the end. */
  method TranscribeSorted(sorted: seq<string>, backend: Backend) returns (r: Result<string, Error>)
    ensures r.Success? <==> forall i :: 0 <= i < |sorted| ==> backend.run(sorted[i]).Some?
    ensures r.Failure? ==> FailsWith(sorted, backend, r.error)
    ensures r == Transcript(sorted, backend)
  {
    var combined := "";
    var i := 0;
    ProgressStart(sorted, backend);
    while i < |sorted|
      invariant Progress(sorted, backend, i, combined)
    {
      var transcript := backend.run(sorted[i]);
      if transcript.None? {
        ProgressFails(sorted, backend, i, combined);
        return Failure(TranscriptionFailed(sorted[i]));
      }
      ProgressStep(sorted, backend, i, combined, transcript.value);
      if backend.Local? {
        combined := combined + transcript.value;
      } else {
        combined := combined + transcript.value + " ";
      }
      i := i + 1;
    }
    ProgressDone(sorted, backend, combined);
    return Success(Strip(combined));
  }

  /** A reordering calls the back end on the same files. */
  lemma ReorderedCalls(chunks: seq<string>, sorted: seq<string>, backend: Backend)
    requires multiset(sorted) == multiset(chunks)
    ensures (forall j :: 0 <= j < |sorted| ==> backend.run(sorted[j]).Some?)
        ==> forall i :: 0 <= i < |chunks| ==> backend.run(chunks[i]).Some?
  {
    if forall j :: 0 <= j < |sorted| ==> backend.run(sorted[j]).Some? {
      forall i | 0 <= i < |chunks|
        ensures backend.run(chunks[i]).Some?
      {
        assert chunks[i] in multiset(sorted);
        var j :| 0 <= j < |sorted| && sorted[j] == chunks[i];
      }
    }
  }

  /** The transcriber as written: sort every file by its ordinal, then
      transcribe in that order. */
  function TranscribeAudioChunks(chunks: seq<string>, backend: Backend): (r: Result<string, Error>)
    ensures r.Success? <==> forall i :: 0 <= i < |chunks| ==>
      SortKey(chunks[i]).Success? && backend.run(chunks[i]).Some?
    ensures (forall i :: 0 <= i < |chunks| ==> SortKey(chunks[i]).Success?) ==>
      exists sorted :: SortedPermutation(sorted, chunks) && r == Transcript(sorted, backend)
  {
    match SortChunks(chunks)
    case Failure(e) => Failure(e)
    case Success(sorted) =>
      ReorderedCalls(chunks, sorted, backend);
      ReorderedCalls(sorted, chunks, backend);
      assert SortedPermutation(sorted, chunks);
      Transcript(sorted, backend)
  }

  /** `sorted` holds the files of `chunks` in non-decreasing ordinal order. */
  ghost predicate SortedPermutation(sorted: seq<string>, chunks: seq<string>) {
    multiset(sorted) == multiset(chunks) && SortedBy(sorted, Ordinal)
  }

  /** `transcribe_audio` as written: split, then transcribe. */
  function TranscribeAudio(audioPath: string, sizeBytes: nat, maxSizeMb: int, totalDuration: real,
                           listing: seq<string>, backend: Backend): (r: Result<string, Error>)
    ensures sizeBytes <= ByteCeiling(maxSizeMb) ==> r == TranscribeAudioChunks([audioPath], backend)
    ensures maxSizeMb > 0 && sizeBytes > ByteCeiling(maxSizeMb) ==>
      r == TranscribeAudioChunks(ChunkFiles(listing), backend)
    ensures r == Failure(ZeroDivision) <==>
      sizeBytes > ByteCeiling(maxSizeMb) && (maxSizeMb == 0 || sizeBytes < -ByteCeiling(maxSizeMb))
  {
    match SplitAudio(audioPath, sizeBytes, maxSizeMb, totalDuration, listing)
    case Failure(e) => Failure(e)
    case Success(chunks) => TranscribeAudioChunks(chunks, backend)
  }

  /** The transcriber with a single file passed through unsorted. */
  function TranscribeAudioChunksCorrected(chunks: seq<string>, backend: Backend): (r: Result<string, Error>)
    ensures |chunks| <= 1 ==> r == Transcript(chunks, backend)
    ensures r.Success? <==>
      (|chunks| <= 1 || forall i :: 0 <= i < |chunks| ==> SortKey(chunks[i]).Success?)
      && forall i :: 0 <= i < |chunks| ==> backend.run(chunks[i]).Some?
    ensures TranscribeAudioChunks(chunks, backend).Success? ==> r == TranscribeAudioChunks(chunks, backend)
  {
    match OrderChunks(chunks)
    case Failure(e) => Failure(e)
    case Success(sorted) =>
      ReorderedCalls(chunks, sorted, backend);
      ReorderedCalls(sorted, chunks, backend);
      Transcript(sorted, backend)
  }

  /** `transcribe_audio` with the corrected transcriber. */
  function TranscribeAudioCorrected(audioPath: string, sizeBytes: nat, maxSizeMb: int, totalDuration: real,
                                    listing: seq<string>, backend: Backend): (r: Result<string, Error>)
    ensures sizeBytes <= ByteCeiling(maxSizeMb) ==> r == Transcript([audioPath], backend)
    ensures maxSizeMb > 0 && sizeBytes > ByteCeiling(maxSizeMb) ==>
      r == TranscribeAudioChunksCorrected(ChunkFiles(listing), backend)
    ensures r == Failure(ZeroDivision) <==>
      sizeBytes > ByteCeiling(maxSizeMb) && (maxSizeMb == 0 || sizeBytes < -ByteCeiling(maxSizeMb))
  {
    match SplitAudio(audioPath, sizeBytes, maxSizeMb, totalDuration, listing)
    case Failure(e) => Failure(e)
    case Success(chunks) => TranscribeAudioChunksCorrected(chunks, backend)
  }

  /** The first file whose key cannot be computed ends the run with that
      key's error, before any back end call, whichever the back end. */
  lemma BadKeyStopsRun(chunks: seq<string>, backend: Backend, k: int)
    requires FirstBadKeyAt(chunks, k)
    ensures TranscribeAudioChunks(chunks, backend) == Failure(SortKey(chunks[k]).error)
  {
    var r := SortChunks(chunks);
    assert !SortKey(chunks[k]).Success?;
    assert r.Failure?;
    var k' :| FirstBadKeyAt(chunks, k') && SortKey(chunks[k']) == Failure(r.error);
    FirstBadKeyUnique(chunks, k, k');
    assert TranscribeAudioChunks(chunks, backend) == Failure(r.error);
  }

  /** When the chunk files left in the directory are exactly the segments the
      split wrote (in any listing order), the transcript is that of the
      segments in playback order. */
  lemma SegmentedRunInPlaybackOrder(audioPath: string, sizeBytes: nat, maxSizeMb: int, totalDuration: real,
                                    listing: seq<string>, backend: Backend, n: nat)
    requires maxSizeMb > 0 && sizeBytes > ByteCeiling(maxSizeMb)
    requires multiset(ChunkFiles(listing)) == multiset(SegmentNames(n))
    ensures TranscribeAudio(audioPath, sizeBytes, maxSizeMb, totalDuration, listing, backend)
         == Transcript(SegmentNames(n), backend)
    ensures TranscribeAudioCorrected(audioPath, sizeBytes, maxSizeMb, totalDuration, listing, backend)
         == Transcript(SegmentNames(n), backend)
  {
    RestoresSegmentOrder(ChunkFiles(listing), n);
  }

  /** Wherever the transcriber as written produces a result, the corrected one
      produces the same result. */
  lemma CorrectedAgrees(audioPath: string, sizeBytes: nat, maxSizeMb: int, totalDuration: real,
                        listing: seq<string>, backend: Backend)
    requires TranscribeAudio(audioPath, sizeBytes, maxSizeMb, totalDuration, listing, backend).Success?
    ensures TranscribeAudioCorrected(audioPath, sizeBytes, maxSizeMb, totalDuration, listing, backend)
         == TranscribeAudio(audioPath, sizeBytes, maxSizeMb, totalDuration, listing, backend)
  {
    var chunks := SplitAudio(audioPath, sizeBytes, maxSizeMb, totalDuration, listing).value;
    assert SortChunks(chunks).Success?;
  }

  /** As written: an audio file under the ceiling is handed on alone, its
      path has no `_`, and computing its sort key fails, so the run ends with
      that error and no transcript, whichever the back end. */
  lemma NoSplitRunFails(audioPath: string, sizeBytes: nat, maxSizeMb: int, totalDuration: real,
                        listing: seq<string>, backend: Backend)
    requires sizeBytes <= ByteCeiling(maxSizeMb)
    requires '_' !in audioPath
    ensures TranscribeAudio(audioPath, sizeBytes, maxSizeMb, totalDuration, listing, backend)
         == Failure(MissingOrdinalField(audioPath))
  {
    SortChunksSinglePath(audioPath);
  }

  lemma DefaultPathHasNoField()
    ensures '_' !in DefaultAudioPath
  {
  }

  /** As written, with the default folder and ceiling: any audio file of at
      most 24 MiB ends the run with a missing-field error. */
  lemma DefaultNoSplitRunFails(sizeBytes: nat, totalDuration: real, listing: seq<string>, backend: Backend)
    requires sizeBytes <= 25165824
    ensures TranscribeAudio(DefaultAudioPath, sizeBytes, DefaultMaxSizeMb, totalDuration, listing, backend)
         == Failure(MissingOrdinalField(DefaultAudioPath))
  {
    DefaultCeiling();
    DefaultPathHasNoField();
    NoSplitRunFails(DefaultAudioPath, sizeBytes, DefaultMaxSizeMb, totalDuration, listing, backend);
  }

  /** Corrected: an audio file under the ceiling is transcribed whole, and the
      transcript is the back end's text for it, stripped. */
  lemma NoSplitRunTranscribes(audioPath: string, sizeBytes: nat, maxSizeMb: int, totalDuration: real,
                              listing: seq<string>, backend: Backend)
    requires sizeBytes <= ByteCeiling(maxSizeMb)
    ensures TranscribeAudioCorrected(audioPath, sizeBytes, maxSizeMb, totalDuration, listing, backend)
         == match backend.run(audioPath)
            case None => Failure(TranscriptionFailed(audioPath))
            case Some(t) => Success(Strip(t))
  {
    OrderChunksSinglePath(audioPath);
    var r := TextsOf([audioPath], backend);
    assert [audioPath][..0] == [];
    if backend.run(audioPath).Some? {
      AssembleSingle(backend.run(audioPath).value, backend.Local?);
    }
  }
}
