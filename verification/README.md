# ai-summary-cli: audio chunking and transcript assembly

This project models the part of `app.py` that turns one extracted audio file
into one transcript:

- **Chunk planner** (`split_audio`): given the file size in bytes, a ceiling
  in MiB and the total duration, the file is either used whole or split into
  `ceil(size / ceiling)` segments of equal duration. After segmentation, the
  chunk files are whatever the directory listing shows with the `chunk_`
  prefix.
- **Chunk sequencer** (the sort in `transcribe_audio_chunks`): the files are
  sorted by the integer `int(name.split('_')[1].split('.')[0])`. The key is
  partial. A name with no `_` raises `IndexError`. A non-numeric field
  raises `ValueError`.
- **Transcript assembler** (the loop in `transcribe_audio_chunks`): each
  chunk's text comes from a back end, taken in sorted order. The local model's
  text is appended as is. The remote service's text is appended followed by
  one space. The result is stripped once at the end.
- **Pipeline** (`transcribe_audio`): split, then transcribe.

Modules:

- `Wrappers`: `Option` and `Result`.
- `Errors`: the exceptions the core can raise.
- `Text`: Python's `str.strip` over the `str.isspace` set, `str.split` and
  `str.startswith`.
- `Numerals`: base-10 `int()` and the `%03d` numerals of the chunk template.
- `Sorting`: a stable sort by an integer key.
- `Planner`, `Sequencer`, `Assembler` and `Pipeline`: the four components
  above.

The external tools (ffprobe, ffmpeg), the file system and the transcription
back ends are parameters: the size, the duration, the directory listing, and
a `Backend` holding a function from a chunk name to its text. `None` stands
for a call that raises.

Behaviour of the code that the model keeps as written:

- **The no-split case.** A file under the ceiling is passed on as the only
  chunk, and its sort key is then computed, which fails. See Findings.
- **The duration is not checked.** The code divides it as given. The only
  failures the planner arithmetic can raise are division by zero:
  - when the ceiling is 0;
  - when a negative ceiling makes the chunk count 0.
- **No-split result.** The no-split branch returns the path alone, with no
  chunk count. The model's `Whole` plan carries nothing.
- **Malformed names.** The key raises `IndexError` or `ValueError`, and the
  model keeps the two apart: `MissingOrdinalField` and `InvalidOrdinal`.

## Model

| member | source | states |
|---|---|---|
| Planner.DefaultCeiling | app.py:80-83 | The default ceiling of 24 MiB is 25165824 bytes, exactly one MiB under the 25 MiB payload limit. |
| Planner.CeilDiv | app.py:101 | For a positive ceiling, the count is the least `n` with `n * ceiling >= size`: `(n-1)*ceiling < size <= n*ceiling`. For a negative ceiling, it is the matching ceiling of a negative quotient. |
| Planner.Plan | app.py:80-103 | `Whole` exactly when the size is at most the ceiling. Division by zero exactly when the size exceeds a zero ceiling, or a negative ceiling yields a zero count. For a positive ceiling above it: a count of at least 2 with `(n-1)*ceiling < size <= n*ceiling`. `duration * n == total`, and `0 <= duration <= total` for a non-negative total. |
| Planner.PlanFiftyMiB | app.py:97-102 | A 50 MiB file of 600 s under the default ceiling gives 3 segments of 200.0 s. |
| Planner.PlanTenMiB | app.py:97-99 | A 10 MiB file under the default ceiling is not split. |
| Pipeline.SplitAudio | app.py:80-115 | At most the ceiling: exactly `[audio_path]`. Above a positive ceiling: the listing's `chunk_` files. Fails only with division by zero, and exactly in the planner's cases. |
| Sequencer.ChunkFiles | app.py:113 | Each name of the listing with the `chunk_` prefix occurs in the result as often as in the listing; no other name occurs. |
| Sequencer.ChunkFilesSingle | app.py:113 | A one-entry listing keeps its entry exactly when it has the `chunk_` prefix. |
| Sequencer.ChunkFilesAppend | app.py:113 | Filtering two listings and concatenating the results is filtering their concatenation, so the kept files stay in listing order. |
| Text.Strip | app.py:138 | The result is a window of the input with only whitespace outside it, and it has no whitespace at either end. |
| Text.SpanUnique | app.py:138 | Two windows that are both trimmed and have only whitespace outside them are the same string, so the strip is unique. |
| Text.StripWindow | app.py:138 | A trimmed window with only whitespace around it is what strip returns. |
| Text.StripIdempotent | app.py:138 | Stripping twice is stripping once. |
| Text.StripAppendSpace | app.py:137-138 | Appending any whitespace character leaves the strip unchanged. |
| Text.StripTrailingSpace | app.py:137-138 | One extra trailing space does not change the strip. |
| Text.IndexOf | app.py:122 | Absent exactly when the character does not occur; otherwise it is the first occurrence. |
| Text.Split | app.py:122 | At least one piece, no piece holds the separator, and joining the pieces with the separator gives back the input. |
| Text.SplitJoin | app.py:122 | Splitting a separator-free join recovers the pieces. |
| Numerals.Decimal | app.py:106 | The numeral is non-empty, all digits, without a leading zero, and reads back as the number. |
| Numerals.ParseDigits | app.py:122 | `int()` of a non-empty run of ASCII digits is its base-10 value, leading zeros included. |
| Numerals.ParsePadded | app.py:106 | Every zero-padded numeral written by the `chunk_%03d` template parses back to its number under `int()`. |
| Numerals.ParseSurrounded | app.py:122 | `int()` of a run of ASCII digits with whitespace that `int()` skips on either side is the digits' base-10 value. That whitespace is `str.isspace` without the separators U+001C..U+001F. |
| Numerals.ParseIntSound | app.py:122 | Whatever `int()` accepts is a numeral of that value. A numeral is whitespace that `int()` skips, an optional `+` or `-`, a non-empty run of ASCII digits, then that whitespace again. |
| Numerals.ParseNumeral | app.py:122 | Every such numeral is accepted by `int()`, with its signed base-10 value. |
| Numerals.ParseIntMeaning | app.py:122 | `int(text)` is `v` exactly when `text` is a numeral denoting `v`. |
| Numerals.InnerSpaceRejected | app.py:122 | `int("1 2")` raises: whitespace is skipped only around the numeral. |
| Numerals.ParseRejectsForeign | app.py:122 | A text holding a character that is not an ASCII digit, not a sign, and not whitespace that `int()` skips is rejected by `int()`. This includes the separators U+001C..U+001F, which `strip()` would remove. |
| Sorting.Insert | app.py:122 | Inserting into a sorted sequence adds exactly that element and keeps the sequence sorted by the key. |
| Sorting.SortBy | app.py:122 | The result is a permutation of the input and non-decreasing by the key. |
| Sorting.SortByStable | app.py:122 | Elements with equal keys keep their input order, as Python's sort promises. |
| Sorting.SortBySorted | app.py:122 | Sorting an already sorted sequence returns it unchanged. |
| Sorting.SortedUnique | app.py:122 | Two sorted permutations of one multiset are equal when the key determines the element. |
| Sorting.SortByOrderIndependent | app.py:122 | When keys determine elements, the result does not depend on the input order. |
| Sequencer.OrdinalText | app.py:122 | Absent exactly when the name has no `_`. Otherwise it is the text that starts right after the first `_` and runs up to the next `_`, the next `.` or the end of the name, and it holds neither. |
| Sequencer.OrdinalTextIsSecondField | app.py:122 | For a name with a `_`, the ordinal text is the first `.`-field of the second `_`-field, as the expression reads. |
| Sequencer.OrdinalTextOf | app.py:122 | The ordinal text of `pre + "_" + t + post` is `t` when `pre` has no `_`, `t` has no `_` or `.`, and `post` is empty or starts with `_` or `.`. |
| Sequencer.SortKey | app.py:122 | The key fails with the missing-field error exactly when the name has no `_`. Every other failure is an invalid ordinal. |
| Sequencer.SortKeyOfDigits | app.py:122 | A name whose ordinal text is a run of ASCII digits keys as the digits' base-10 value. This holds for any such name, stale files such as `chunk_5.wav` included. |
| Sequencer.SortKeyOfForeign | app.py:122 | A name whose ordinal text holds a character that `int()` can neither read nor skip fails with the invalid-ordinal error for that text. |
| Sequencer.SortKeyMeaning | app.py:122 | The key is `v` exactly when the name has a `_` and its ordinal text is a numeral denoting `v`. |
| Sequencer.SortKeyInvalid | app.py:122 | For a name with a `_`, the key fails exactly when its ordinal text is no numeral at all, and then with the invalid-ordinal error for that text. |
| Sequencer.SortKeyOfSigned | app.py:122 | A name whose ordinal text is a signed numeral keys as its signed value. |
| Sequencer.SignedOrdinalKey | app.py:122 | `chunk_-1.wav` keys as -1. |
| Sequencer.InnerSpaceKey | app.py:122 | The key of `chunk_1 2.wav` fails as an invalid ordinal with the text `1 2`. |
| Sequencer.SeparatorKey | app.py:122 | The key of `chunk_\x1c5.wav` fails as an invalid ordinal, although `strip()` would remove the `\x1c`. |
| Sequencer.KeysOf | app.py:122 | Every key is computed before sorting. Success exactly when every key exists. A failure is the error of the first name whose key fails. |
| Sequencer.SortChunks | app.py:122 | Success exactly when every key exists; otherwise the first failing key's error. On success, a permutation of the input, non-decreasing by ordinal. |
| Sequencer.SortKeyOfChunkName | app.py:122 | The key of `chunk_NNN.wav` is `NNN`, e.g. `chunk_007.wav` gives 7. |
| Sequencer.ChunkNameInjective | app.py:106 | Distinct segment numbers give distinct file names. |
| Sequencer.SegmentNamesKeys | app.py:122 | The segment names have keys 0, 1, ... in order, and each key belongs to only one name. |
| Sequencer.RestoresSegmentOrder | app.py:122 | Any listing order of the written segments is sorted back into creation order. |
| Sequencer.SortChunksStable | app.py:122 | Names with equal ordinals keep their listing order. |
| Sequencer.SortChunksIdempotent | app.py:122 | Sorting the sorted chunk list again changes nothing. |
| Sequencer.SortChunksOrderIndependent | app.py:122 | When ordinals identify names, two listings of the same names sort to the same list, or both fail. |
| Sequencer.SortTwoChunks | app.py:122 | Two segment names listed out of order are swapped. |
| Sequencer.SortChunksExample | app.py:122 | `["chunk_010.wav", "chunk_002.wav"]` sorts to `["chunk_002.wav", "chunk_010.wav"]`. |
| Sequencer.MalformedKey | app.py:122 | The key of `chunk_abc` fails as an invalid ordinal with the text `abc`. |
| Sequencer.SortChunksMalformed | app.py:122 | Sorting `["chunk_abc"]` fails with that invalid-ordinal error. |
| Sequencer.SortChunksSinglePath | app.py:122 | Sorting a single name without `_` fails with the missing-field error. |
| Sequencer.OrderChunks | app.py:122 | Corrected sort: at most one name passes through unchanged. Otherwise it is the sort as written, and it agrees with that sort wherever the sort succeeds. |
| Sequencer.OrderChunksSinglePath | app.py:122 | Corrected sort: any single name passes through. |
| Assembler.Assemble | app.py:138 | The transcript is a window of the joined fragments with only whitespace outside it, and it has no whitespace at either end. |
| Assembler.LocalJoinedIsConcat | app.py:129-132 | In local mode the running transcript is the plain concatenation of the texts in order. |
| Assembler.RemoteJoinedIsSpaceJoin | app.py:134-137 | In remote mode, the running transcript is the texts joined by single spaces, plus one trailing space. |
| Assembler.AssembleLocal | app.py:123-138 | Local transcript: `strip(t1 + ... + tn)`. |
| Assembler.AssembleRemote | app.py:123-138 | Remote transcript: `strip(t1 + " " + ... + " " + tn)`; the last space never survives. |
| Assembler.AssembleEmpty | app.py:123-138 | No chunks give the empty transcript. |
| Assembler.AssembleSingle | app.py:123-138 | One chunk gives its text stripped, in either mode. |
| Assembler.AssembleKeepsInterior | app.py:138 | Strip runs once over the whole join. When the join has no outer whitespace, it is returned exactly, with each fragment's own whitespace kept. |
| Assembler.AssembleKeepsInnerSpace | app.py:138 | Local `["Hello ", "world"]` gives `"Hello world"`; stripping per fragment would give `"Helloworld"`. |
| Pipeline.TextsOf | app.py:124-137 | Success exactly when every back end call succeeds, with one text per chunk in order. A failure names the first chunk whose call fails. |
| Pipeline.Transcript | app.py:123-138 | Success exactly when every call succeeds. The value is the assembly of the per-chunk texts in the given order. A failure names the first failing chunk. |
| Pipeline.TranscribeSorted | app.py:123-138 | The loop: success exactly when every back end call succeeds, and a failure names the first failing chunk. Its result equals `Pipeline.Transcript`: the assembly of the per-chunk texts in the given order. |
| Pipeline.TranscribeAudioChunks | app.py:118-138 | Success exactly when every file has a key and every file's back end call succeeds. When every key exists, the result is the transcript of a non-decreasing ordinal reordering of the files, including that transcript's first back end failure. |
| Pipeline.TranscribeAudio | app.py:64-67 | At most the ceiling: the transcript of the single path, sorted as written. Above a positive ceiling: the transcript of the listing's `chunk_` files. Division by zero exactly in the planner's cases. |
| Pipeline.TranscribeAudioChunksCorrected | app.py:118-138 | Corrected transcriber: at most one file is transcribed as it is. Success exactly when every call succeeds and, for two or more files, every key exists. It agrees with the transcriber as written wherever that one succeeds. |
| Pipeline.TranscribeAudioCorrected | app.py:64-67 | Corrected pipeline: at most the ceiling, the transcript of the single path. Above a positive ceiling, the corrected transcript of the listing's `chunk_` files. Division by zero exactly in the planner's cases. |
| Pipeline.BadKeyStopsRun | app.py:122 | The first file whose key fails ends the run with that key's error, whichever the back end. |
| Pipeline.SegmentedRunInPlaybackOrder | app.py:64-67 | When the listing's chunk files are exactly the written segments, the transcript is that of the segments in creation order, in any listing order. |
| Pipeline.CorrectedAgrees | app.py:64-67 | Wherever the pipeline as written produces a transcript, the corrected pipeline produces the same one. |
| Pipeline.NoSplitRunFails | app.py:97-99 | As written: a file at most the ceiling whose path has no `_` ends the run with the missing-field error for that path. |
| Pipeline.DefaultNoSplitRunFails | app.py:22 | As written: with the default path `./output/audio.wav` and ceiling, every file of at most 25165824 bytes fails. |
| Pipeline.NoSplitRunTranscribes | app.py:97-99 | Corrected: a file at most the ceiling is transcribed whole. The transcript is its text stripped, or the back end's failure. |

## Left out

- The ffprobe and ffmpeg calls (app.py:85-91, 107-110): their results are inputs. The code ignores their exit status, so there is no segmentation error to model.
- `float(result.stdout)` (app.py:91): the duration is a real number given as input. NaN and infinities are not modelled.
- The float division inside `math.ceil` (app.py:101) is modelled as exact integer ceiling division. This matches for realistic file sizes.
- Real division of the duration (app.py:102) is exact; float rounding is not modelled.
- The segment duration is computed but not used to name or count the chunk files: those come from the directory listing.
- The Whisper model and the OpenAI transcription and summary calls (transcribe.py, app.py:70-77, 130, 136) are abstracted as a `Backend` function to an optional text. The summary is not part of this model.
- The environment configuration, resets, archiving and the cached transcription file (app.py:11-54, 141-177) are I/O plumbing.
- The working directory used for chunk files (app.py:106, 113) is not modelled; stale `chunk_` files from earlier runs appear only through the listing given as input.
- Numerals.ParseInt: its own contract says only that a blank text is rejected. Numerals.ParseIntMeaning states the rest: it accepts exactly the numerals, with their values. It does not model three things `int()` does. It does not accept non-ASCII decimal digits (`int("٣")` is 3): the set of such digits depends on the Unicode version. It does not accept underscores between digits (`int("1_0")` is 10): an ordinal text never holds `_`, since it ends at the next `_`. It does not model the limit of 4300 digits, above which `int()` raises.
- Numerals.ParseRejectsForeign: it treats non-ASCII decimal digits as foreign, so it claims rejection where `int()` accepts them, as the Numerals.ParseInt line explains.
- The progress output (app.py:81-114, 119-126, 131) is not modelled.
- Python's Timsort (app.py:122) is modelled by a stable insertion sort. Both are stable sorts by the same key, so they order the same list the same way; that equivalence is not proved here.

## Findings

| source | as written | input that shows it | evidently intended | confidence | as-written member | corrected member |
|---|---|---|---|---|---|---|
| app.py:97-122 | A file under the ceiling is returned as `[audio_path]`. Then `sorted(chunks, key=...)` computes the key of that single path, because CPython computes every key before checking whether the list is short enough to need sorting. `"./output/audio.wav".split('_')` has one field, so `[1]` raises `IndexError`. | An extracted audio file of 10 MiB at the default `./output/audio.wav` with the default 24 MiB ceiling | The single unsplit file is transcribed whole: the transcript is its text stripped | high; not executed | Pipeline.DefaultNoSplitRunFails | Pipeline.NoSplitRunTranscribes |
