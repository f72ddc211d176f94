/** The exceptions that can end a transcription run. Every one of them is fatal:
    nothing in the pipeline catches or retries. */
module Errors {

  datatype Error =
      /** `ZeroDivisionError`: the byte ceiling or the chunk count was zero. */
    | ZeroDivision
      /** `IndexError`: the chunk name has no `_`, so `split('_')[1]` does not exist. */
    | MissingOrdinalField(name: string)
      /** `ValueError`: the text between the first `_` and the next `_` or `.` is not an integer. */
    | InvalidOrdinal(name: string, text: string)
      /** The transcription backend raised while transcribing this chunk. */
    | TranscriptionFailed(chunk: string)
}
