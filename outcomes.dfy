/** The two ways the feature utilities fail.  Both are Python `ValueError`s in
    the original; they are told apart here because they come from different
    places. */
module Outcomes {

  datatype Error =
    | InvalidFormat  // the audio format is neither "pcm" nor "wav"
    | EmptyRange     // `random.randint(0, n - w)` was asked for an offset with w > n

  datatype Result<T> = Ok(value: T) | Err(error: Error)
}
