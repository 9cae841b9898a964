/**
 * The decoder selection of `decode` (main.go): the decoders are tried in list
 * order (PNG, then JPEG); the first success is returned, and when every one
 * fails the error of the last one is. Each decoder is represented by the
 * outcome it has on the file's stream.
 */
module Decoding {
  import opened Wrappers

  /** A decoder's error, represented by its message. */
  type Error = string

  /** What one decoder makes of the stream. */
  datatype Attempt<T> = Success(image: T) | Failure(error: Error)

  /** The position of the first successful decoder, or the list length when all fail. */
  function FirstSuccess<T>(attempts: seq<Attempt<T>>): (k: nat)
    ensures k <= |attempts|
    ensures forall j :: 0 <= j < k ==> attempts[j].Failure?
    ensures k < |attempts| ==> attempts[k].Success?
    decreases |attempts|
  {
    if attempts == [] then 0
    else if attempts[0].Success? then 0
    else 1 + FirstSuccess(attempts[1..])
  }

  /**
   * `decode`: the image of the first decoder that succeeds, with no error; otherwise
   * no image and the last decoder's error (no error at all for an empty list).
   */
  method Decode<T>(decoders: seq<Attempt<T>>) returns (im: Option<T>, err: Option<Error>)
    ensures FirstSuccess(decoders) < |decoders| ==>
      im == Some(decoders[FirstSuccess(decoders)].image) && err == None
    ensures FirstSuccess(decoders) == |decoders| ==>
      im == None && err == (if decoders == [] then None else Some(decoders[|decoders| - 1].error))
  {
    var lastErr: Option<Error> := None;
    var i := 0;
    while i < |decoders|
      invariant 0 <= i <= |decoders|
      invariant forall j :: 0 <= j < i ==> decoders[j].Failure?
      invariant lastErr == if i == 0 then None else Some(decoders[i - 1].error)
    {
      if decoders[i].Success? {
        return Some(decoders[i].image), None;
      }
      lastErr := Some(decoders[i].error);
      i := i + 1;
    }
    return None, lastErr;
  }
}
