/**
 * The resilient fetcher: up to `retries` attempts at one URL, returning the first answer
 * and otherwise raising the last error. The network is an oracle that says what each
 * attempt would get; the random pause before an attempt and the length of each backoff
 * pause are not modelled, only the exponent of each backoff.
 */
module Fetcher {
  import opened Wrappers
  import opened Seqs

  /** What one attempt gets: a 2xx response, or a request error (no connection, timeout, non-2xx status). */
  datatype Attempt<R> = Answered(response: R) | Errored(error: string)

  /** The number of attempts the adapters ask for. */
  const DefaultRetries := 3

  /** What the caller of `fetch` sees: the first answer within `retries` attempts, or the last attempt's error. */
  function FetchOutcome<R>(attempts: seq<Attempt<R>>, retries: nat): (r: Result<R, string>)
    requires 1 <= retries <= |attempts|
    ensures r.Success? ==> exists k :: 0 <= k < retries && attempts[k] == Answered(r.value)
                                        && forall i :: 0 <= i < k ==> attempts[i].Errored?
    ensures r.Failure? ==> (forall i :: 0 <= i < retries ==> attempts[i].Errored?)
                           && r.error == attempts[retries - 1].error
  {
    var k := FirstIndex(attempts, (a: Attempt<R>) => a.Answered?, retries);
    if k < retries then Success(attempts[k].response) else Failure(attempts[retries - 1].error)
  }

  /**
   * The retry loop. Besides the outcome it reports how many attempts were made and the
   * exponent of every backoff pause taken: after a failed attempt `i` the fetcher pauses
   * for `backoff ** i` unless `i` was the last attempt allowed.
   */
  method Fetch<R>(attempts: seq<Attempt<R>>, retries: nat) returns (r: Result<R, string>, tries: nat, backoffs: seq<nat>)
    requires 1 <= retries <= |attempts|
    ensures r == FetchOutcome(attempts, retries)
    ensures 1 <= tries <= retries
    ensures forall i :: 0 <= i < tries - 1 ==> attempts[i].Errored?
    ensures r.Success? ==> attempts[tries - 1] == Answered(r.value)
    ensures r.Failure? ==> tries == retries
    ensures |backoffs| == (if r.Success? then tries - 1 else retries - 1)
    ensures forall i :: 0 <= i < |backoffs| ==> backoffs[i] == i
  {
    var lastErr: Option<string> := None;
    backoffs := [];
    var i := 0;
    while i < retries
      invariant 0 <= i <= retries
      invariant forall j :: 0 <= j < i ==> attempts[j].Errored?
      invariant i > 0 ==> lastErr == Some(attempts[i - 1].error)
      invariant |backoffs| == (if i == retries then retries - 1 else i)
      invariant forall j :: 0 <= j < |backoffs| ==> backoffs[j] == j
    {
      match attempts[i]
      case Answered(response) =>
        return Success(response), i + 1, backoffs;
      case Errored(error) =>
        lastErr := Some(error);
        if i < retries - 1 {
          backoffs := backoffs + [i];
        }
        i := i + 1;
    }
    r, tries := Failure(lastErr.value), retries;
  }
}
