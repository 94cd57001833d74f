/** The API side of the script: the identifier catalog (`fetch_crypto_ids`),
    the sampler (`select_random_crypto_ids`) and the selection of one record out
    of a market-data response (`get_crypto_info`). The HTTP requests themselves
    are oracles: each arrives here as a `Result` holding the decoded JSON array
    or the request failure. */
module Catalog {
  import opened Wrappers
  import opened Errors
  import Json

  /** The sample size `main` asks for. */
  const SampleSize: nat := 50

  /** `crypto['id']` for one catalog element: whatever value sits under the
      key, a string or not; only a non-object element or a missing key raises. */
  function IdOf(record: Json.Value): Result<Json.Value, Error> {
    match record
    case Obj(fields) =>
      if "id" !in fields then Failure(MissingId)
      else Success(fields["id"])
    case _ => Failure(NotAMapping)
  }

  /** The list comprehension over the catalog: it raises at the first element
      whose identifier cannot be read. */
  function IdsOf(records: seq<Json.Value>): (r: Result<seq<Json.Value>, Error>)
    ensures r.Success? ==>
              && |r.value| == |records|
              && forall j :: 0 <= j < |records| ==> IdOf(records[j]) == Success(r.value[j])
    ensures r.Failure? ==>
              exists j :: && 0 <= j < |records|
                          && IdOf(records[j]) == Failure(r.error)
                          && forall k :: 0 <= k < j ==> IdOf(records[k]).Success?
  {
    if records == [] then Success([])
    else
      match IdOf(records[0])
      case Failure(e) => Failure(e)
      case Success(id) =>
        match IdsOf(records[1..])
        case Failure(e) =>
          var j :| && 0 <= j < |records[1..]|
                   && IdOf(records[1..][j]) == Failure(e)
                   && forall k :: 0 <= k < j ==> IdOf(records[1..][k]).Success?;
          assert IdOf(records[j + 1]) == Failure(e);
          Failure(e)
        case Success(rest) => Success([id] + rest)
  }

  /** `fetch_crypto_ids`: a failed request degrades to the empty catalog; a
      malformed element is not caught and propagates to the caller. */
  function CatalogIds(response: Result<seq<Json.Value>, Error>): (r: Result<seq<Json.Value>, Error>)
    ensures response.Failure? ==> r == Success([])
    ensures response.Success? && r.Success? ==>
              && |r.value| == |response.value|
              && forall j :: 0 <= j < |r.value| ==> IdOf(response.value[j]) == Success(r.value[j])
    ensures r.Failure? <==>
              response.Success? && exists j :: 0 <= j < |response.value| && IdOf(response.value[j]).Failure?
  {
    match response
    case Failure(_) => Success([])
    case Success(records) => IdsOf(records)
  }

  /** The clamped count of `select_random_crypto_ids`: a request for more
      identifiers than there are is cut down to all of them. */
  function Clamp(available: nat, requested: int): int {
    if available < requested then available else requested
  }

  /** `select_random_crypto_ids`: `random.sample` after the clamp. The random
      draw is a nondeterministic choice of one remaining position per step,
      which is how `random.sample` draws without replacement; only its
      distribution is not modelled. A negative count survives the clamp and
      makes `random.sample` raise. The draw never looks at the identifiers
      themselves, so they may be of any type. */
  method SelectRandom<T>(ids: seq<T>, numSamples: int) returns (r: Result<seq<T>, Error>)
    ensures r.Failure? <==> numSamples < 0
    ensures r.Failure? ==> r.error == NegativeSample
    ensures r.Success? ==> |r.value| == if |ids| < numSamples then |ids| else numSamples
    ensures r.Success? ==> multiset(r.value) <= multiset(ids)
    ensures r.Success? && |ids| <= numSamples ==> multiset(r.value) == multiset(ids)
  {
    var k := Clamp(|ids|, numSamples);
    if k < 0 {
      return Failure(NegativeSample);
    }
    var pool := ids;
    var picked: seq<T> := [];
    while |picked| < k
      invariant |picked| <= k
      invariant |picked| + |pool| == |ids|
      invariant multiset(picked) + multiset(pool) == multiset(ids)
    {
      var i :| 0 <= i < |pool|;
      picked := picked + [pool[i]];
      assert pool == pool[..i] + [pool[i]] + pool[i + 1..];
      pool := pool[..i] + pool[i + 1..];
    }
    r := Success(picked);
  }

  /** The selection in `get_crypto_info`: the first record of a non-empty
      response, `None` for an empty one, and `None` when the request failed. */
  function FirstOrNone(response: Result<seq<Json.Value>, Error>): (r: Option<Json.Value>)
    ensures r.Some? <==> response.Success? && response.value != []
    ensures r.Some? ==> r.value == response.value[0]
  {
    match response
    case Failure(_) => None
    case Success(data) => if data != [] then Some(data[0]) else None
  }
}
