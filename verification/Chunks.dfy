/** Splitting one round of requests into submittable chunks (`orchestration/replay_chunks.py`).
    `cost` is the wire cost of a request, its two prompts' UTF-8 lengths in the source. */
module Chunks {

  datatype Limits = Limits(maxBytes: int, maxRequests: int)

  function Total<R>(chunk: seq<R>, cost: R -> nat): nat {
    if chunk == [] then 0 else Total(chunk[..|chunk| - 1], cost) + cost(chunk[|chunk| - 1])
  }

  /** A chunk that may be sent: one request of any size, or several within both limits. */
  predicate Sendable<R>(chunk: seq<R>, cost: R -> nat, limits: Limits) {
    |chunk| == 1 || (|chunk| > 1 && Total(chunk, cost) <= limits.maxBytes && |chunk| <= limits.maxRequests)
  }

  function Joined<R>(chunks: seq<seq<R>>): seq<R> {
    if chunks == [] then [] else chunks[0] + Joined(chunks[1..])
  }

  /** `chunks` loses, repeats and reorders nothing of `requests`, and can be sent. */
  predicate Splits<R(==)>(chunks: seq<seq<R>>, requests: seq<R>, cost: R -> nat, limits: Limits) {
    Joined(chunks) == requests && forall k :: 0 <= k < |chunks| ==> Sendable(chunks[k], cost, limits)
  }

  predicate Full<R>(current: seq<R>, request: R, cost: R -> nat, limits: Limits) {
    current != [] && (Total(current, cost) + cost(request) > limits.maxBytes || |current| >= limits.maxRequests)
  }

  /** The chunks the loop makes of an open chunk and the requests still to come. */
  function Pack<R>(current: seq<R>, rest: seq<R>, cost: R -> nat, limits: Limits): seq<seq<R>>
    decreases |rest|
  {
    if rest == [] then if current == [] then [] else [current]
    else if Full(current, rest[0], cost, limits) then [current] + Pack([rest[0]], rest[1..], cost, limits)
    else Pack(current + [rest[0]], rest[1..], cost, limits)
  }

  lemma {:induction false} PackSplits<R>(current: seq<R>, rest: seq<R>, cost: R -> nat, limits: Limits)
    requires current == [] || Sendable(current, cost, limits)
    ensures Splits(Pack(current, rest, cost, limits), current + rest, cost, limits)
    decreases |rest|
  {
    if rest == [] {
      assert [current][1..] == [];
    } else if Full(current, rest[0], cost, limits) {
      PackSplits([rest[0]], rest[1..], cost, limits);
      assert [rest[0]] + rest[1..] == rest;
    } else {
      Grown(current, rest[0], cost);
      PackSplits(current + [rest[0]], rest[1..], cost, limits);
      assert current + [rest[0]] + rest[1..] == current + rest;
    }
  }

  lemma Grown<R>(current: seq<R>, request: R, cost: R -> nat)
    ensures Total(current + [request], cost) == Total(current, cost) + cost(request)
  {
    assert (current + [request])[..|current|] == current;
  }

  lemma {:induction false} TotalOfPrefix<R>(chunk: seq<R>, k: nat, cost: R -> nat)
    requires k <= |chunk|
    ensures Total(chunk[..k], cost) <= Total(chunk, cost)
  {
    if k < |chunk| {
      TotalOfPrefix(chunk[..|chunk| - 1], k, cost);
      assert chunk[..|chunk| - 1][..k] == chunk[..k];
    } else {
      assert chunk[..k] == chunk;
    }
  }

  lemma {:induction false} TotalOfSuffix<R>(chunk: seq<R>, k: nat, cost: R -> nat)
    requires k <= |chunk|
    ensures Total(chunk[k..], cost) <= Total(chunk, cost)
  {
    if k < |chunk| {
      TotalOfSuffix(chunk[..|chunk| - 1], k, cost);
      assert chunk[k..][..|chunk| - k - 1] == chunk[..|chunk| - 1][k..];
    }
  }

  /** `chunks` without its first `k` requests. */
  function Dropped<R>(chunks: seq<seq<R>>, k: nat): seq<seq<R>> {
    if k == 0 || chunks == [] then chunks
    else if |chunks[0]| <= k then Dropped(chunks[1..], k - |chunks[0]|)
    else [chunks[0][k..]] + chunks[1..]
  }

  lemma {:induction false} DroppedSplits<R>(chunks: seq<seq<R>>, k: nat, requests: seq<R>, cost: R -> nat, limits: Limits)
    requires Splits(chunks, requests, cost, limits) && k <= |requests|
    ensures Splits(Dropped(chunks, k), requests[k..], cost, limits) && |Dropped(chunks, k)| <= |chunks|
  {
    if k != 0 && chunks != [] {
      var first, rest := chunks[0], Joined(chunks[1..]);
      if |first| <= k {
        DroppedSplits(chunks[1..], k - |first|, rest, cost, limits);
        assert requests[k..] == rest[k - |first|..];
      } else {
        TotalOfSuffix(first, k, cost);
        assert ([first[k..]] + chunks[1..])[1..] == chunks[1..];
        assert requests[k..] == first[k..] + rest;
      }
    }
  }

  /** Where the loop closes a chunk, no sendable chunk could start there and reach further. */
  lemma NothingLongerFits<R>(first: seq<R>, current: seq<R>, rest: seq<R>, cost: R -> nat, limits: Limits)
    requires rest != [] && Full(current, rest[0], cost, limits)
    requires Sendable(first, cost, limits) && first <= current + rest
    ensures |first| <= |current|
  {
    var k := |current| + 1;
    if k <= |first| {
      assert first[..k] == (current + rest)[..k] == current + [rest[0]];
      TotalOfPrefix(first, k, cost);
      Grown(current, rest[0], cost);
    }
  }

  /** No way of splitting the same requests uses fewer chunks. */
  lemma {:induction false} PackIsOptimal<R>(current: seq<R>, rest: seq<R>, cost: R -> nat, limits: Limits, other: seq<seq<R>>)
    requires Splits(other, current + rest, cost, limits)
    ensures |Pack(current, rest, cost, limits)| <= |other|
    decreases |rest|
  {
    if rest == [] {
    } else if Full(current, rest[0], cost, limits) {
      var first, more := other[0], other[1..];
      assert first + Joined(more) == current + rest;
      NothingLongerFits(first, current, rest, cost, limits);
      var left := |current| - |first|;
      DroppedSplits(more, left, Joined(more), cost, limits);
      assert Joined(more) == (current + rest)[|first|..];
      assert Joined(more)[left..] == rest == [rest[0]] + rest[1..];
      PackIsOptimal([rest[0]], rest[1..], cost, limits, Dropped(more, left));
    } else {
      assert current + [rest[0]] + rest[1..] == current + rest;
      PackIsOptimal(current + [rest[0]], rest[1..], cost, limits, other);
    }
  }

  /** `chunk_by_bytes`: exact, sendable, and as few chunks as possible. */
  method ChunkByBytes<R(==)>(requests: seq<R>, cost: R -> nat, limits: Limits) returns (chunks: seq<seq<R>>)
    ensures Splits(chunks, requests, cost, limits)
    ensures forall other :: Splits(other, requests, cost, limits) ==> |chunks| <= |other|
  {
    chunks := [];
    var current: seq<R>, size := [], 0;
    for i := 0 to |requests|
      invariant size == Total(current, cost)
      invariant Pack([], requests, cost, limits) == chunks + Pack(current, requests[i..], cost, limits)
    {
      var request := requests[i];
      PackStep(chunks, current, requests[i..], cost, limits);
      assert requests[i..][1..] == requests[i + 1..];
      var tooBig := current != [] && (size + cost(request) > limits.maxBytes || |current| >= limits.maxRequests);
      if tooBig {
        chunks := chunks + [current];
        current, size := [], 0;
      }
      Grown(current, request, cost);
      current, size := current + [request], size + cost(request);
    }
    assert requests[|requests|..] == [];
    if current != [] { chunks := chunks + [current]; }
    assert chunks == Pack([], requests, cost, limits);
    PackSplits([], requests, cost, limits);
    assert [] + requests == requests;
    forall other | Splits(other, requests, cost, limits) ensures |chunks| <= |other| {
      PackIsOptimal([], requests, cost, limits, other);
    }
  }

  lemma PackStep<R>(chunks: seq<seq<R>>, current: seq<R>, rest: seq<R>, cost: R -> nat, limits: Limits)
    requires rest != []
    ensures chunks + Pack(current, rest, cost, limits) ==
            if Full(current, rest[0], cost, limits)
            then (chunks + [current]) + Pack([] + [rest[0]], rest[1..], cost, limits)
            else chunks + Pack(current + [rest[0]], rest[1..], cost, limits)
  {
    assert [] + [rest[0]] == [rest[0]];
  }
}
