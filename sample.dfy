/**
 * The per-thread sampling countdown of libpoireau: every allocation request
 * is subtracted from `bytes_until_next_sample`, and a request is sampled when
 * it reaches or passes the end of the countdown.
 */
module Sample {
  import opened Words

  /** The portable rule of `sample_request`: sample when the request is at least the countdown. */
  predicate Samples(current: u64, request: u64)
  {
    request >= current
  }

  /**
   * The x86-64 rule of `sample_request`: `subq` then `setbe`, that is, sample
   * when the subtraction borrowed or left zero.
   */
  predicate SamplesByFlags(current: u64, request: u64)
  {
    var borrow := request > current;
    var zero := Sub(current, request) == 0;
    borrow || zero
  }

  /** Both branches of `sample_request` take the same decision. */
  lemma FlagsAgreeWithComparison(current: u64, request: u64)
    ensures SamplesByFlags(current, request) <==> Samples(current, request)
  {
    if request < current {
      assert Sub(current, request) == current - request > 0;
    }
  }

  /** A request that is not sampled leaves a positive countdown with no wrap-around. */
  lemma UnsampledLeavesPositive(current: u64, request: u64)
    requires !Samples(current, request)
    ensures 0 < Sub(current, request) == current - request
  {
  }

  /** A zero-initialised state samples its first request, whatever its size. */
  lemma ZeroStateSamples(request: u64)
    ensures Samples(0, request)
  {
  }

  /** Requesting exactly the countdown samples and leaves the countdown at 0. */
  lemma ExactRequestSamples(current: u64)
    ensures Samples(current, current) && Sub(current, current) == 0
  {
  }

  function Sum(requests: seq<u64>): nat
  {
    if requests == [] then 0 else Sum(requests[..|requests| - 1]) + requests[|requests| - 1]
  }

  /** The countdown after a run of requests, each stored like `sample_request` does. */
  function Countdown(current: u64, requests: seq<u64>): u64
  {
    if requests == [] then current
    else Sub(Countdown(current, requests[..|requests| - 1]), requests[|requests| - 1])
  }

  /** No request of the run was sampled. */
  predicate NoneSampled(current: u64, requests: seq<u64>)
  {
    forall k :: 0 <= k < |requests| ==> !Samples(Countdown(current, requests[..k]), requests[k])
  }

  /**
   * Between two samples fewer bytes are requested than the countdown held: a
   * run of unsampled requests totals less than the starting countdown, which
   * has gone down by exactly that total.
   */
  lemma {:induction false} UnsampledRun(current: u64, requests: seq<u64>)
    requires NoneSampled(current, requests)
    ensures Countdown(current, requests) == current - Sum(requests)
    ensures requests != [] ==> 0 < Countdown(current, requests) && Sum(requests) < current
  {
    if requests != [] {
      var init := requests[..|requests| - 1];
      assert NoneSampled(current, init) by {
        forall k | 0 <= k < |init| ensures !Samples(Countdown(current, init[..k]), init[k]) {
          assert init[..k] == requests[..k];
        }
      }
      UnsampledRun(current, init);
      var k := |requests| - 1;
      assert requests[..k] == init;
      assert !Samples(Countdown(current, init), requests[k]);
    }
  }

  /** `struct sample_state`; the xoshiro generator state `s[4]` belongs to the sample-period drawing, which is not modelled. */
  class SampleState {
    var bytesUntilNextSample: u64

    /** A zero-initialised thread-local state. */
    constructor ()
      ensures bytesUntilNextSample == 0
    {
      bytesUntilNextSample := 0;
    }

    /**
     * `sample_request(state, request)`, portable branch: store the wrapped
     * difference and report whether the request reached the countdown.
     */
    method SampleRequest(request: u64) returns (sampled: bool)
      modifies this
      ensures bytesUntilNextSample == Sub(old(bytesUntilNextSample), request)
      ensures sampled == Samples(old(bytesUntilNextSample), request)
      ensures !sampled ==> 0 < bytesUntilNextSample == old(bytesUntilNextSample) - request
    {
      var current := bytesUntilNextSample;
      var remaining := Sub(current, request);
      bytesUntilNextSample := remaining;
      sampled := request >= current;
    }
  }
}
