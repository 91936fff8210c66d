/**
 * The latency probe behind `/latency`: `tentativas` pings to `host`,
 * averaged, with a fail-fast rule: the first ping that times out ends the
 * session with the "unable to reach it" response, and no further ping is
 * sent.
 *
 * The network is an oracle: `pings[i]` is what `ping3.ping` answers to the
 * i-th attempt. ping3 answers `None` on a timeout, `False` on an error
 * (an unknown host, say) and otherwise the round-trip time in seconds.
 */
module Latency {
  import opened Wrappers

  /** The three answers of `ping3.ping`: `None`, `False` or a time. */
  datatype PingAnswer = Timeout | Error | Answered(rtt: real)

  /** The two `/latency` responses. */
  datatype LatencyResponse =
    | Unreachable(host: string)
    | Reached(host: string, tentativas: int, latency: real)

  /** What escapes `latency_app` in `api1.py` instead of a response. */
  datatype LatencyError = TypeError

  /**
   * `connectionTest`: only `None` is tested for, so a timeout comes back
   * as `None` and every other answer, `False` included, comes back
   * unchanged.
   */
  function ConnectionTest(response: PingAnswer): (rtt: PingAnswer)
    ensures rtt.Timeout? <==> response.Timeout?
    ensures !response.Timeout? ==> rtt == response
  {
    if response == Timeout then Timeout else response
  }

  /** Every ping in `pings` came back before its timeout. */
  predicate AllReached(pings: seq<PingAnswer>)
  {
    forall i :: 0 <= i < |pings| ==> !pings[i].Timeout?
  }

  /** What `latency += rtt` adds: the time, and 0 for `False`. */
  function Added(answer: PingAnswer): real
  {
    if answer.Answered? then answer.rtt else 0.0
  }

  /** The total `latency += rtt` accumulates over `pings`. */
  function SumRtt(pings: seq<PingAnswer>): real
  {
    if pings == [] then 0.0
    else SumRtt(pings[..|pings| - 1]) + Added(pings[|pings| - 1])
  }

  /**
   * `latency_app` in `latency.py`, `api2.py` and `main.py`: the response
   * is "unreachable" exactly when some attempt timed out, and then the
   * pings sent are those up to and including the first timeout. Otherwise
   * all `tentativas` pings were sent and the latency is the accumulated
   * total divided by `tentativas`; an error answer is counted as 0.
   */
  method LatencyApp(tentativas: int, host: string, pings: seq<PingAnswer>)
    returns (response: LatencyResponse, issued: nat)
    requires tentativas >= 1
    requires |pings| == tentativas
    ensures response.host == host
    ensures response.Unreachable? <==> !AllReached(pings)
    ensures response.Unreachable? ==>
              && 1 <= issued <= tentativas
              && pings[issued - 1] == Timeout
              && AllReached(pings[..issued - 1])
    ensures response.Reached? ==>
              && issued == tentativas
              && response == Reached(host, tentativas, SumRtt(pings) / tentativas as real)
  {
    var latency := 0.0;
    issued := 0;
    for i := 0 to tentativas
      invariant issued == i
      invariant AllReached(pings[..i])
      invariant latency == SumRtt(pings[..i])
    {
      var rtt := ConnectionTest(pings[i]);
      issued := issued + 1;
      if rtt != Timeout {
        assert pings[..i + 1][..i] == pings[..i];
        latency := latency + Added(rtt);
      } else {
        assert !AllReached(pings) by { assert pings[i].Timeout?; }
        return Unreachable(host), issued;
      }
    }
    assert pings[..tentativas] == pings;
    latency := latency / tentativas as real;
    response := Reached(host, tentativas, latency);
  }

  /**
   * `latency_app` in `api1.py`, which records each answer in a histogram
   * before testing it. The metrics SDK's `record` compares the amount with
   * 0 first, and `None < 0` raises `TypeError`, so a timeout never reaches
   * the "unable to reach it" branch: the request fails at the same ping.
   * Without a timeout the response is that of the other copies.
   */
  method RecordingLatencyApp(tentativas: int, host: string, pings: seq<PingAnswer>)
    returns (r: Result<LatencyResponse, LatencyError>, issued: nat)
    requires tentativas >= 1
    requires |pings| == tentativas
    ensures r.Failure? <==> !AllReached(pings)
    ensures r.Failure? ==>
              && r.error == TypeError
              && 1 <= issued <= tentativas
              && pings[issued - 1] == Timeout
              && AllReached(pings[..issued - 1])
    ensures r.Success? ==>
              && issued == tentativas
              && r.value == Reached(host, tentativas, SumRtt(pings) / tentativas as real)
  {
    // The recorded amount is the only difference: `record(None)` raises where
    // the other copies return the "unreachable" response.
    var response;
    response, issued := LatencyApp(tentativas, host, pings);
    if response.Unreachable? {
      return Failure(TypeError), issued;
    }
    r := Success(response);
  }

  /**
   * An error answer is averaged in as a round trip of 0 seconds: the
   * total is that of the same pings with the error replaced by an answer
   * of 0, so an unknown host lowers the reported latency instead of ending
   * the run.
   */
  lemma {:induction false} ErrorCountsAsZero(pings: seq<PingAnswer>, k: int)
    requires 0 <= k < |pings| && pings[k] == Error
    ensures SumRtt(pings) == SumRtt(pings[k := Answered(0.0)])
  {
    var n := |pings| - 1;
    var changed := pings[k := Answered(0.0)];
    assert changed[..n] == if k == n then pings[..n] else pings[..n][k := Answered(0.0)];
    if k < n {
      ErrorCountsAsZero(pings[..n], k);
    }
  }

  /**
   * When every ping was answered with a time in `[low, high]`, the
   * accumulated total lies between `n * low` and `n * high`.
   */
  lemma {:induction false} SumRttBounds(pings: seq<PingAnswer>, low: real, high: real)
    requires forall i :: 0 <= i < |pings| ==> pings[i].Answered? && low <= pings[i].rtt <= high
    ensures |pings| as real * low <= SumRtt(pings) <= |pings| as real * high
  {
    if pings != [] {
      var prefix := pings[..|pings| - 1];
      var n := |prefix| as real;
      assert forall i :: 0 <= i < |prefix| ==> prefix[i] == pings[i];
      SumRttBounds(prefix, low, high);
      var last := pings[|pings| - 1].rtt;
      assert SumRtt(pings) == SumRtt(prefix) + last;
      BoundsGrow(n, |pings| as real, low, high, SumRtt(prefix), last);
    }
  }

  /** Adding one more value within `[low, high]` keeps a total within its bounds. */
  lemma BoundsGrow(n: real, m: real, low: real, high: real, total: real, x: real)
    requires m == n + 1.0
    requires n * low <= total <= n * high && low <= x <= high
    ensures m * low <= total + x <= m * high
  {
    assert m * low == n * low + low;
    assert m * high == n * high + high;
  }

  /**
   * When every ping was answered with a time in `[low, high]`, so does
   * the mean the probe reports.
   */
  lemma MeanWithinBounds(pings: seq<PingAnswer>, low: real, high: real)
    requires pings != []
    requires forall i :: 0 <= i < |pings| ==> pings[i].Answered? && low <= pings[i].rtt <= high
    ensures low <= SumRtt(pings) / |pings| as real <= high
  {
    SumRttBounds(pings, low, high);
    QuotientBounds(SumRtt(pings), |pings| as real, low, high);
  }

  /** A total between `n * low` and `n * high` has a mean between `low` and `high`. */
  lemma QuotientBounds(total: real, n: real, low: real, high: real)
    requires n > 0.0 && n * low <= total <= n * high
    ensures low <= total / n <= high
  {
    var mean := total / n;
    assert mean * n == total;
    assert (mean - low) * n == total - n * low;
    assert (high - mean) * n == n * high - total;
  }
}
