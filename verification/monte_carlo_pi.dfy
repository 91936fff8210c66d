/**
 * The `/calculate-pi` probe: a Monte Carlo estimate of pi that samples
 * points of the unit square until `seconds` of wall-clock time have passed
 * and divides by the number of samples.
 *
 * The clock and the random source are oracles: `elapsed[k]` is
 * `time.time() - start_time` at the k-th test of the loop condition and
 * `samples[k]` is the k-th pair `(random.random(), random.random())`. The
 * last reading in `elapsed` is the one that ends the loop.
 */
module MonteCarloPi {
  import opened Wrappers

  datatype PiError = ZeroDivisionError

  datatype PiEstimate = PiEstimate(inside: int, total: int, pi: real)

  /** The pair lies in the quarter disc: `x**2 + y**2 <= 1`. */
  predicate InsideCircle(sample: (real, real))
  {
    sample.0 * sample.0 + sample.1 * sample.1 <= 1.0
  }

  /** How many of `samples` lie in the quarter disc. */
  function InsideCount(samples: seq<(real, real)>): (n: nat)
    ensures n <= |samples|
  {
    if samples == [] then 0
    else InsideCount(samples[..|samples| - 1]) + (if InsideCircle(samples[|samples| - 1]) then 1 else 0)
  }

  /**
   * `calculate_pi`: one sample per reading of the clock below `seconds`;
   * `4 * inside / total` divides by zero exactly when the first reading is
   * already past `seconds`. Otherwise `inside` counts the samples drawn
   * that fall in the quarter disc, and the estimate lies in `[0, 4]`.
   */
  method CalculatePi(seconds: real, elapsed: seq<real>, samples: seq<(real, real)>)
    returns (r: Result<PiEstimate, PiError>)
    requires elapsed != [] && elapsed[|elapsed| - 1] >= seconds
    requires |samples| >= |elapsed|
    ensures r.Failure? <==> elapsed[0] >= seconds
    ensures r.Failure? ==> r == Failure(ZeroDivisionError)
    ensures r.Success? ==>
              && 0 < r.value.total < |elapsed|
              && elapsed[r.value.total] >= seconds
              && (forall k :: 0 <= k < r.value.total ==> elapsed[k] < seconds)
              && r.value.inside == InsideCount(samples[..r.value.total])
              && 0 <= r.value.inside <= r.value.total
              && r.value.pi == 4.0 * r.value.inside as real / r.value.total as real
              && 0.0 <= r.value.pi <= 4.0
  {
    var inside, total := 0, 0;
    while elapsed[total] < seconds
      invariant 0 <= inside <= total < |elapsed|
      invariant forall k :: 0 <= k < total ==> elapsed[k] < seconds
      invariant inside == InsideCount(samples[..total])
      decreases |elapsed| - total
    {
      assert samples[..total + 1][..total] == samples[..total];
      var sample := samples[total];
      if InsideCircle(sample) {
        inside := inside + 1;
      }
      total := total + 1;
    }
    if total == 0 {
      return Failure(ZeroDivisionError);
    }
    var pi := 4.0 * inside as real / total as real;
    EstimateBounds(inside, total);
    r := Success(PiEstimate(inside, total, pi));
  }

  /** Four times a fraction of the samples lies in `[0, 4]`. */
  lemma EstimateBounds(inside: int, total: int)
    requires 0 <= inside <= total && total > 0
    ensures 0.0 <= 4.0 * inside as real / total as real <= 4.0
  {
    var ratio := inside as real / total as real;
    assert ratio * total as real == inside as real;
    assert (1.0 - ratio) * total as real == (total - inside) as real;
    NonNegativeFactor(ratio, total as real);
    NonNegativeFactor(1.0 - ratio, total as real);
    assert 4.0 * inside as real / total as real == 4.0 * ratio;
  }

  /** A product with a positive factor is non-negative only if the other factor is. */
  lemma NonNegativeFactor(a: real, b: real)
    requires b > 0.0 && a * b >= 0.0
    ensures a >= 0.0
  {
  }

  /**
   * `calculate_pi_endpoint` in `api1.py`: the query admits any
   * `seconds >= 0.0001`, but the handler passes `int(seconds)` on. Every
   * sub-second request therefore runs no sample and fails with
   * `ZeroDivisionError`, for any clock that does not step back; longer
   * requests succeed exactly when `int(seconds)` has not passed at the
   * first reading of the clock.
   */
  method CalculatePiEndpoint(seconds: real, elapsed: seq<real>, samples: seq<(real, real)>)
    returns (r: Result<PiEstimate, PiError>)
    requires seconds >= 0.0001
    requires elapsed != [] && elapsed[|elapsed| - 1] >= seconds.Floor as real
    requires forall k :: 0 <= k < |elapsed| ==> elapsed[k] >= 0.0
    requires |samples| >= |elapsed|
    ensures r.Success? <==> elapsed[0] < seconds.Floor as real
    ensures seconds < 1.0 ==> r == Failure(ZeroDivisionError)
    ensures r.Success? ==> 0.0 <= r.value.pi <= 4.0
  {
    // Python's int() truncates toward zero, which is the floor for positive values.
    var truncated := seconds.Floor as real;
    r := CalculatePi(truncated, elapsed, samples);
    if seconds < 1.0 {
      assert seconds.Floor == 0;
      assert elapsed[0] >= truncated;
    }
  }

  /**
   * `calculate_pi_endpoint` in `api2.py`, which passes `seconds` on
   * unchanged: any request whose duration has not passed at the first
   * reading of the clock gets an estimate in `[0, 4]`.
   */
  method AsyncCalculatePiEndpoint(seconds: real, elapsed: seq<real>, samples: seq<(real, real)>)
    returns (r: Result<PiEstimate, PiError>)
    requires seconds >= 0.0001
    requires elapsed != [] && elapsed[|elapsed| - 1] >= seconds
    requires |samples| >= |elapsed|
    ensures r.Success? <==> elapsed[0] < seconds
    ensures r.Success? ==> 0.0 <= r.value.pi <= 4.0 && r.value.total > 0
  {
    r := CalculatePi(seconds, elapsed, samples);
  }
}
