/**
 * The linear scaling sweep of `sortComparison` and the `/sort` endpoints.
 *
 * For each sort algorithm the sweep starts at `current_size = increment`,
 * generates `current_size` random values in `[1, current_size]`, runs the
 * sort, and stops at the first step whose measured time exceeds
 * `time_out`; otherwise it grows `current_size` by `increment` while
 * `current_size <= size`. It then reports `current_size` and the time of
 * the last step it ran. When no step runs, the time variable is read
 * unset, which Python reports as an `UnboundLocalError`.
 *
 * The wall clock and the random number generator are oracles: `timing`
 * gives the duration measured for an algorithm at a list size, and `draw`
 * gives the raw random number behind each generated value.
 */
module Sweep {
  import opened Wrappers
  import Sorting

  datatype Algorithm = BubbleSort | SelectionSort | MergeSort

  /** One step of a sweep: the `sample_size` and `total_time` of its span. */
  datatype Step = Step(algorithm: Algorithm, sampleSize: int, totalTime: real)

  /** What a sweep reports as `<algorithm>_max_reached_size` and `_time`. */
  datatype Envelope = Envelope(maxReachedSize: int, maxReachedTime: real)

  /** The three envelopes `sortComparison` reports. */
  datatype Comparison = Comparison(bubble: Envelope, selection: Envelope, merge: Envelope)

  /** Reading a local variable that no loop iteration assigned. */
  datatype SweepError = UnboundLocalError(variable: string)

  /** The local variable that holds an algorithm's step time. */
  function TimeVariable(algorithm: Algorithm): string
  {
    match algorithm
    case BubbleSort => "bubble_time"
    case SelectionSort => "selection_time"
    case MergeSort => "merge_time"
  }

  /**
   * `[random.randint(1, n) for _ in range(n)]`, with `draw(n, k)` the raw
   * random number behind the k-th value: `n` values, each in `[1, n]`.
   */
  function RandomList(n: int, draw: (int, int) -> int): (randomList: seq<int>)
    requires n >= 1
    ensures |randomList| == n
    ensures forall k :: 0 <= k < n ==> 1 <= randomList[k] <= n
  {
    seq(n, k requires 0 <= k < n => 1 + draw(n, k) % n)
  }

  /**
   * A sort probe: the algorithm run on the generated list. `bubble` sorts
   * descending, `selection` and `mergeSort` ascending.
   */
  method SortProbe(algorithm: Algorithm, randomList: seq<int>) returns (sorted: seq<int>)
    ensures multiset(sorted) == multiset(randomList)
    ensures algorithm == BubbleSort ==> Sorting.NonIncreasing(sorted)
    ensures algorithm != BubbleSort ==> Sorting.NonDecreasing(sorted)
  {
    match algorithm
    case BubbleSort => sorted := Sorting.Bubble(randomList);
    case SelectionSort => sorted := Sorting.Selection(randomList);
    case MergeSort => sorted := Sorting.MergeSort(randomList);
  }

  /** The steps a sweep still runs once `current_size` is `current`. */
  function StepsFrom(algorithm: Algorithm, current: int, size: int, timeOut: real, increment: int,
                     timing: (Algorithm, int) -> real): seq<Step>
    requires increment >= 1
    decreases size - current
  {
    if current > size then []
    else if timing(algorithm, current) > timeOut then [Step(algorithm, current, timing(algorithm, current))]
    else [Step(algorithm, current, timing(algorithm, current))]
         + StepsFrom(algorithm, current + increment, size, timeOut, increment, timing)
  }

  /** A size within bounds runs one step, and then the rest unless it timed out. */
  lemma StepsFromUnfold(algorithm: Algorithm, current: int, size: int, timeOut: real, increment: int,
                        timing: (Algorithm, int) -> real)
    requires increment >= 1 && current <= size
    ensures StepsFrom(algorithm, current, size, timeOut, increment, timing)
            == [Step(algorithm, current, timing(algorithm, current))]
               + (if timing(algorithm, current) > timeOut then []
                  else StepsFrom(algorithm, current + increment, size, timeOut, increment, timing))
  {
  }

  /** The steps of a whole sweep, which starts at `increment`. */
  function Steps(algorithm: Algorithm, size: int, timeOut: real, increment: int,
                 timing: (Algorithm, int) -> real): seq<Step>
    requires increment >= 1
  {
    StepsFrom(algorithm, increment, size, timeOut, increment, timing)
  }

  /**
   * What a sweep reports: an unset time variable when no step ran;
   * otherwise the last step's time, with the size of that step when it
   * timed out (the loop broke) and the next size when it did not (the loop
   * condition failed).
   */
  function Outcome(algorithm: Algorithm, size: int, timeOut: real, increment: int,
                   timing: (Algorithm, int) -> real): Result<Envelope, SweepError>
    requires increment >= 1
  {
    var steps := Steps(algorithm, size, timeOut, increment, timing);
    if steps == [] then Failure(UnboundLocalError(TimeVariable(algorithm)))
    else
      var last := steps[|steps| - 1];
      if last.totalTime > timeOut then Success(Envelope(last.sampleSize, last.totalTime))
      else Success(Envelope(last.sampleSize + increment, last.totalTime))
  }

  // ----------------------------------------------------------- properties

  /**
   * The sweep from `current` visits `current, current + increment, ...`,
   * each at most `size`, and records the measured time of each.
   */
  lemma {:induction false} StepsFromSizes(algorithm: Algorithm, current: int, size: int, timeOut: real,
                                          increment: int, timing: (Algorithm, int) -> real, k: int)
    requires increment >= 1
    requires 0 <= k < |StepsFrom(algorithm, current, size, timeOut, increment, timing)|
    ensures StepsFrom(algorithm, current, size, timeOut, increment, timing)[k]
            == Step(algorithm, current + k * increment, timing(algorithm, current + k * increment))
    ensures current + k * increment <= size
    decreases size - current
  {
    if k > 0 {
      StepsFromSizes(algorithm, current + increment, size, timeOut, increment, timing, k - 1);
    }
  }

  /** Every step before the last one finished within `time_out`. */
  lemma {:induction false} StepsFromStopAtFirstTimeout(algorithm: Algorithm, current: int, size: int,
                                                       timeOut: real, increment: int,
                                                       timing: (Algorithm, int) -> real, k: int)
    requires increment >= 1
    requires 0 <= k < |StepsFrom(algorithm, current, size, timeOut, increment, timing)| - 1
    ensures StepsFrom(algorithm, current, size, timeOut, increment, timing)[k].totalTime <= timeOut
    decreases size - current
  {
    if k > 0 {
      StepsFromStopAtFirstTimeout(algorithm, current + increment, size, timeOut, increment, timing, k - 1);
    }
  }

  /**
   * A sweep from `current` runs no step exactly when `current > size`; if
   * it runs some and the last one finished in time, the next size is past
   * `size`.
   */
  lemma {:induction false} StepsFromEnd(algorithm: Algorithm, current: int, size: int, timeOut: real,
                                        increment: int, timing: (Algorithm, int) -> real)
    requires increment >= 1
    ensures var steps := StepsFrom(algorithm, current, size, timeOut, increment, timing);
            (steps == [] <==> current > size)
            && (steps != [] && steps[|steps| - 1].totalTime <= timeOut ==>
                  current + |steps| * increment > size)
    decreases size - current
  {
    if current <= size {
      StepsFromUnfold(algorithm, current, size, timeOut, increment, timing);
      if timing(algorithm, current) <= timeOut {
        var steps := StepsFrom(algorithm, current, size, timeOut, increment, timing);
        var rest := StepsFrom(algorithm, current + increment, size, timeOut, increment, timing);
        StepsFromEnd(algorithm, current + increment, size, timeOut, increment, timing);
        assert |steps| == 1 + |rest|;
        assert current + |steps| * increment == current + increment + |rest| * increment;
        if rest != [] {
          assert steps[|steps| - 1] == rest[|rest| - 1];
        }
      }
    }
  }

  /**
   * The envelope a sweep reports. No step runs, and the time variable is
   * read unset, exactly when `increment > size`. Otherwise the reported
   * size is a multiple of `increment`; the reported time exceeds
   * `time_out` exactly when the loop ended by `break`, and then the size is
   * that of the step which timed out, at most `size`; when no step timed
   * out, the size is the least multiple of `increment` greater than `size`
   * and the time is that of the last step, one `increment` earlier.
   */
  lemma OutcomeEnvelope(algorithm: Algorithm, size: int, timeOut: real, increment: int,
                        timing: (Algorithm, int) -> real)
    requires increment >= 1
    ensures var r := Outcome(algorithm, size, timeOut, increment, timing);
            && (r.Failure? <==> increment > size)
            && (r.Failure? ==> r.error == UnboundLocalError(TimeVariable(algorithm)))
            && (r.Success? ==>
                  && r.value.maxReachedSize % increment == 0
                  && r.value.maxReachedSize >= increment
                  && (r.value.maxReachedTime > timeOut ==>
                        r.value.maxReachedSize <= size
                        && r.value.maxReachedTime == timing(algorithm, r.value.maxReachedSize))
                  && (r.value.maxReachedTime <= timeOut ==>
                        r.value.maxReachedSize - increment <= size < r.value.maxReachedSize
                        && r.value.maxReachedTime == timing(algorithm, r.value.maxReachedSize - increment)))
  {
    var steps := Steps(algorithm, size, timeOut, increment, timing);
    StepsFromEnd(algorithm, increment, size, timeOut, increment, timing);
    if steps != [] {
      var n := |steps|;
      var last := steps[n - 1];
      StepsFromSizes(algorithm, increment, size, timeOut, increment, timing, n - 1);
      SweepSizes(n, increment);
      assert last.sampleSize == n * increment;
    }
  }

  /** The `n`-th size of a sweep and the one after it are multiples of `increment`. */
  lemma SweepSizes(n: nat, increment: int)
    requires n >= 1 && increment >= 1
    ensures increment + (n - 1) * increment == n * increment
    ensures n * increment + increment == (n + 1) * increment
    ensures (n * increment) % increment == 0 && ((n + 1) * increment) % increment == 0
    ensures n * increment >= increment
  {
    MultipleOfIncrement(n, increment);
    MultipleOfIncrement(n + 1, increment);
  }

  /** `n * d` is a multiple of `d`. */
  lemma MultipleOfIncrement(n: nat, d: int)
    requires d >= 1
    ensures (n * d) % d == 0
  {
    var q, rem := (n * d) / d, (n * d) % d;
    assert n * d == d * q + rem;
    assert rem == d * (n - q);
    if n - q >= 1 {
      assert false;
    } else if n - q <= -1 {
      assert false;
    }
  }

  // ------------------------------------------------------------ the loops

  /**
   * The body of a sweep loop before its test: a list of `currentSize`
   * draws is sorted between two clock readings, and the time between them
   * is the measurement the oracle `timing` gives for this algorithm and size.
   */
  method MeasureStep(algorithm: Algorithm, currentSize: int, draw: (int, int) -> int,
                     timing: (Algorithm, int) -> real)
    returns (elapsed: real)
    requires currentSize >= 1
    ensures elapsed == timing(algorithm, currentSize)
  {
    var randomList := RandomList(currentSize, draw);
    var _ := SortProbe(algorithm, randomList);
    elapsed := timing(algorithm, currentSize);
  }

  /**
   * One sweep loop of `sortComparison`: the steps it runs and the
   * envelope it reports are those of the specification above.
   */
  method RunSweep(algorithm: Algorithm, size: int, timeOut: real, increment: int,
                  draw: (int, int) -> int, timing: (Algorithm, int) -> real)
    returns (r: Result<Envelope, SweepError>, steps: seq<Step>)
    requires increment >= 1
    ensures steps == Steps(algorithm, size, timeOut, increment, timing)
    ensures r == Outcome(algorithm, size, timeOut, increment, timing)
  {
    var currentSize := increment;
    var lastTime: Option<real> := None;
    steps := [];
    while currentSize <= size
      invariant increment <= currentSize
      invariant steps + StepsFrom(algorithm, currentSize, size, timeOut, increment, timing)
                == Steps(algorithm, size, timeOut, increment, timing)
      invariant steps == [] <==> lastTime == None
      invariant steps != [] ==> lastTime == Some(steps[|steps| - 1].totalTime)
                                && currentSize == steps[|steps| - 1].sampleSize + increment
                                && steps[|steps| - 1].totalTime <= timeOut
      decreases size - currentSize
    {
      var elapsed := MeasureStep(algorithm, currentSize, draw, timing);
      SweepStep(algorithm, currentSize, size, timeOut, increment, timing, steps);
      steps := steps + [Step(algorithm, currentSize, elapsed)];
      lastTime := Some(elapsed);
      if elapsed > timeOut {
        r := Success(Envelope(currentSize, elapsed));
        return;
      }
      currentSize := currentSize + increment;
    }
    SweepEnd(algorithm, currentSize, size, timeOut, increment, timing, steps);
    match lastTime {
      case None =>
        r := Failure(UnboundLocalError(TimeVariable(algorithm)));
      case Some(t) =>
        r := Success(Envelope(currentSize, t));
    }
  }

  /**
   * One turn of a sweep loop: the step at `current` is recorded; if it
   * timed out, the sweep is complete and reports that step.
   */
  lemma SweepStep(algorithm: Algorithm, current: int, size: int, timeOut: real, increment: int,
                  timing: (Algorithm, int) -> real, steps: seq<Step>)
    requires increment >= 1 && current <= size
    requires steps + StepsFrom(algorithm, current, size, timeOut, increment, timing)
             == Steps(algorithm, size, timeOut, increment, timing)
    ensures var next := steps + [Step(algorithm, current, timing(algorithm, current))];
            if timing(algorithm, current) > timeOut then
              && next == Steps(algorithm, size, timeOut, increment, timing)
              && Outcome(algorithm, size, timeOut, increment, timing)
                 == Success(Envelope(current, timing(algorithm, current)))
            else
              next + StepsFrom(algorithm, current + increment, size, timeOut, increment, timing)
              == Steps(algorithm, size, timeOut, increment, timing)
  {
    var step := Step(algorithm, current, timing(algorithm, current));
    StepsFromUnfold(algorithm, current, size, timeOut, increment, timing);
    if timing(algorithm, current) > timeOut {
      assert steps + [step] == Steps(algorithm, size, timeOut, increment, timing);
    } else {
      var rest := StepsFrom(algorithm, current + increment, size, timeOut, increment, timing);
      assert steps + [step] + rest == steps + ([step] + rest);
    }
  }

  /**
   * A sweep loop whose condition fails has run all its steps; it reports
   * the unset time variable when there were none, and otherwise the last
   * time with the size that failed the condition.
   */
  lemma SweepEnd(algorithm: Algorithm, current: int, size: int, timeOut: real, increment: int,
                 timing: (Algorithm, int) -> real, steps: seq<Step>)
    requires increment >= 1 && current > size
    requires steps + StepsFrom(algorithm, current, size, timeOut, increment, timing)
             == Steps(algorithm, size, timeOut, increment, timing)
    requires steps != [] ==> current == steps[|steps| - 1].sampleSize + increment
                             && steps[|steps| - 1].totalTime <= timeOut
    ensures steps == Steps(algorithm, size, timeOut, increment, timing)
    ensures steps == [] ==>
              Outcome(algorithm, size, timeOut, increment, timing)
              == Failure(UnboundLocalError(TimeVariable(algorithm)))
    ensures steps != [] ==>
              Outcome(algorithm, size, timeOut, increment, timing)
              == Success(Envelope(current, steps[|steps| - 1].totalTime))
  {
    assert StepsFrom(algorithm, current, size, timeOut, increment, timing) == [];
    assert steps + [] == steps;
  }

  /**
   * `sortComparison` as in `api1.py`, `sort.py` and the awaited form in
   * `api2.py`: three independent sweeps, each restarting at `increment`,
   * run one after the other. An error in the bubble sweep propagates and
   * the later sweeps never run; each envelope depends only on its own
   * algorithm's measurements.
   */
  method SortComparison(size: int, timeOut: real, increment: int,
                        draw: (int, int) -> int, timing: (Algorithm, int) -> real)
    returns (r: Result<Comparison, SweepError>, steps: seq<Step>)
    requires increment >= 1
    ensures r.Failure? <==> increment > size
    ensures r.Failure? ==> r.error == UnboundLocalError("bubble_time") && steps == []
    ensures r.Success? ==>
              && Success(r.value.bubble) == Outcome(BubbleSort, size, timeOut, increment, timing)
              && Success(r.value.selection) == Outcome(SelectionSort, size, timeOut, increment, timing)
              && Success(r.value.merge) == Outcome(MergeSort, size, timeOut, increment, timing)
              && steps == Steps(BubbleSort, size, timeOut, increment, timing)
                          + Steps(SelectionSort, size, timeOut, increment, timing)
                          + Steps(MergeSort, size, timeOut, increment, timing)
  {
    OutcomeEnvelope(BubbleSort, size, timeOut, increment, timing);
    OutcomeEnvelope(SelectionSort, size, timeOut, increment, timing);
    OutcomeEnvelope(MergeSort, size, timeOut, increment, timing);
    var bubble, bubbleSteps := RunSweep(BubbleSort, size, timeOut, increment, draw, timing);
    if bubble.Failure? {
      StepsFromEnd(BubbleSort, increment, size, timeOut, increment, timing);
      return Failure(bubble.error), [];
    }
    var selection, selectionSteps := RunSweep(SelectionSort, size, timeOut, increment, draw, timing);
    var merge, mergeSteps := RunSweep(MergeSort, size, timeOut, increment, draw, timing);
    r := Success(Comparison(bubble.value, selection.value, merge.value));
    steps := bubbleSteps + selectionSteps + mergeSteps;
  }

  /** The `/sort` response of `api1.py` and `sort.py`. */
  datatype SortResponse = SortResponse(message: string)

  /**
   * `sort_app` in `api1.py` and `sort.py`: it answers "Done sort" once the
   * comparison has run; the unset-variable error of a sweep that ran no
   * step escapes instead.
   */
  method SortApp(maxSize: int, timeOut: real, increment: int,
                 draw: (int, int) -> int, timing: (Algorithm, int) -> real)
    returns (response: Result<SortResponse, SweepError>, steps: seq<Step>)
    requires maxSize >= 1 && timeOut >= 0.01 && increment >= 1
    ensures response.Success? <==> increment <= maxSize
    ensures response.Success? ==> response.value == SortResponse("Done sort")
    ensures increment <= maxSize ==> |steps| >= 3
  {
    var comparison;
    comparison, steps := SortComparison(maxSize, timeOut, increment, draw, timing);
    if comparison.Failure? {
      return Failure(comparison.error), steps;
    }
    StepsFromEnd(BubbleSort, increment, maxSize, timeOut, increment, timing);
    StepsFromEnd(SelectionSort, increment, maxSize, timeOut, increment, timing);
    StepsFromEnd(MergeSort, increment, maxSize, timeOut, increment, timing);
    response := Success(SortResponse("Done sort"));
  }

  /**
   * `sort_app` in `api2.py`: `sortComparison` is a coroutine that is
   * created and never awaited, so no sweep step runs and the endpoint
   * answers "Done sort" whatever its arguments.
   */
  method AsyncSortApp(maxSize: int, timeOut: real, increment: int)
    returns (response: Result<SortResponse, SweepError>, steps: seq<Step>)
    requires maxSize >= 1 && timeOut >= 0.01 && increment >= 1
    ensures response == Success(SortResponse("Done sort")) && steps == []
  {
    // The coroutine object is discarded before it is ever scheduled.
    steps := [];
    response := Success(SortResponse("Done sort"));
  }

  /**
   * `sortComparison` in `main.py`: its `size` argument is ignored; one
   * list of 10000 values drawn from `[1, 10000]` is sorted by all three
   * algorithms, none of which changes it. Selection and merge give the same
   * ascending list, and bubble gives its reverse.
   */
  method MainSortComparison(size: int, draw: (int, int) -> int)
    returns (bubbleList: seq<int>, mergeList: seq<int>, selectionList: seq<int>)
    ensures |selectionList| == 10000
    ensures Sorting.NonDecreasing(selectionList)
    ensures multiset(selectionList) == multiset(RandomList(10000, draw))
    ensures mergeList == selectionList
    ensures bubbleList == Sorting.Reversed(selectionList)
  {
    var randomList := RandomList(10000, draw);
    bubbleList := Sorting.Bubble(randomList);
    mergeList := Sorting.MergeSort(randomList);
    selectionList := Sorting.Selection(randomList);
    Sorting.SortedPermutationsEqual(mergeList, selectionList);
    Sorting.DescendingIsReversedAscending(bubbleList, selectionList);
    assert |multiset(selectionList)| == |randomList|;
  }

  /**
   * `sort_app` in `main.py`: it takes no query parameters, runs the fixed
   * comparison and answers "Done sort"; nothing in it can fail.
   */
  method MainSortApp(draw: (int, int) -> int) returns (response: SortResponse)
    ensures response == SortResponse("Done sort")
  {
    var _, _, _ := MainSortComparison(10000, draw);
    response := SortResponse("Done sort");
  }
}
