# Synthetic-workload services, modelled in Dafny

The repository is a set of small FastAPI services that generate CPU, network and
memory load for a monitoring stack, plus a script that drives them. This project
models the logic of those services and of the driver, and proves what they compute:

- **Sorting probes** (`Sorting`): `bubble`, `selection`, `mergeSort` and `merge`,
  as copied in `api1.py`, `api2.py`, `sort.py` and `main.py`. `bubble` swaps
  neighbours when `a[j] < a[j + 1]`, so it sorts in descending order. `selection`
  and `merge` take the smaller element first, so they sort in ascending order. Each
  sort copies its input with `list(...)`. Here each takes the list as a value and
  sorts a fresh array, so the caller's list cannot change.
- **Linear scaling sweep** (`Sweep`): the three `while` loops of `sortComparison`.
  Each starts at `increment`, grows by `increment` while `current_size <= size`, and
  breaks at the first step slower than `time_out`. It then reports `current_size` and
  the last step's time. The `/sort` endpoints are modelled too. So is the copy in
  `main.py`, which ignores its size argument, and the copy in `api2.py`, which never
  awaits the sweep.
- **Sum of N** (`SumOfN`): `method_1` (library range sum), `method_2` (closed form
  with `//`), `method_3` (accumulator loop) and the `/sum-of-n-numbers` endpoint.
- **Latency probe** (`Latency`): `connectionTest` and the fail-fast averaging loop of
  `latency_app`.
- **Monte Carlo pi** (`MonteCarloPi`): `calculate_pi` and both endpoint variants.
- **Load driver** (`LoadDriver`): `read_config`'s `key=value` parsing and the main
  block's assembly of `test_functions`.

The environment appears as explicit inputs:

| Source of values | Modelled as |
|---|---|
| Sort durations measured with `time.time()` | `timing(algorithm, size)` |
| `random.randint` | `draw(n, k)` |
| `ping3.ping` | one answer per attempt: a timeout (`None`), an error (`False`) or a time |
| The Monte Carlo clock and `random.random()` | sequences of readings and samples |
| The configuration file | `None` (missing) or its lines |

Two behaviours of the code are easy to misread, and the model states them as the
code has them:

- Only `bubble` sorts in descending order; `selection` and `merge` sort in ascending order.
- When `increment > size`, a sweep runs no step at all. Reading the unset
  `bubble_time` then raises `UnboundLocalError`, which `sort_app` does not catch.
  `Sweep.SortComparison` and `Sweep.SortApp` return that error as a `Failure`.

`mergeSort` calls the looping `merge`, so `Sorting.MergeSort` is a recursive method
that calls the `Sorting.Merge` method. `Sorting.MergeOf` is the recursive definition
that `Merge` is proved against.

## Model

| member | source | states |
|---|---|---|
| Sorting.CopyToArray | api1.py:150 | `list(randomList)` is a fresh array holding exactly the input, so sorting it leaves the caller's list alone |
| Sorting.BubblePass | api1.py:155-157 | one inner pass leaves the smallest value of `a[0..last]` at `last`; it does not touch the suffix, keeps every prefix value at least every suffix value, and only permutes |
| Sorting.Bubble | api1.py:150-157 | the result is a non-increasing permutation of the input; the copies at `sort.py:63-70`, `api2.py:105-112`, `main.py:42-51` do the same |
| Sorting.SmallestFrom | api1.py:227-230 | the index of the first smallest element of the suffix starting at `i` |
| Sorting.Swap | api1.py:231-234 | the tuple swap exchanges two cells, changes nothing else, and only permutes |
| Sorting.Selection | api1.py:222-234 | the result is a non-decreasing permutation of the input; the copies at `sort.py:125-134`, `api2.py:167-176`, `main.py:92-104` do the same |
| Sorting.MergeOf | api1.py:197-212 | definition: the merge of `merge`, taking the left head only when strictly smaller; its properties are stated by `MergeOfPermutation`, `MergeOfHead` and `MergeOfSorted`, and `Merge` is proved equal to it |
| Sorting.MergeOfStep | api1.py:201-208 | one turn of the `while` loop appends the smaller head (the right head on ties) and keeps "result followed by the merge of the rest" equal to the whole merge |
| Sorting.MergeOfDrain | api1.py:209-210 | once one side is used up, the two `extend` calls complete the merge |
| Sorting.MergeOfPermutation | api1.py:197-212 | the merge holds exactly the elements of both inputs, and its length is `len(left) + len(right)` |
| Sorting.MergeOfHead | api1.py:201-208 | the first merged element is the head of one of the inputs |
| Sorting.MergeOfSorted | api1.py:197-212 | merging two non-decreasing lists gives a non-decreasing list |
| Sorting.Merge | api1.py:197-212 | the loop computes the merge; the result is a permutation of both inputs with length `len(left) + len(right)`, and it is non-decreasing when both inputs are; the copies at `sort.py:106-121`, `api2.py:148-163`, `main.py:75-89` do the same |
| Sorting.MergeSort | api1.py:183-194 | the result is a non-decreasing permutation of the input; lists of length at most 1 come back unchanged; it terminates because both halves are shorter; the copies at `sort.py:92-103`, `api2.py:134-145`, `main.py:54-72` do the same |
| Sorting.ReversedIndex | main.py:111-113 | element `k` of the reverse is element `len - 1 - k` of the list |
| Sorting.ReversedMultiset | main.py:111-113 | reversing only reorders |
| Sorting.SortedPermutationsEqual | main.py:112-113 | two ascending lists with the same elements are equal, so selection and merge agree |
| Sorting.DescendingIsReversedAscending | main.py:111-113 | a descending and an ascending list with the same elements are each other's reverse, so bubble's list is the reverse of the other two |
| Sweep.RandomList | api1.py:253 | each generated list has `current_size` entries, all in `[1, current_size]` |
| Sweep.SortProbe | api1.py:254 | the probe's list is a permutation of the generated list, descending for bubble and ascending otherwise |
| Sweep.MeasureStep | api1.py:253-254 | a loop step sorts a fresh list and yields that algorithm's measured time for that size |
| Sweep.StepsFromUnfold | api1.py:252-257 | proof step, unfolding `StepsFrom`: a size within bounds runs one step, and then the rest of the sweep unless that step timed out |
| Sweep.StepsFromSizes | api1.py:251-257 | step `k` has size `current + k * increment`, at most `size`, and records the measured time for that size |
| Sweep.StepsFromStopAtFirstTimeout | api1.py:255-256 | every step before the last finished within `time_out` |
| Sweep.StepsFromEnd | api1.py:252 | no step runs exactly when the start exceeds `size`; if the last step did not time out, the next size exceeds `size` |
| Sweep.Outcome | api1.py:258-259 | definition: the reported pair, the unset variable when no step ran, the last step's time with its size after a `break` and the next size otherwise; its properties are stated by `OutcomeEnvelope`, and `RunSweep` is proved to report it |
| Sweep.OutcomeEnvelope | api1.py:251-259 | unset time variable iff `increment > size`; otherwise the reported size is a positive multiple of `increment`; if the time exceeds `time_out`, the size is that step's size, at most `size`, and the time is measured there; otherwise the size is the least multiple above `size` and the time is the last step's, measured one `increment` earlier |
| Sweep.SweepStep | api1.py:253-257 | one loop turn records its step; when that step times out, the sweep is complete and reports it |
| Sweep.SweepEnd | api1.py:252-259 | when the loop condition fails, all steps have run, and the report is the unset variable or the last time with the failing size |
| Sweep.RunSweep | api1.py:251-259 | the loop runs exactly the specified steps and reports exactly the specified outcome; the copy at `sort.py:145-153` does the same |
| Sweep.SortComparison | api1.py:243-282 | fails iff `increment > size`, raising at `bubble_time` with no step run; otherwise each algorithm's report depends only on its own measurements, and the steps are the three sweeps in order, each from `increment`; the copies at `sort.py:142-170`, `api2.py:184-213` do the same |
| Sweep.SortApp | api1.py:285-295 | "Done sort" iff `increment <= max_size`, after at least three measured steps; otherwise the `UnboundLocalError` escapes; the copy at `sort.py:196-200` does the same |
| Sweep.AsyncSortApp | api2.py:217-221 | the coroutine is never awaited, so no step runs and the answer is always "Done sort" |
| Sweep.MainSortComparison | main.py:107-113 | ignores `size`; sorts 10000 draws; selection's list is ascending and a permutation of them; merge's list equals it; bubble's list is its reverse |
| Sweep.MainSortApp | main.py:120-124 | always answers "Done sort" |
| SumOfN.Method1 | api1.py:329-336 | definition: `sum(range(target + 1))`, 0 for a negative target; its value is stated by `GaussSum` and `MethodsAgree` |
| SumOfN.Method2 | api1.py:339-346 | definition: `target * (target + 1) // 2` with Python's floor division; its exactness is stated by `ClosedFormIsExact` |
| SumOfN.Method3 | api1.py:349-358 | the accumulator loop equals the library sum `sum(range(target + 1))` for every target; the copy at `api2.py:265-272` does the same |
| SumOfN.GaussSum | api1.py:329-336 | twice `sum(range(n + 1))` is `n * (n + 1)` |
| SumOfN.ClosedFormIsExact | api1.py:339-346 | `target * (target + 1)` is even, so `//` discards nothing |
| SumOfN.MethodsAgree | api1.py:329-358 | `method_1` and `method_2` agree for every `target >= -1` |
| SumOfN.MethodsDisagreeBelowMinusOne | api1.py:329-346 | below -1 the library sum is 0 and the closed form is positive, which the query bound `ge=1` excludes |
| SumOfN.SumOfNNumbers | api1.py:361-377 | for every admitted target, the three results are equal to each other and to `target * (target + 1) / 2`; the copy at `api2.py:274-284` does the same |
| Latency.ConnectionTest | latency.py:58-65 | only `None` is tested for: a timeout comes back as `None`, every other answer comes back unchanged, including the `False` ping3 returns on an error; the copies at `api1.py:97-109`, `api2.py:71-79`, `main.py:128-135` do the same |
| Latency.LatencyApp | latency.py:87-103 | unreachable iff some ping timed out; then the pings issued are those up to and including the first timeout, none earlier timed out; otherwise all `tentativas` were issued and the latency is the accumulated total (an error counted as 0) divided by `tentativas`; the host is echoed; the copies at `api2.py:82-99`, `main.py:140-156` do the same |
| Latency.RecordingLatencyApp | api1.py:112-140 | the answer is recorded before the `None` test, and recording `None` raises `TypeError`: the request fails iff some ping timed out, at the first timeout; otherwise the response is that of `LatencyApp` |
| Latency.ErrorCountsAsZero | latency.py:96-97 | `False != None`, so an error answer is added as 0: the total equals that of the same pings with the error replaced by a 0-second answer |
| Latency.SumRttBounds | latency.py:94-97 | with every ping answered by a time in `[low, high]`, the accumulated total is between `n * low` and `n * high` |
| Latency.MeanWithinBounds | latency.py:101 | with every ping answered by a time in `[low, high]`, the reported mean lies in `[low, high]`; `tentativas >= 1` rules out a zero divisor |
| MonteCarloPi.InsideCount | api1.py:308-311 | definition: the number of samples with `x**2 + y**2 <= 1`, as `inside += 1` counts them; it never exceeds the number of samples |
| MonteCarloPi.CalculatePi | api1.py:299-318 | division by zero iff the first clock reading is already past `seconds`; otherwise one sample per earlier reading, `inside` is the number of those samples in the quarter disc (so `0 <= inside <= total`), and `pi = 4 * inside / total`, within `[0, 4]`; the copy at `api2.py:226-242` does the same |
| MonteCarloPi.CalculatePiEndpoint | api1.py:321-326 | `int(seconds)` is passed on: the request succeeds iff `int(seconds)` has not passed at the first clock reading, so every sub-second request fails with `ZeroDivisionError` for a clock that does not step back; any estimate lies in `[0, 4]` |
| MonteCarloPi.AsyncCalculatePiEndpoint | api2.py:244-248 | `seconds` is passed unchanged; the request succeeds iff its duration has not passed at the first clock reading, with at least one sample and an estimate in `[0, 4]` |
| LoadDriver.StripLeading | script.py:92 | `lstrip`: a suffix of the text with only whitespace dropped, not starting with whitespace |
| LoadDriver.StripTrailing | script.py:92 | `rstrip`: a prefix of the text with only whitespace dropped, not ending with whitespace |
| LoadDriver.Strip | script.py:92-93 | `strip`: the result neither starts nor ends with whitespace |
| LoadDriver.StripKeepsAt | script.py:92-93 | a non-whitespace character survives stripping, at its place after the leading whitespace |
| LoadDriver.StripKeeps | script.py:92-93 | every non-whitespace character of the text is kept |
| LoadDriver.StripTakes | script.py:92-93 | stripping adds no character |
| LoadDriver.SplitAtFirst | script.py:92 | `split("=", 1)`: the text is the key, the separator and the value, and the key has no separator |
| LoadDriver.SplitAtFirstOf | script.py:92 | the split returns exactly the text around the first separator, even if the value holds more |
| LoadDriver.Entry | script.py:91-93 | a line gives an entry iff it contains "="; the key has no "=" (the split is at the first one); key and value are stripped |
| LoadDriver.EntryOfAssignment | script.py:92-93 | a line `key=value` with a stripped key without "=" stores exactly that key and value, even when the value holds "=" |
| LoadDriver.EntryOfLine | script.py:91-93 | for any line, surrounding whitespace and trailing "\n" included, whose first "=" is at `k`: the entry is the text before `k`, stripped, and the text after it, stripped |
| LoadDriver.StripBounds | script.py:92 | `strip` keeps one slice of the text, with only whitespace outside it |
| LoadDriver.StripUnique | script.py:92-93 | a slice with no whitespace at its ends and only whitespace outside it is exactly what `strip` returns |
| LoadDriver.StripOfPart | script.py:92-93 | stripping a slice with only whitespace outside it gives what stripping the whole text gives |
| LoadDriver.StoreLine | script.py:91-93 | one loop turn stores the line's entry, or leaves the dictionary unchanged for a line without "=" |
| LoadDriver.ConfigStep | script.py:90-93 | reading one more line stores its entry on top of the dictionary so far |
| LoadDriver.ReadConfig | script.py:82-94 | a missing file raises `FileNotFoundError` with its path before any line is read; otherwise the result is the dictionary the lines define |
| LoadDriver.StoreAppend | script.py:93 | proof step, unfolding `Store`: storing one more entry updates its key, or changes nothing |
| LoadDriver.EntriesAppend | script.py:90 | proof step, unfolding `Entries`: one more line contributes one more entry |
| LoadDriver.StoreKeys | script.py:93 | a key is stored iff some entry carries it |
| LoadDriver.StoreLastWins | script.py:93 | the last entry carrying a key decides its value |
| LoadDriver.ConfigKeys | script.py:89-94 | a key is in the configuration iff some line assigns it |
| LoadDriver.LastAssignmentWins | script.py:89-94 | a later line with the same key overrides an earlier one |
| LoadDriver.LineWithoutEqualsIgnored | script.py:91 | a line without "=" contributes nothing |
| LoadDriver.AllSchedulesEveryProbeOnce | script.py:126-146 | with `functions == "all"` no substring test matches, so a round is exactly the five probes, in order |
| LoadDriver.AllProbesListed | script.py:126-133 | the main block lists every probe, in the fixed order |
| LoadDriver.MatchingMembers | script.py:135-146 | a probe is selected iff it is listed and its name is a substring of `functions` |
| LoadDriver.MatchingInOrder | script.py:135-146 | selection keeps the fixed order and never schedules a probe twice in a round |
| LoadDriver.RoundSelection | script.py:135-146 | unless `functions == "all"`, a probe is in a round iff its name is a substring of `functions`, in the fixed order |
| LoadDriver.MatchingCons | script.py:135-146 | proof step, unfolding `Matching`: the `if` statements are tried front to back |
| LoadDriver.MatchingUnfolded | script.py:135-146 | the five `if` statements append exactly the matching probes |
| LoadDriver.RepeatLength | script.py:124 | `requests_count` rounds hold `requests_count` times as many tasks as one round, and none when the count is not positive |
| LoadDriver.AppendIfRequested | script.py:135-136 | one `if "<name>" in functions:` appends that probe iff the name is a substring |
| LoadDriver.AppendMatching | script.py:135-146 | the five `if` statements append the matching probes |
| LoadDriver.AppendRound | script.py:126-146 | one loop iteration appends exactly one round |
| LoadDriver.AssembleTasks | script.py:122-146 | `test_functions` is `requests_count` rounds, and its length is `requests_count` times the round size |

## Left out

- OpenTelemetry and Prometheus plumbing is left out: tracers, spans, attributes,
  histograms, counters, gauges and the request-counting middlewares. These are
  library calls that do not change any result, with one exception:
  `rtt_histogram.record` in `api1.py`.
- Latency.RecordingLatencyApp: `rtt_histogram.record(rtt)` runs before the `None`
  test. The model assumes the metrics SDK's `record` begins by comparing the
  amount with 0, which raises `TypeError` for `None` and passes `False`. That SDK
  is not part of this model.
- Network I/O (`ping3.ping`, including its payload size argument and its timeout) is
  left out. Each attempt's answer is an input: a timeout, an error or a time. ping3's
  option to raise exceptions instead of returning `False` is not modelled.
- Wall-clock time is an input: `time.time()` around each sort becomes
  `timing(algorithm, size)`, and the Monte Carlo loop reads a sequence of clock
  readings. Randomness is an input too: `random.randint` becomes `draw`, and
  `random.random()` becomes a sequence of samples.
- Termination of the Monte Carlo loop is assumed from the clock: the last reading
  given is past `seconds`. Floating-point arithmetic is modelled with exact reals.
- The object-churn probes (`create_delete_objects_method_1/2` and
  `/object-creation-deletion`) are left out. They depend on CPython allocation and
  garbage collection, and only return fixed status strings.
- Async scheduling is not modelled, except for `sort_app` in `api2.py`, whose
  never-awaited coroutine decides its behaviour. The awaited copies behave like
  the synchronous ones.
- Response bodies are modelled by their content (message, host, values), not by
  their JSON rendering or the formatted message strings.
- The query-parameter bounds (`ge=...`) are preconditions, not modelled behaviour.
- In the driver script: the HTTP calls made by `test_*` are left out. So are the
  `ThreadPoolExecutor` run, logging, the `int()`/`float()` conversions and defaults
  applied to configuration values, and the top-level exception handler. A task is
  modelled by which probe it calls, not by its closure.
- The file system is an input: `os.path.exists` becomes `None` or `Some(lines)`.
  Each line includes its line ending, as iteration over a text file yields it.
  Character classes follow Python's `str.isspace` per code point. No Unicode
  normalisation is modelled.
- The string-literal blocks of dead code at the end of `main.py` and `api1.py` are
  left out.
- Sorting.Bubble, Sorting.Selection, Sorting.MergeSort: elements are unbounded
  integers. The generated lists hold small positive integers, so nothing depends on
  Python's arbitrary-precision comparison.
- SumOfN.Method3: Python integers are unbounded, and so are Dafny's. The 32/64-bit
  limits of other languages do not apply and are not modelled.
- Sweep.SortApp: an escaping `UnboundLocalError` becomes a `Failure` result. The
  HTTP 500 response FastAPI then sends is not modelled.

## Findings

| source | as written | input that shows it | evidently intended | confidence | as-written member | corrected member |
|---|---|---|---|---|---|---|
| api1.py:321-324 | the `/calculate-pi` handler admits any `seconds >= 0.0001` but passes `int(seconds)` to `calculate_pi`; for `seconds < 1` and a clock that does not step back, the loop `time.time() - start_time < 0` never runs, `total` stays 0, and `4 * inside / total` raises `ZeroDivisionError` | `seconds = 0.5` (any value in `[0.0001, 1)`) | pass `seconds` unchanged, as the `api2.py` copy does, so sub-second requests sample for that long and return an estimate in `[0, 4]` | not executed | MonteCarloPi.CalculatePiEndpoint | MonteCarloPi.AsyncCalculatePiEndpoint |
