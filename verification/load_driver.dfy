/**
 * The load-driving script: `read_config` turns the lines of a
 * `key=value` file into a dictionary, and the main block assembles the
 * list of probe requests to send, `requests_count` rounds of the probes
 * the `functions` setting selects.
 *
 * The file system is an oracle: the file is `None` when it does not exist
 * and otherwise the sequence of its lines, each with its line ending.
 */
module LoadDriver {
  import opened Wrappers

  // ------------------------------------------------------- text helpers

  /** Python's `str.isspace()` for one character. */
  predicate IsSpace(c: char)
  {
    || ('\t' <= c <= '\r')
    || ('\U{1C}' <= c <= ' ')
    || c == '\U{85}' || c == '\U{A0}' || c == '\U{1680}'
    || ('\U{2000}' <= c <= '\U{200A}')
    || c == '\U{2028}' || c == '\U{2029}' || c == '\U{202F}' || c == '\U{205F}' || c == '\U{3000}'
  }

  /** Neither starts nor ends with whitespace. */
  predicate Stripped(s: string)
  {
    s != [] ==> !IsSpace(s[0]) && !IsSpace(s[|s| - 1])
  }

  /** `s.lstrip()`: a suffix of `s`, with only whitespace dropped. */
  function StripLeading(s: string): (r: string)
    ensures |r| <= |s| && r == s[|s| - |r|..]
    ensures forall k :: 0 <= k < |s| - |r| ==> IsSpace(s[k])
    ensures r != [] ==> !IsSpace(r[0])
  {
    if s != [] && IsSpace(s[0]) then StripLeading(s[1..]) else s
  }

  /** `s.rstrip()`: a prefix of `s`, with only whitespace dropped. */
  function StripTrailing(s: string): (r: string)
    ensures |r| <= |s| && r == s[..|r|]
    ensures forall k :: |r| <= k < |s| ==> IsSpace(s[k])
    ensures r != [] ==> !IsSpace(r[|r| - 1])
  {
    if s != [] && IsSpace(s[|s| - 1]) then StripTrailing(s[..|s| - 1]) else s
  }

  /** `s.strip()`: neither leading nor trailing whitespace is left. */
  function Strip(s: string): (r: string)
    ensures Stripped(r)
  {
    var left := StripLeading(s);
    var r := StripTrailing(left);
    assert r != [] ==> r[0] == left[0];
    r
  }

  /** A character that is not whitespace survives stripping, at its place past the leading whitespace. */
  lemma StripKeepsAt(s: string, k: int)
    requires 0 <= k < |s| && !IsSpace(s[k])
    ensures var left := StripLeading(s);
            0 <= k - (|s| - |left|) < |Strip(s)| && Strip(s)[k - (|s| - |left|)] == s[k]
  {
    var left := StripLeading(s);
    var j := k - (|s| - |left|);
    assert 0 <= j && left[j] == s[k];
    var r := StripTrailing(left);
    assert j < |r| && r[j] == left[j];
  }

  /** Stripping removes only whitespace: every other character of `s` stays. */
  lemma StripKeeps(s: string, c: char)
    requires c in s && !IsSpace(c)
    ensures c in Strip(s)
  {
    var k :| 0 <= k < |s| && s[k] == c;
    StripKeepsAt(s, k);
  }

  /** Stripping adds nothing: every character of `Strip(s)` comes from `s`. */
  lemma StripTakes(s: string, c: char)
    ensures c in Strip(s) ==> c in s
  {
    if c in Strip(s) {
      var left := StripLeading(s);
      var r := StripTrailing(left);
      var k :| 0 <= k < |r| && r[k] == c;
      assert left[k] == c;
      assert s[|s| - |left| + k] == c;
    }
  }

  /**
   * `s.split(sep, 1)` when `sep` occurs in `s`: the text before the FIRST
   * `sep` and all the text after it, which may itself contain `sep`.
   */
  function SplitAtFirst(s: string, sep: char): (parts: (string, string))
    requires sep in s
    ensures s == parts.0 + [sep] + parts.1
    ensures sep !in parts.0
  {
    if s[0] == sep then ([], s[1..])
    else
      assert s == [s[0]] + s[1..];
      var rest := SplitAtFirst(s[1..], sep);
      ([s[0]] + rest.0, rest.1)
  }

  // --------------------------------------------------------- read_config

  /**
   * What one line contributes to the configuration: nothing without an
   * "="; otherwise the stripped line split at its first "=", with key and
   * value stripped again. So the key holds no "=" and neither key nor
   * value starts or ends with whitespace.
   */
  function Entry(line: string): (entry: Option<(string, string)>)
    ensures entry.None? <==> '=' !in line
    ensures entry.Some? ==> '=' !in entry.value.0
    ensures entry.Some? ==> Stripped(entry.value.0) && Stripped(entry.value.1)
  {
    if '=' in line then
      StripKeeps(line, '=');
      var parts := SplitAtFirst(Strip(line), '=');
      StripTakes(parts.0, '=');
      Some((Strip(parts.0), Strip(parts.1)))
    else None
  }

  /** The dictionary after storing the `entries` in order, later ones overwriting. */
  function Store(entries: seq<Option<(string, string)>>): map<string, string>
  {
    if entries == [] then map[]
    else
      var config := Store(entries[..|entries| - 1]);
      match entries[|entries| - 1]
      case None => config
      case Some(kv) => config[kv.0 := kv.1]
  }

  /** The entries the lines contribute, line by line. */
  function Entries(lines: seq<string>): seq<Option<(string, string)>>
  {
    seq(|lines|, i requires 0 <= i < |lines| => Entry(lines[i]))
  }

  /** Entry `i` is the one line `i` contributes. */
  lemma EntriesIndex(lines: seq<string>)
    ensures |Entries(lines)| == |lines|
    ensures forall i :: 0 <= i < |lines| ==> Entries(lines)[i] == Entry(lines[i])
  {
  }

  /** The dictionary after the `for line in file` loop has read `lines`. */
  function ConfigOf(lines: seq<string>): map<string, string>
  {
    Store(Entries(lines))
  }

  datatype ConfigError = FileNotFoundError(filePath: string)

  /**
   * `read_config`: a missing file raises `FileNotFoundError` before any
   * line is read; otherwise each line with an "=" stores its entry,
   * overwriting what an earlier line stored under the same key.
   */
  method ReadConfig(filePath: string, file: Option<seq<string>>)
    returns (r: Result<map<string, string>, ConfigError>)
    ensures file.None? ==> r == Failure(FileNotFoundError(filePath))
    ensures file.Some? ==> r == Success(ConfigOf(file.value))
  {
    if file.None? {
      return Failure(FileNotFoundError(filePath));
    }
    var lines := file.value;
    var config: map<string, string> := map[];
    for i := 0 to |lines|
      invariant config == Store(Entries(lines[..i]))
    {
      ConfigStep(lines, i);
      config := StoreLine(config, lines[i]);
    }
    assert lines[..|lines|] == lines;
    r := Success(config);
  }

  /**
   * The body of the `for line in file` loop: a line with an "=" is
   * stripped and split at its first "=", and the stripped value is stored
   * under the stripped key; any other line changes nothing.
   */
  method StoreLine(config: map<string, string>, line: string) returns (updated: map<string, string>)
    ensures Entry(line).None? ==> updated == config
    ensures Entry(line).Some? ==> updated == config[Entry(line).value.0 := Entry(line).value.1]
  {
    updated := config;
    if '=' in line {
      StripKeeps(line, '=');
      var parts := SplitAtFirst(Strip(line), '=');
      updated := updated[Strip(parts.0) := Strip(parts.1)];
      assert Entry(line) == Some((Strip(parts.0), Strip(parts.1)));
    }
  }

  /** Reading one more line stores its entry, or changes nothing. */
  lemma ConfigStep(lines: seq<string>, i: int)
    requires 0 <= i < |lines|
    ensures Store(Entries(lines[..i + 1]))
            == if Entry(lines[i]).None? then Store(Entries(lines[..i]))
               else Store(Entries(lines[..i]))[Entry(lines[i]).value.0 := Entry(lines[i]).value.1]
  {
    assert lines[..i + 1] == lines[..i] + [lines[i]];
    EntriesAppend(lines[..i], lines[i]);
    StoreAppend(Entries(lines[..i]), Entry(lines[i]));
  }

  /** Storing one more entry updates its key, or changes nothing. */
  lemma StoreAppend(entries: seq<Option<(string, string)>>, entry: Option<(string, string)>)
    ensures Store(entries + [entry])
            == if entry.None? then Store(entries) else Store(entries)[entry.value.0 := entry.value.1]
  {
    assert (entries + [entry])[..|entries|] == entries;
  }

  /** One more line contributes one more entry. */
  lemma EntriesAppend(lines: seq<string>, line: string)
    ensures Entries(lines + [line]) == Entries(lines) + [Entry(line)]
  {
  }

  /** A key is stored exactly when some entry carries it. */
  lemma {:induction false} StoreKeys(entries: seq<Option<(string, string)>>, key: string)
    ensures key in Store(entries)
            <==> exists i :: 0 <= i < |entries| && entries[i].Some? && entries[i].value.0 == key
  {
    if entries != [] {
      var prefix := entries[..|entries| - 1];
      StoreKeys(prefix, key);
      assert forall i :: 0 <= i < |prefix| ==> prefix[i] == entries[i];
    }
  }

  /** The last entry that carries a key decides its value. */
  lemma {:induction false} StoreLastWins(entries: seq<Option<(string, string)>>, i: int)
    requires 0 <= i < |entries| && entries[i].Some?
    requires forall j :: i < j < |entries| ==> entries[j].None? || entries[j].value.0 != entries[i].value.0
    ensures entries[i].value.0 in Store(entries)
    ensures Store(entries)[entries[i].value.0] == entries[i].value.1
  {
    if i < |entries| - 1 {
      var prefix := entries[..|entries| - 1];
      assert prefix[i] == entries[i];
      assert forall j :: i < j < |prefix| ==> prefix[j] == entries[j];
      StoreLastWins(prefix, i);
    }
  }

  /** The line assigns `key`. */
  predicate Assigns(line: string, key: string)
  {
    Entry(line).Some? && Entry(line).value.0 == key
  }

  /** A key is in the configuration exactly when some line assigns it. */
  lemma ConfigKeys(lines: seq<string>, key: string)
    ensures key in ConfigOf(lines) <==> exists i :: 0 <= i < |lines| && Assigns(lines[i], key)
  {
    var entries := Entries(lines);
    EntriesIndex(lines);
    StoreKeys(entries, key);
  }

  /**
   * The last line that assigns a key decides its value: later lines
   * override earlier ones.
   */
  lemma LastAssignmentWins(lines: seq<string>, i: int)
    requires 0 <= i < |lines| && Entry(lines[i]).Some?
    requires forall j :: i < j < |lines| ==> !Assigns(lines[j], Entry(lines[i]).value.0)
    ensures Entry(lines[i]).value.0 in ConfigOf(lines)
    ensures ConfigOf(lines)[Entry(lines[i]).value.0] == Entry(lines[i]).value.1
  {
    var entries := Entries(lines);
    var key := Entry(lines[i]).value.0;
    EntriesIndex(lines);
    forall j | i < j < |entries|
      ensures entries[j].None? || entries[j].value.0 != key
    {
      assert !Assigns(lines[j], key);
    }
    StoreLastWins(entries, i);
  }

  /** A line without "=" leaves the configuration as it was. */
  lemma LineWithoutEqualsIgnored(lines: seq<string>, line: string)
    requires '=' !in line
    ensures ConfigOf(lines + [line]) == ConfigOf(lines)
  {
    EntriesAppend(lines, line);
    StoreAppend(Entries(lines), Entry(line));
  }

  /** Text already without surrounding whitespace is left as it is by stripping. */
  lemma StripStripped(s: string)
    requires Stripped(s)
    ensures Strip(s) == s
  {
  }

  /** Splitting at the first separator recovers the text around it when the part before has none. */
  lemma {:induction false} SplitAtFirstOf(key: string, value: string, sep: char)
    requires sep !in key
    ensures sep in key + [sep] + value
    ensures SplitAtFirst(key + [sep] + value, sep) == (key, value)
  {
    var s := key + [sep] + value;
    assert s[|key|] == sep;
    if key != [] {
      assert s[1..] == key[1..] + [sep] + value;
      SplitAtFirstOf(key[1..], value, sep);
      assert [key[0]] + key[1..] == key;
    } else {
      assert s[1..] == value;
    }
  }

  /**
   * A line `key=value` whose key holds no "=" stores exactly that key and
   * value, even when the value holds further "=" signs.
   */
  lemma EntryOfAssignment(key: string, value: string)
    requires '=' !in key && Stripped(key) && Stripped(value)
    ensures Entry(key + ['='] + value) == Some((key, value))
  {
    var line := key + ['='] + value;
    SplitAtFirstOf(key, value, '=');
    assert Stripped(line) by {
      assert line[0] == if key != [] then key[0] else '=';
      assert line[|line| - 1] == if value != [] then value[|value| - 1] else '=';
    }
    StripStripped(line);
    StripStripped(key);
    StripStripped(value);
  }

  /** Every character of `s` outside the slice `[i, j)` is whitespace. */
  predicate SpaceOutside(s: string, i: int, j: int)
  {
    forall k :: 0 <= k < |s| && !(i <= k < j) ==> IsSpace(s[k])
  }

  /** Where `lstrip` stops: at the first character that is not whitespace. */
  lemma LeadingExact(s: string, i: int)
    requires 0 <= i <= |s| && forall k :: 0 <= k < i ==> IsSpace(s[k])
    requires i < |s| ==> !IsSpace(s[i])
    ensures StripLeading(s) == s[i..]
  {
    var r := StripLeading(s);
    var m := |s| - |r|;
    assert m >= i by {
      assert r != [] ==> r[0] == s[m];
    }
  }

  /** Where `rstrip` stops: after the last character that is not whitespace. */
  lemma TrailingExact(s: string, j: int)
    requires 0 <= j <= |s| && forall k :: j <= k < |s| ==> IsSpace(s[k])
    requires j > 0 ==> !IsSpace(s[j - 1])
    ensures StripTrailing(s) == s[..j]
  {
    var r := StripTrailing(s);
    assert |r| <= j by {
      assert r != [] ==> r[|r| - 1] == s[|r| - 1];
    }
  }

  /** `strip()` keeps one slice of the text, with only whitespace outside it. */
  lemma StripBounds(x: string) returns (p: int, q: int)
    ensures 0 <= p <= q <= |x| && Strip(x) == x[p..q]
    ensures SpaceOutside(x, p, q)
  {
    var left := StripLeading(x);
    var right := StripTrailing(left);
    p := |x| - |left|;
    q := p + |right|;
    assert x[p..q] == right by {
      assert forall c :: 0 <= c < q - p ==> x[p..q][c] == left[c];
    }
    forall k | 0 <= k < |x| && !(p <= k < q)
      ensures IsSpace(x[k])
    {
      if k >= q {
        assert left[k - p] == x[k];
      }
    }
  }

  /**
   * A slice without surrounding whitespace, with only whitespace outside
   * it, is what `strip()` returns.
   */
  lemma StripUnique(s: string, i: int, j: int)
    requires 0 <= i <= j <= |s| && Stripped(s[i..j]) && SpaceOutside(s, i, j)
    ensures Strip(s) == s[i..j]
  {
    if i < j {
      var left := s[i..];
      var n := j - i;
      var part := s[i..j];
      assert !IsSpace(s[i]) by {
        assert s[i] == part[0];
      }
      assert !IsSpace(left[n - 1]) by {
        assert left[n - 1] == part[|part| - 1];
      }
      assert forall k :: n <= k < |left| ==> left[k] == s[i + k];
      assert left[..n] == part by {
        assert forall c :: 0 <= c < n ==> left[..n][c] == part[c];
      }
      LeadingExact(s, i);
      TrailingExact(left, n);
    } else {
      LeadingExact(s, |s|);
    }
  }

  /** Whitespace outside a slice of a slice is whitespace outside the inner slice of the whole. */
  lemma SpaceOutsideNested(s: string, i: int, j: int, a: int, b: int)
    requires 0 <= i <= j <= |s| && 0 <= a <= b <= j - i
    requires SpaceOutside(s, i, j) && SpaceOutside(s[i..j], a, b)
    ensures SpaceOutside(s, i + a, i + b)
  {
    forall k | 0 <= k < |s| && !(i + a <= k < i + b)
      ensures IsSpace(s[k])
    {
      if i <= k < j {
        assert s[i..j][k - i] == s[k];
      }
    }
  }

  /** Stripping a slice is stripping the whole text when only whitespace lies outside the slice. */
  lemma StripOfPart(s: string, i: int, j: int)
    requires 0 <= i <= j <= |s| && SpaceOutside(s, i, j)
    ensures Strip(s[i..j]) == Strip(s)
  {
    var a, b := StripBounds(s[i..j]);
    StripOfInnerSlice(s, i, j, a, b);
  }

  /** The stripped slice of a slice, with only whitespace around both, is what stripping the whole keeps. */
  lemma StripOfInnerSlice(s: string, i: int, j: int, a: int, b: int)
    requires 0 <= i <= j <= |s| && 0 <= a <= b <= j - i
    requires SpaceOutside(s, i, j) && SpaceOutside(s[i..j], a, b)
    requires Stripped(s[i..j][a..b])
    ensures Strip(s) == s[i..j][a..b]
  {
    var x, y := i + a, i + b;
    assert s[x..y] == s[i..j][a..b] by {
      assert forall c :: 0 <= c < b - a ==> s[i..j][a..b][c] == s[x + c];
    }
    SpaceOutsideNested(s, i, j, a, b);
    StripUnique(s, x, y);
  }

  /**
   * Any line, with its surrounding whitespace and its "\n": the line is
   * stripped, split at its first "=", and both halves are stripped again,
   * so for the first "=" at `k` the entry is the text before it and the
   * text after it, each stripped.
   */
  lemma EntryOfLine(line: string, k: int)
    requires 0 <= k < |line| && line[k] == '=' && '=' !in line[..k]
    ensures Entry(line) == Some((Strip(line[..k]), Strip(line[k + 1..])))
  {
    var p, q := StripBounds(line);
    assert p <= k < q by {
      assert !IsSpace(line[k]);
    }
    var start := k + 1;
    var key := line[p..k];
    var value := line[start..q];
    SliceAround(line, p, k, q);
    EntryOfStripped(line, key, value);
    KeyPart(line, k, p);
    ValuePart(line, k, q);
  }

  /** A line whose stripped text is `key=value`, with no "=" in `key`, has the entry of that key and value, each stripped. */
  lemma EntryOfStripped(line: string, key: string, value: string)
    requires Strip(line) == key + ['='] + value && '=' !in key
    ensures Entry(line) == Some((Strip(key), Strip(value)))
  {
    SplitAtFirstOf(key, value, '=');
    StripTakes(line, '=');
  }

  /** A slice cut at one of its characters, and a slice of a prefix. */
  lemma SliceAround(s: string, p: int, k: int, q: int)
    requires 0 <= p <= k < q <= |s|
    ensures s[p..q] == s[p..k] + [s[k]] + s[k + 1..q]
    ensures s[p..k] == s[..k][p..k]
  {
  }

  /** The key part of the stripped line strips to the stripped text before the "=". */
  lemma KeyPart(line: string, k: int, p: int)
    requires 0 <= p <= k < |line| && forall c :: 0 <= c < p ==> IsSpace(line[c])
    ensures Strip(line[p..k]) == Strip(line[..k])
  {
    var before := line[..k];
    assert before[p..k] == line[p..k];
    assert forall c :: 0 <= c < p ==> before[c] == line[c];
    StripOfPart(before, p, k);
  }

  /** The value part of the stripped line strips to the stripped text after the "=". */
  lemma ValuePart(line: string, k: int, q: int)
    requires 0 <= k < q <= |line| && forall c :: q <= c < |line| ==> IsSpace(line[c])
    ensures Strip(line[k + 1..q]) == Strip(line[k + 1..])
  {
    var start := k + 1;
    var m := q - start;
    var rest := line[start..];
    assert rest[0..m] == line[start..q];
    forall c | 0 <= c < |rest| && !(0 <= c < m)
      ensures IsSpace(rest[c])
    {
      assert rest[c] == line[start + c];
    }
    StripOfPart(rest, 0, m);
  }

  // ---------------------------------------------------- task assembly

  /** The probe requests the script can send. */
  datatype Probe =
    | TestLatency
    | TestSort
    | TestCalculatePi
    | TestSumOfNNumbers
    | TestObjectCreationDeletion

  /** The name the `functions` setting uses for each probe. */
  function ProbeName(p: Probe): string
  {
    match p
    case TestLatency => "latency"
    case TestSort => "sort"
    case TestCalculatePi => "calculate_pi"
    case TestSumOfNNumbers => "sum_of_n_numbers"
    case TestObjectCreationDeletion => "object_creation_deletion"
  }

  /** The fixed order in which the main block considers the probes. */
  const AllProbes: seq<Probe> :=
    [TestLatency, TestSort, TestCalculatePi, TestSumOfNNumbers, TestObjectCreationDeletion]

  /** The position of a probe in that order. */
  function Rank(p: Probe): nat
  {
    match p
    case TestLatency => 0
    case TestSort => 1
    case TestCalculatePi => 2
    case TestSumOfNNumbers => 3
    case TestObjectCreationDeletion => 4
  }

  /** `needle` occurs in `haystack` starting at position `k`. */
  predicate OccursAt(needle: string, haystack: string, k: int)
  {
    0 <= k && k + |needle| <= |haystack| && haystack[k..k + |needle|] == needle
  }

  /** Python's `needle in haystack` on strings. */
  predicate IsSubstring(needle: string, haystack: string)
  {
    exists k :: 0 <= k <= |haystack| - |needle| && OccursAt(needle, haystack, k)
  }

  /** The probes of `probes` whose name occurs in `functions`, in order. */
  function Matching(probes: seq<Probe>, functions: string): seq<Probe>
  {
    if probes == [] then []
    else Appended(probes[0], functions) + Matching(probes[1..], functions)
  }

  /**
   * The requests one round schedules: all five probes when `functions`
   * is exactly "all"; otherwise those whose name occurs in it.
   */
  function Round(functions: string): seq<Probe>
  {
    if functions == "all" then AllProbes else Matching(AllProbes, functions)
  }

  /** `n` rounds, one after the other; none when `n <= 0`. */
  function Repeat(round: seq<Probe>, n: int): seq<Probe>
    decreases n
  {
    if n <= 0 then [] else Repeat(round, n - 1) + round
  }

  /** What the `if` statements of one loop iteration append. */
  function Appended(p: Probe, functions: string): seq<Probe>
  {
    if IsSubstring(ProbeName(p), functions) then [p] else []
  }

  /** No probe name occurs in "all", so its round is the five probes alone. */
  lemma AllSchedulesEveryProbeOnce()
    ensures Matching(AllProbes, "all") == []
    ensures Round("all") == AllProbes && |Round("all")| == 5
  {
    MatchingUnfolded("all");
    assert !IsSubstring("latency", "all");
    assert !IsSubstring("sort", "all");
    assert !IsSubstring("calculate_pi", "all");
    assert !IsSubstring("sum_of_n_numbers", "all");
    assert !IsSubstring("object_creation_deletion", "all");
  }

  /** A probe is selected exactly when it is listed and its name occurs in `functions`. */
  lemma {:induction false} MatchingMembers(probes: seq<Probe>, functions: string, p: Probe)
    ensures p in Matching(probes, functions) <==> p in probes && IsSubstring(ProbeName(p), functions)
  {
    if probes != [] {
      MatchingMembers(probes[1..], functions, p);
      assert probes == [probes[0]] + probes[1..];
    }
  }

  /** The probes appear in the order latency, sort, calculate_pi, sum_of_n_numbers, object_creation_deletion. */
  predicate InProbeOrder(probes: seq<Probe>)
  {
    forall i, j :: 0 <= i < j < |probes| ==> Rank(probes[i]) < Rank(probes[j])
  }

  /** Dropping the first probe keeps the order. */
  lemma InProbeOrderTail(probes: seq<Probe>)
    requires probes != [] && InProbeOrder(probes)
    ensures InProbeOrder(probes[1..])
    ensures forall p :: p in probes[1..] ==> Rank(probes[0]) < Rank(p)
  {
    var tail := probes[1..];
    forall i, j | 0 <= i < j < |tail| ensures Rank(tail[i]) < Rank(tail[j]) {
      assert tail[i] == probes[i + 1] && tail[j] == probes[j + 1];
    }
    forall p | p in tail ensures Rank(probes[0]) < Rank(p) {
      var j :| 0 <= j < |tail| && tail[j] == p;
      assert probes[j + 1] == p;
    }
  }

  /** A probe ranked before every probe of an ordered list can go in front of it. */
  lemma InProbeOrderCons(p: Probe, rest: seq<Probe>)
    requires InProbeOrder(rest)
    requires forall q :: q in rest ==> Rank(p) < Rank(q)
    ensures InProbeOrder([p] + rest)
  {
    var m := [p] + rest;
    forall i, j | 0 <= i < j < |m| ensures Rank(m[i]) < Rank(m[j]) {
      assert m[j] == rest[j - 1] && m[j] in rest;
      if i > 0 {
        assert m[i] == rest[i - 1];
      }
    }
  }

  /** Selection keeps the order of the listed probes. */
  lemma {:induction false} MatchingInOrder(probes: seq<Probe>, functions: string)
    requires InProbeOrder(probes)
    ensures InProbeOrder(Matching(probes, functions))
  {
    if probes != [] {
      var tail := probes[1..];
      InProbeOrderTail(probes);
      MatchingInOrder(tail, functions);
      var rest := Matching(tail, functions);
      if IsSubstring(ProbeName(probes[0]), functions) {
        forall q | q in rest ensures Rank(probes[0]) < Rank(q) {
          MatchingMembers(tail, functions, q);
        }
        InProbeOrderCons(probes[0], rest);
      } else {
        assert Matching(probes, functions) == rest;
      }
    }
  }

  /**
   * Unless `functions` is "all", a probe is scheduled in a round exactly
   * when its name is a substring of `functions`; a round never schedules
   * a probe twice and keeps the order latency, sort, calculate_pi,
   * sum_of_n_numbers, object_creation_deletion.
   */
  lemma RoundSelection(functions: string, p: Probe)
    requires functions != "all"
    ensures p in Round(functions) <==> IsSubstring(ProbeName(p), functions)
    ensures InProbeOrder(Round(functions))
  {
    AllProbesListed(p);
    MatchingMembers(AllProbes, functions, p);
    MatchingInOrder(AllProbes, functions);
  }

  /** The main block lists every probe, in probe order. */
  lemma AllProbesListed(p: Probe)
    ensures p in AllProbes && InProbeOrder(AllProbes)
  {
    forall i, j | 0 <= i < j < |AllProbes| ensures Rank(AllProbes[i]) < Rank(AllProbes[j]) {
      assert Rank(AllProbes[i]) == i && Rank(AllProbes[j]) == j;
    }
  }

  /** Selection goes through the listed probes front to back. */
  lemma MatchingCons(p: Probe, rest: seq<Probe>, functions: string)
    ensures Matching([p] + rest, functions) == Appended(p, functions) + Matching(rest, functions)
  {
    assert ([p] + rest)[1..] == rest;
  }

  /** The five `if` statements append exactly the matching probes. */
  lemma MatchingUnfolded(functions: string)
    ensures Matching(AllProbes, functions)
            == Appended(TestLatency, functions) + (Appended(TestSort, functions)
               + (Appended(TestCalculatePi, functions) + (Appended(TestSumOfNNumbers, functions)
               + Appended(TestObjectCreationDeletion, functions))))
  {
    var p4 := [TestObjectCreationDeletion];
    var p3 := [TestSumOfNNumbers] + p4;
    var p2 := [TestCalculatePi] + p3;
    var p1 := [TestSort] + p2;
    var p0 := [TestLatency] + p1;
    assert p0 == AllProbes;
    MatchingCons(TestObjectCreationDeletion, [], functions);
    assert Matching(p4, functions) == Appended(TestObjectCreationDeletion, functions);
    MatchingCons(TestSumOfNNumbers, p4, functions);
    MatchingCons(TestCalculatePi, p3, functions);
    MatchingCons(TestSort, p2, functions);
    MatchingCons(TestLatency, p1, functions);
  }

  /** `n` rounds hold `n` times as many requests as one round. */
  lemma {:induction false} RepeatLength(round: seq<Probe>, n: int)
    ensures |Repeat(round, n)| == if n <= 0 then 0 else n * |round|
    decreases n
  {
    if n > 0 {
      RepeatLength(round, n - 1);
      assert (n - 1) * |round| + |round| == n * |round|;
    }
  }

  /** One `if "<name>" in functions:` statement of the main block. */
  method AppendIfRequested(before: seq<Probe>, probe: Probe, functions: string)
    returns (testFunctions: seq<Probe>)
    ensures testFunctions == before + Appended(probe, functions)
  {
    testFunctions := before;
    if IsSubstring(ProbeName(probe), functions) {
      testFunctions := testFunctions + [probe];
    }
  }

  /** Appending in two steps appends the concatenation. */
  lemma AppendTwice(xs: seq<Probe>, ys: seq<Probe>, zs: seq<Probe>)
    ensures xs + ys + zs == xs + (ys + zs)
  {
  }

  /** The five `if "<name>" in functions:` statements, in order. */
  method AppendMatching(before: seq<Probe>, functions: string) returns (testFunctions: seq<Probe>)
    ensures testFunctions == before + Matching(AllProbes, functions)
  {
    MatchingUnfolded(functions);
    ghost var r4 := Appended(TestObjectCreationDeletion, functions);
    ghost var r3 := Appended(TestSumOfNNumbers, functions) + r4;
    ghost var r2 := Appended(TestCalculatePi, functions) + r3;
    ghost var r1 := Appended(TestSort, functions) + r2;
    ghost var t := before;
    testFunctions := AppendIfRequested(before, TestLatency, functions);
    AppendTwice(t, Appended(TestLatency, functions), r1);
    t := testFunctions;
    testFunctions := AppendIfRequested(testFunctions, TestSort, functions);
    AppendTwice(t, Appended(TestSort, functions), r2);
    t := testFunctions;
    testFunctions := AppendIfRequested(testFunctions, TestCalculatePi, functions);
    AppendTwice(t, Appended(TestCalculatePi, functions), r3);
    t := testFunctions;
    testFunctions := AppendIfRequested(testFunctions, TestSumOfNNumbers, functions);
    AppendTwice(t, Appended(TestSumOfNNumbers, functions), r4);
    testFunctions := AppendIfRequested(testFunctions, TestObjectCreationDeletion, functions);
  }

  /**
   * One iteration of the main block's loop: the five probes when
   * `functions` is "all", then one `if` per probe name; together they
   * append one round.
   */
  method AppendRound(before: seq<Probe>, functions: string) returns (testFunctions: seq<Probe>)
    ensures testFunctions == before + Round(functions)
  {
    testFunctions := before;
    if functions == "all" {
      testFunctions := testFunctions + [TestLatency];
      testFunctions := testFunctions + [TestSort];
      testFunctions := testFunctions + [TestCalculatePi];
      testFunctions := testFunctions + [TestSumOfNNumbers];
      testFunctions := testFunctions + [TestObjectCreationDeletion];
      assert testFunctions == before + AllProbes;
      AllSchedulesEveryProbeOnce();
    }
    testFunctions := AppendMatching(testFunctions, functions);
  }

  /**
   * The main block's loop over `range(requests_count)`: every iteration
   * appends one round, so the result is `requests_count` rounds (none when
   * it is not positive) and its length `requests_count` times the round's.
   */
  method AssembleTasks(functions: string, requestsCount: int) returns (testFunctions: seq<Probe>)
    ensures testFunctions == Repeat(Round(functions), requestsCount)
    ensures |testFunctions| == if requestsCount <= 0 then 0 else requestsCount * |Round(functions)|
  {
    testFunctions := [];
    var r := 0;
    while r < requestsCount
      invariant 0 <= r
      invariant if requestsCount >= 0 then r <= requestsCount else r == 0
      invariant testFunctions == Repeat(Round(functions), r)
      decreases requestsCount - r
    {
      testFunctions := AppendRound(testFunctions, functions);
      r := r + 1;
    }
    RepeatLength(Round(functions), requestsCount);
  }
}
