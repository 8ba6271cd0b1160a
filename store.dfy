/**
 * The in-memory event store of main.go and its queries: the append-only
 * `history`, the `statistics` buckets per category key, the correlator that
 * attaches stack frames to the most recent PHP error, `show`, `summary` and the
 * detail lookup.
 */
module Store {
  import opened Text
  import opened Events
  import AppParser
  import Framing
  import NginxParser
  import ProcessParser
  import PhpParser
  import GenericParser
  import Dispatch
  import Settings

  /** `time.ParseDuration`: a duration in nanoseconds, or `None` for bad syntax. */
  type DurationParser = string -> Option<int>

  /** The default `summary` window, 24 hours in nanoseconds. */
  const Day: int := 24 * 60 * 60 * 1_000_000_000

  /**
   * A `statistics` bucket: history indices of one category, after the nil
   * placeholder (`None`) that every new bucket starts with.
   */
  type Bucket = seq<Option<nat>>

  /** One line of `summary`: how many events lie in the window, and how long ago the newest of them was. */
  datatype Row = Row(count: nat, lastDuration: int)

  // ---------------------------------------------------------------------------
  // Specification of the state

  /** The category key of every event of `h`, in order. */
  function Categories(h: seq<LogEvent>): (keys: seq<string>)
    ensures |keys| == |h|
  {
    if h == [] then [] else Categories(h[..|h| - 1]) + [h[|h| - 1].Summary()]
  }

  lemma {:induction false} CategoryAt(h: seq<LogEvent>, i: nat)
    requires i < |h|
    ensures Categories(h)[i] == h[i].Summary()
  {
    if i < |h| - 1 {
      CategoryAt(h[..|h| - 1], i);
    }
  }

  /** Replacing an event by one of the same category keeps the categories. */
  lemma {:induction false} CategoriesUpdate(h: seq<LogEvent>, i: nat, e: LogEvent)
    requires i < |h| && e.Summary() == h[i].Summary()
    ensures Categories(h[i := e]) == Categories(h)
  {
    var n := |h| - 1;
    assert h[i := e][..n] == if i == n then h[..n] else h[..n][i := e];
    if i < n {
      CategoriesUpdate(h[..n], i, e);
    }
  }

  /** The indices in `keys` of category `key`, in increasing order. */
  function Positions<K(==)>(keys: seq<K>, key: K): (r: seq<nat>)
    ensures forall j :: 0 <= j < |r| ==> r[j] < |keys| && keys[r[j]] == key
  {
    if keys == [] then []
    else Positions(keys[..|keys| - 1], key) + (if keys[|keys| - 1] == key then [|keys| - 1] else [])
  }

  lemma PositionsPrefix<K>(keys: seq<K>, n: nat, key: K)
    requires 0 < n <= |keys|
    ensures Positions(keys[..n], key) ==
      Positions(keys[..n - 1], key) + (if keys[n - 1] == key then [n - 1] else [])
  {
    assert keys[..n][..n - 1] == keys[..n - 1];
  }

  /** `Positions` is increasing and misses no index of the category. */
  lemma {:induction false} PositionsComplete<K>(keys: seq<K>, key: K)
    ensures var r := Positions(keys, key);
      && (forall j, k :: 0 <= j < k < |r| ==> r[j] < r[k])
      && (forall i :: 0 <= i < |keys| && keys[i] == key ==> i in r)
  {
    if keys != [] {
      PositionsComplete(keys[..|keys| - 1], key);
    }
  }

  /** Indices as non-nil bucket entries. */
  function Entries(p: seq<nat>): (b: Bucket)
    ensures |b| == |p| && forall j :: 0 <= j < |p| ==> b[j] == Some(p[j])
  {
    seq(|p|, j requires 0 <= j < |p| => Some(p[j]))
  }

  lemma EntriesSnoc(p: seq<nat>, n: nat)
    ensures Entries(p + [n]) == Entries(p) + [Some(n)]
  {
  }

  /** The buckets that ingesting events of categories `keys` one at a time builds. */
  function Buckets<K(==)>(keys: seq<K>): map<K, Bucket> {
    if keys == [] then map[]
    else Filed(Buckets(keys[..|keys| - 1]), keys[|keys| - 1], |keys| - 1)
  }

  /** `stats` after filing index `n` under `key`: the bucket, opened with the placeholder if new, gains `n`. */
  function Filed<K(==)>(stats: map<K, Bucket>, key: K, n: nat): map<K, Bucket> {
    stats[key := (if key in stats then stats[key] else [None]) + [Some(n)]]
  }

  /** Appending an event appends its category. */
  lemma CategoriesSnoc(h: seq<LogEvent>, e: LogEvent)
    ensures Categories(h + [e]) == Categories(h) + [e.Summary()]
  {
    assert (h + [e])[..|h|] == h;
  }

  /** Appending a key appends its position to that key's bucket, opening the bucket with the placeholder. */
  lemma BucketsSnoc<K>(keys: seq<K>, key: K)
    ensures Buckets(keys + [key]) == Filed(Buckets(keys), key, |keys|)
  {
    assert (keys + [key])[..|keys|] == keys;
  }

  /** The buckets of one more event: its category's bucket gains the event's index. */
  lemma IngestStep(h: seq<LogEvent>, e: LogEvent)
    ensures Buckets(Categories(h + [e])) == Filed(Buckets(Categories(h)), e.Summary(), |h|)
  {
    calc {
      Buckets(Categories(h + [e]));
      { CategoriesSnoc(h, e); }
      Buckets(Categories(h) + [e.Summary()]);
      { BucketsSnoc(Categories(h), e.Summary()); }
      Filed(Buckets(Categories(h)), e.Summary(), |h|);
    }
  }

  /** `stats` with the bucket for `key` opened with the placeholder if it was missing. */
  function Opened<K(==)>(stats: map<K, Bucket>, key: K): (r: map<K, Bucket>)
    ensures key in r
  {
    if key in stats then stats else stats[key := [None]]
  }

  /** Opening a missing bucket with the placeholder and then appending is filing. */
  lemma OpenThenFile<K>(stats: map<K, Bucket>, key: K, n: nat)
    ensures Opened(stats, key)[key := Opened(stats, key)[key] + [Some(n)]] == Filed(stats, key, n)
  {
  }

  /** A category has a bucket exactly when some event of that category was ingested. */
  lemma {:induction false} BucketKeys<K>(keys: seq<K>, key: K)
    ensures key in Buckets(keys) <==> key in keys
  {
    if keys != [] {
      var n := |keys| - 1;
      assert keys == keys[..n] + [keys[n]];
      BucketKeys(keys[..n], key);
    }
  }

  /** A bucket is the placeholder followed by the indices of its category's events, in order. */
  lemma {:induction false} BucketContents<K>(keys: seq<K>, key: K)
    requires key in Buckets(keys)
    ensures Buckets(keys)[key] == [None] + Entries(Positions(keys, key))
  {
    var n := |keys| - 1;
    var before := keys[..n];
    if key in Buckets(before) {
      BucketContents(before, key);
      if keys[n] == key {
        EntriesSnoc(Positions(before, key), n);
      }
    } else {
      BucketKeys(before, key);
      PositionsAbsent(before, key);
      EntriesSnoc([], n);
    }
  }

  lemma {:induction false} PositionsAbsent<K>(keys: seq<K>, key: K)
    requires key !in keys
    ensures Positions(keys, key) == []
  {
    if keys != [] {
      assert keys == keys[..|keys| - 1] + [keys[|keys| - 1]];
      PositionsAbsent(keys[..|keys| - 1], key);
    }
  }

  /** Every non-nil entry of `b` is an index below `n`. */
  predicate InRange(n: nat, b: Bucket) {
    forall j :: 0 <= j < |b| && b[j].Some? ==> b[j].value < n
  }

  /** What the `summary` loop needs of a bucket: a non-nil last entry, and indices below `n`. */
  predicate Sound(n: nat, b: Bucket) {
    |b| > 0 && b[|b| - 1].Some? && InRange(n, b)
  }

  /** Every bucket ends in an event and holds only indices of ingested events. */
  lemma {:induction false} BucketsSound<K>(keys: seq<K>)
    ensures forall key | key in Buckets(keys) :: Sound(|keys|, Buckets(keys)[key])
  {
    if keys != [] {
      var n := |keys| - 1;
      var before := Buckets(keys[..n]);
      BucketsSound(keys[..n]);
      forall key | key in Buckets(keys) ensures Sound(|keys|, Buckets(keys)[key]) {
        if key in before {
          assert Sound(n, before[key]);
        }
      }
    }
  }

  // ---------------------------------------------------------------------------
  // Specification of the correlator

  /** The most recent PHP error event of `h`. */
  function LastPhp(h: seq<LogEvent>): (r: Option<nat>)
    ensures r.Some? ==> r.value < |h| && h[r.value].Php? && forall i :: r.value < i < |h| ==> !h[i].Php?
    ensures r.None? ==> forall i :: 0 <= i < |h| ==> !h[i].Php?
  {
    if h == [] then None
    else if h[|h| - 1].Php? then Some(|h| - 1)
    else LastPhp(h[..|h| - 1])
  }

  /** `h` with a copy of `f` appended to the frames of its most recent PHP error, if it has one. */
  function Attach(h: seq<LogEvent>, f: StackFrame): seq<LogEvent> {
    match LastPhp(h)
    case None => h
    case Some(j) => h[j := h[j].AddStackTraceEvent(f)]
  }

  /** The history after `getEvent` produced `event`: only a stack-frame event is correlated. */
  function Correlated(h: seq<LogEvent>, event: Result<Option<LogEvent>>): seq<LogEvent> {
    if event.Ok? && event.value.Some? && event.value.value.PhpStackTrace?
    then Attach(h, event.value.value.frame)
    else h
  }

  /**
   * The correlator changes one event at most: the most recent PHP error gains
   * the frame as its last entry and keeps everything else; no category changes.
   */
  lemma AttachChangesOnlyLastPhp(h: seq<LogEvent>, f: StackFrame)
    ensures |Attach(h, f)| == |h|
    ensures forall i :: 0 <= i < |h| && LastPhp(h) != Some(i) ==> Attach(h, f)[i] == h[i]
    ensures LastPhp(h).Some? ==> var j := LastPhp(h).value;
      Attach(h, f)[j].stackTraceEvents == h[j].stackTraceEvents + [f]
      && Attach(h, f)[j].(stackTraceEvents := h[j].stackTraceEvents) == h[j]
    ensures forall i :: 0 <= i < |h| ==> Attach(h, f)[i].Summary() == h[i].Summary()
  {
  }

  /** The backward scan's stopping point is the most recent PHP error; attaching there keeps every category. */
  lemma AttachAt(h: seq<LogEvent>, f: StackFrame, i: nat)
    requires i < |h| && h[i].Php? && forall k :: i < k < |h| ==> !h[k].Php?
    ensures Attach(h, f) == h[i := h[i].AddStackTraceEvent(f)]
    ensures Categories(Attach(h, f)) == Categories(h)
  {
    assert LastPhp(h) == Some(i);
    CategoriesUpdate(h, i, h[i].AddStackTraceEvent(f));
  }

  // ---------------------------------------------------------------------------
  // Specification of the queries

  /** The syslog time of every event of `h`, in order. */
  function Times(h: seq<LogEvent>): (times: seq<int>)
    ensures |times| == |h| && forall i :: 0 <= i < |h| ==> times[i] == h[i].GetSyslogTime()
  {
    seq(|h|, i requires 0 <= i < |h| => h[i].GetSyslogTime())
  }

  /** Whether event `i` is at most `window` older than the newest event. */
  predicate InWindow(times: seq<int>, i: nat, window: int)
    requires i < |times|
  {
    times[|times| - 1] - times[i] <= window
  }

  /** Whether `show category window` lists event `i`; `wildcard` (`*`) stands for every category. */
  predicate Listed<K(==)>(keys: seq<K>, times: seq<int>, i: nat, category: K, wildcard: K, window: int)
    requires i < |keys| == |times|
  {
    (category == wildcard || keys[i] == category) && InWindow(times, i, window)
  }

  /** The indices below `n` that `show category window` lists, in increasing order. */
  function Listing<K(==)>(keys: seq<K>, times: seq<int>, n: nat, category: K, wildcard: K, window: int)
    : (r: seq<nat>)
    requires n <= |keys| == |times|
    ensures forall j :: 0 <= j < |r| ==> r[j] < n
  {
    if n == 0 then []
    else
      Listing(keys, times, n - 1, category, wildcard, window)
        + (if Listed(keys, times, n - 1, category, wildcard, window) then [n - 1] else [])
  }

  /** `show` lists, in increasing index order, exactly the events below `n` it should list. */
  lemma {:induction false} ListingComplete<K>(keys: seq<K>, times: seq<int>, n: nat, category: K, wildcard: K,
                                              window: int)
    requires n <= |keys| == |times|
    ensures var r := Listing(keys, times, n, category, wildcard, window);
      && (forall j, k :: 0 <= j < k < |r| ==> r[j] < r[k])
      && (forall i :: 0 <= i < n ==> (i in r <==> Listed(keys, times, i, category, wildcard, window)))
  {
    if n > 0 {
      ListingComplete(keys, times, n - 1, category, wildcard, window);
      var r := Listing(keys, times, n - 1, category, wildcard, window);
      var tail := if Listed(keys, times, n - 1, category, wildcard, window) then [n - 1] else [];
      assert Listing(keys, times, n, category, wildcard, window) == r + tail;
      assert n - 1 !in r;
      forall i | 0 <= i < n - 1 ensures (i in r + tail <==> i in r) {}
    }
  }

  /** The number of non-nil entries of `b` that are in the window. */
  function WindowCount(times: seq<int>, b: Bucket, window: int): nat
    requires InRange(|times|, b)
  {
    if b == [] then 0
    else
      WindowCount(times, b[..|b| - 1], window)
        + (if b[|b| - 1].Some? && InWindow(times, b[|b| - 1].value, window) then 1 else 0)
  }

  lemma WindowCountSnoc(times: seq<int>, b: Bucket, x: Option<nat>, window: int)
    requires InRange(|times|, b) && (x.Some? ==> x.value < |times|)
    ensures InRange(|times|, b + [x])
    ensures WindowCount(times, b + [x], window) ==
      WindowCount(times, b, window) + (if x.Some? && InWindow(times, x.value, window) then 1 else 0)
  {
    assert (b + [x])[..|b|] == b;
  }

  /**
   * The `summary` line of a bucket: its count in the window and how long
   * before the newest event its own newest event came; `None` for a count of zero.
   */
  function Line(times: seq<int>, b: Bucket, window: int): Option<Row>
    requires Sound(|times|, b)
  {
    var count := WindowCount(times, b, window);
    if count == 0 then None
    else Some(Row(count, times[|times| - 1] - times[b[|b| - 1].value]))
  }

  /** The `summary` lines of the buckets of `keys`. */
  function RowsOf<K(==)>(times: seq<int>, stats: map<K, Bucket>, keys: set<K>, window: int): map<K, Row>
    requires forall key | key in stats :: Sound(|times|, stats[key])
  {
    map key | key in keys && key in stats && Line(times, stats[key], window).Some? :: Line(times, stats[key], window).value
  }

  lemma RowsOfStep<K>(times: seq<int>, stats: map<K, Bucket>, keys: set<K>, key: K, window: int)
    requires forall k | k in stats :: Sound(|times|, stats[k])
    requires key in stats && key !in keys
    ensures RowsOf(times, stats, keys + {key}, window) ==
      match Line(times, stats[key], window)
      case None => RowsOf(times, stats, keys, window)
      case Some(row) => RowsOf(times, stats, keys, window)[key := row]
  {
  }

  /** The window `summary` uses: 24 hours without an argument, zero for a bad duration. */
  function SummaryWindow(args: seq<string>, parseDuration: DurationParser, sinceLastPrompt: int): int {
    if |args| == 0 then Day
    else if args[0] == "last-prompt" then sinceLastPrompt
    else match parseDuration(args[0]) case Some(d) => d case None => 0
  }

  /** The window `show` uses: zero for a bad duration. */
  function ShowWindow(arg: string, parseDuration: DurationParser): int {
    match parseDuration(arg) case Some(d) => d case None => 0
  }

  /** The bucket of `key` built from the first `n` events counts what `show` lists among them. */
  lemma {:induction false} CountsListed<K>(keys: seq<K>, times: seq<int>, n: nat, key: K, wildcard: K, window: int)
    requires n <= |keys| == |times| && key != wildcard
    ensures InRange(|times|, [None] + Entries(Positions(keys[..n], key)))
    ensures WindowCount(times, [None] + Entries(Positions(keys[..n], key)), window) ==
      |Listing(keys, times, n, key, wildcard, window)|
  {
    if n > 0 {
      CountsListed(keys, times, n - 1, key, wildcard, window);
      var p := Positions(keys[..n - 1], key);
      var b := [None] + Entries(p);
      PositionsPrefix(keys, n, key);
      if keys[n - 1] == key {
        EntriesSnoc(p, n - 1);
        assert [None] + Entries(p + [n - 1]) == b + [Some(n - 1)];
        WindowCountSnoc(times, b, Some(n - 1), window);
      } else {
        assert p + [] == p;
      }
    } else {
      assert Positions(keys[..0], key) == [];
      assert [None] + Entries([]) == [None];
    }
  }

  /** `show` lists nothing for a category no event has. */
  lemma {:induction false} ListingAbsent<K>(keys: seq<K>, times: seq<int>, n: nat, key: K, wildcard: K, window: int)
    requires n <= |keys| == |times| && key != wildcard && key !in keys
    ensures Listing(keys, times, n, key, wildcard, window) == []
  {
    if n > 0 {
      ListingAbsent(keys, times, n - 1, key, wildcard, window);
    }
  }

  /**
   * For a category key, `summary` reports a line exactly when `show` would
   * list some event, and its count is the number of events `show` lists.
   */
  lemma SummaryAgreesWithShow(h: seq<LogEvent>, key: string, window: int)
    requires key != "*"
    ensures var stats := Buckets(Categories(h));
      && (forall k | k in stats :: Sound(|h|, stats[k]))
      && var rows := RowsOf(Times(h), stats, stats.Keys, window);
      var listed := Listing(Categories(h), Times(h), |h|, key, "*", window);
      && (key in rows <==> |listed| > 0)
      && (key in rows ==> rows[key].count == |listed|)
  {
    var keys := Categories(h);
    var times := Times(h);
    BucketsSound(keys);
    BucketKeys(keys, key);
    if key in Buckets(keys) {
      BucketContents(keys, key);
      CountsListed(keys, times, |h|, key, "*", window);
      assert keys[..|h|] == keys;
    } else {
      ListingAbsent(keys, times, |h|, key, "*", window);
    }
  }

  // ---------------------------------------------------------------------------
  // The store

  class LogStore {
    var history: seq<LogEvent>
    var statistics: map<string, Bucket>

    /** Every bucket holds exactly the events of its category, after the placeholder. */
    ghost predicate Valid()
      reads this
    {
      statistics == Buckets(Categories(history))
    }

    constructor ()
      ensures Valid() && history == [] && statistics == map[]
    {
      history := [];
      statistics := map[];
    }

    /** The readLog append step: the event takes index `|history|` and joins the end of its category's bucket. */
    method Ingest(event: LogEvent)
      modifies this
      requires Valid()
      ensures Valid()
      ensures history == old(history) + [event]
      ensures statistics == Filed(old(statistics), event.Summary(), |old(history)|)
    {
      IngestStep(history, event);
      var key := event.Summary();
      OpenThenFile(statistics, key, |history|);
      history := history + [event];
      if key !in statistics {
        statistics := statistics[key := [None]];
      }
      statistics := statistics[key := statistics[key] + [Some(|history| - 1)]];
    }

    /** The correlator: scan the history backwards and give the first PHP error found a copy of `frame`. */
    method Correlate(frame: StackFrame)
      modifies this
      requires Valid()
      ensures Valid()
      ensures history == Attach(old(history), frame)
      ensures statistics == old(statistics)
    {
      var i := |history|;
      while i > 0
        invariant 0 <= i <= |history|
        invariant history == old(history) && statistics == old(statistics)
        invariant forall k :: i <= k < |history| ==> !history[k].Php?
      {
        i := i - 1;
        if history[i].Php? {
          AttachAt(history, frame, i);
          history := history[i := history[i].AddStackTraceEvent(frame)];
          assert Categories(history) == Categories(old(history));
          return;
        }
      }
      assert LastPhp(history).None?;
    }

    /** `getEvent`: frame the line, parse its date, run the parsers in turn and correlate a stack frame. */
    method GetEvent(text: string, parseTime: TimeParser, decode: AppParser.ContextDecoder)
      returns (r: Result<Option<LogEvent>>)
      modifies this
      requires Valid()
      ensures Valid()
      ensures r == Dispatch.GetEvent(text, parseTime, decode)
      ensures history == Correlated(old(history), r)
      ensures statistics == old(statistics)
    {
      var framed := Framing.Frame(text);
      if framed.None? {
        return Ok(None);
      }
      var (date, source, message) := framed.value;
      var time := parseTime(Dispatch.SyslogTimeLayout, date);
      if time.None? {
        return Err("Failed to parse " + date);
      }
      r := Classify(time.value, source, message, parseTime, decode);
    }

    /** The parser cascade of `getEvent`, with the correlator run on a stack-frame event. */
    method Classify(syslogTime: int, source: string, message: string, parseTime: TimeParser,
                    decode: AppParser.ContextDecoder) returns (r: Result<Option<LogEvent>>)
      modifies this
      requires Valid()
      ensures Valid()
      ensures r == Dispatch.Classify(syslogTime, source, message, parseTime, decode)
      ensures history == Correlated(old(history), r)
      ensures statistics == old(statistics)
    {
      r := Dispatch.ServiceEvent(syslogTime, source, message, parseTime, decode);
      if r == Ok(None) {
        r := ClassifyPhp(syslogTime, source, message);
      }
    }

    /** The tail of the cascade: the PHP parser, then the generic one. */
    method ClassifyPhp(syslogTime: int, source: string, message: string) returns (r: Result<Option<LogEvent>>)
      modifies this
      requires Valid()
      ensures Valid()
      ensures var php := PhpParser.PhpEvent(syslogTime, source, message);
        r == if php != Ok(None) then php else Ok(GenericParser.NewGenericLogEvent(syslogTime, source, message))
      ensures history == Correlated(old(history), r)
      ensures statistics == old(statistics)
    {
      r := PhpParser.NewPhpLogEvent(syslogTime, source, message);
      if r == Ok(None) {
        r := Ok(GenericParser.NewGenericLogEvent(syslogTime, source, message));
        return;
      }
      if r.Ok? && r.value.Some? && r.value.value.PhpStackTrace? {
        Correlate(r.value.value.frame);
      }
    }

    /**
     * One turn of the readLog loop: classify the line and store its event.
     * The result tells whether the event was printed (it is not suppressed);
     * `Ok(None)` for a line that yields no event.
     */
    method ReadLine(text: string, settings: Settings.Settings, matches: RegexMatcher,
                    parseTime: TimeParser, decode: AppParser.ContextDecoder)
      returns (r: Result<Option<bool>>)
      modifies this
      requires Valid()
      ensures Valid()
      ensures var event := Dispatch.GetEvent(text, parseTime, decode);
        var correlated := Correlated(old(history), event);
        if event.Err? then r == Err(event.message) && history == correlated
        else if event.value.None? then r == Ok(None) && history == correlated
        else
          var suppressed := Suppress(event.value.value, settings, matches);
          if suppressed.Err? then r == Err(suppressed.message) && history == correlated
          else r == Ok(Some(!suppressed.value)) && history == correlated + [event.value.value]
    {
      var event := GetEvent(text, parseTime, decode);
      if event.Err? {
        return Err(event.message);
      }
      if event.value.None? {
        return Ok(None);
      }
      var suppressed := Suppress(event.value.value, settings, matches);
      if suppressed.Err? {
        return Err(suppressed.message);
      }
      Ingest(event.value.value);
      return Ok(Some(!suppressed.value));
    }

    /** The `summary` count loop over one bucket. */
    method CountRecent(bucket: Bucket, window: int) returns (count: nat)
      requires InRange(|history|, bucket)
      ensures count == WindowCount(Times(history), bucket, window)
    {
      count := 0;
      var j := 0;
      while j < |bucket|
        invariant 0 <= j <= |bucket|
        invariant count == WindowCount(Times(history), bucket[..j], window)
      {
        assert bucket[..j + 1][..j] == bucket[..j];
        if bucket[j].Some? {
          var e := history[bucket[j].value];
          if history[|history| - 1].GetSyslogTime() - e.GetSyslogTime() <= window {
            count := count + 1;
          }
        }
        j := j + 1;
      }
      assert bucket[..j] == bucket;
    }

    /** `summary`: one line per bucket with events in the window. */
    method Summarize(args: seq<string>, parseDuration: DurationParser, sinceLastPrompt: int)
      returns (rows: map<string, Row>)
      requires Valid()
      ensures forall key | key in statistics :: Sound(|history|, statistics[key])
      ensures rows == RowsOf(Times(history), statistics, statistics.Keys, SummaryWindow(args, parseDuration, sinceLastPrompt))
    {
      BucketsSound(Categories(history));
      var window := Day;
      if |args| > 0 {
        if args[0] == "last-prompt" {
          window := sinceLastPrompt;
        } else {
          var parsed := parseDuration(args[0]);
          window := if parsed.Some? then parsed.value else 0;
        }
      }
      rows := Lines(window);
    }

    /** The `summary` loop over the buckets, in whatever order the map yields them. */
    method Lines(window: int) returns (rows: map<string, Row>)
      requires forall key | key in statistics :: Sound(|history|, statistics[key])
      ensures rows == RowsOf(Times(history), statistics, statistics.Keys, window)
    {
      rows := map[];
      var pending := statistics.Keys;
      ghost var done: set<string> := {};
      ghost var times := Times(history);
      while pending != {}
        invariant pending <= statistics.Keys && done == statistics.Keys - pending
        invariant rows == RowsOf(times, statistics, done, window)
        decreases |pending|
      {
        var key :| key in pending;
        var bucket := statistics[key];
        var lastDuration := history[|history| - 1].GetSyslogTime() - history[bucket[|bucket| - 1].value].GetSyslogTime();
        var count := CountRecent(bucket, window);
        assert Line(times, bucket, window) == if count == 0 then None else Some(Row(count, lastDuration));
        RowsOfStep(times, statistics, done, key, window);
        if count != 0 {
          rows := rows[key := Row(count, lastDuration)];
        }
        pending := pending - {key};
        done := done + {key};
      }
    }

    /** `show`: the indices of the listed events in order; `None` (a usage message) with fewer than two arguments. */
    method Show(args: seq<string>, parseDuration: DurationParser) returns (listed: Option<seq<nat>>)
      ensures listed == if |args| < 2 then None
                        else Some(Listing(Categories(history), Times(history), |history|, args[0], "*",
                                          ShowWindow(args[1], parseDuration)))
    {
      if |args| < 2 {
        return None;
      }
      var category := args[0];
      var parsed := parseDuration(args[1]);
      var window := if parsed.Some? then parsed.value else 0;
      var indices := [];
      var i := 0;
      while i < |history|
        invariant 0 <= i <= |history|
        invariant indices == Listing(Categories(history), Times(history), i, category, "*", window)
      {
        var e := history[i];
        CategoryAt(history, i);
        if (category == "*" || e.Summary() == category)
           && history[|history| - 1].GetSyslogTime() - e.GetSyslogTime() <= window {
          indices := indices + [i];
        }
        i := i + 1;
      }
      return Some(indices);
    }

    /** The detail view `history[index]`; an index outside the history is a runtime panic, `Err`. */
    function Detail(index: int): (r: Result<LogEvent>)
      reads this
      ensures r.Ok? <==> 0 <= index < |history|
      ensures r.Ok? ==> r.value == history[index]
    {
      if 0 <= index < |history| then Ok(history[index]) else Err("index out of range")
    }
  }
}
