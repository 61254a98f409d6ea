/** collect/metrics.go: the metric buffer. Collected batches are kept in
    the store under `m-{unix seconds}`, retired after a lifetime, drained
    by the metric endpoint in key order and summarised by the status
    endpoint. Parsing the output of a metric plugin is here too.

    strconv.ParseFloat is a parameter (`FloatParser`); metric values are
    reals. */
module Collect {
  import opened Wrappers
  import opened Text
  import opened HaLib
  import opened Db

  // ---------------------------------------------------------------------
  // ParseMetricData

  /** strconv.ParseFloat(s, 64): the value, or None for a parse error. */
  type FloatParser = string -> Option<real>

  /** The metrics of one plugin run and the newest timestamp among them. */
  datatype ParsedMetrics = ParsedMetrics(metrics: map<string, real>, timestamp: int)

  function ParseError(line: string): string
  {
    "Failed to parse values: " + line
  }

  /** The tab-separated fields of a line. */
  function Fields(line: string): seq<string>
  {
    Split(line, '\t')
  }

  /** A line is read only when it has exactly three fields:
      key, value and timestamp. */
  predicate Considered(line: string)
  {
    |Fields(line)| == 3
  }

  /** A line that is read but whose value or timestamp does not parse. */
  predicate Malformed(line: string, parseFloat: FloatParser)
  {
    Considered(line) && (parseFloat(Fields(line)[1]).None? || Atoi(Fields(line)[2]).None?)
  }

  /** The result of reading `lines` in order. */
  function ParseLines(lines: seq<string>, parseFloat: FloatParser): Result<ParsedMetrics>
  {
    if lines == [] then Ok(ParsedMetrics(map[], 0))
    else
      var line := lines[|lines| - 1];
      match ParseLines(lines[..|lines| - 1], parseFloat)
      case Err(e) => Err(e)
      case Ok(p) =>
        var items := Fields(line);
        if |items| != 3 then Ok(p)
        else match (parseFloat(items[1]), Atoi(items[2]))
          case (None, _) => Err(ParseError(line))
          case (_, None) => Err(ParseError(line))
          case (Some(value), Some(timestampValue)) =>
            Ok(ParsedMetrics(p.metrics[items[0] := value],
                             if p.timestamp < timestampValue then timestampValue else p.timestamp))
  }

  /** Once a prefix of the lines fails, the whole input fails the same way. */
  lemma {:induction false} ParseLinesErrorStays(lines: seq<string>, i: nat, parseFloat: FloatParser)
    requires i <= |lines| && ParseLines(lines[..i], parseFloat).Err?
    ensures ParseLines(lines, parseFloat) == ParseLines(lines[..i], parseFloat)
    decreases |lines| - i
  {
    if i < |lines| {
      assert lines[..i + 1][..i] == lines[..i];
      ParseLinesErrorStays(lines, i + 1, parseFloat);
    } else {
      assert lines[..i] == lines;
    }
  }

  /** Parsing fails exactly when some read line is malformed, and the error
      names the first such line. */
  lemma {:induction false} ParseLinesError(lines: seq<string>, parseFloat: FloatParser)
    ensures ParseLines(lines, parseFloat).Err? <==>
      exists i :: 0 <= i < |lines| && Malformed(lines[i], parseFloat)
    ensures ParseLines(lines, parseFloat).Err? ==>
      exists i :: (0 <= i < |lines| && Malformed(lines[i], parseFloat) &&
        (forall j :: 0 <= j < i ==> !Malformed(lines[j], parseFloat)) &&
        ParseLines(lines, parseFloat).error == ParseError(lines[i]))
  {
    if lines != [] {
      var init := lines[..|lines| - 1];
      ParseLinesError(init, parseFloat);
      assert forall i :: 0 <= i < |init| ==> init[i] == lines[i];
      if ParseLines(init, parseFloat).Ok? {
        assert forall i :: 0 <= i < |init| ==> !Malformed(lines[i], parseFloat);
      }
    }
  }

  /** On success the keys are exactly the keys of the read lines. */
  lemma {:induction false} ParseLinesKeys(lines: seq<string>, parseFloat: FloatParser)
    requires ParseLines(lines, parseFloat).Ok?
    ensures forall k :: k in ParseLines(lines, parseFloat).value.metrics <==>
      exists i :: 0 <= i < |lines| && Considered(lines[i]) && Fields(lines[i])[0] == k
  {
    if lines != [] {
      var n := |lines| - 1;
      var init := lines[..n];
      ParseLinesKeys(init, parseFloat);
      assert forall i :: 0 <= i < n ==> init[i] == lines[i];
    }
  }

  /** Line `i` is the last read line with key `k`. */
  predicate LastWithKey(lines: seq<string>, k: string, i: int)
  {
    && 0 <= i < |lines| && Considered(lines[i]) && Fields(lines[i])[0] == k
    && forall j :: i < j < |lines| && Considered(lines[j]) ==> Fields(lines[j])[0] != k
  }

  lemma LastWithKeyExtend(lines: seq<string>, k: string, i: int)
    requires |lines| > 0 && LastWithKey(lines[..|lines| - 1], k, i)
    requires !Considered(lines[|lines| - 1]) || Fields(lines[|lines| - 1])[0] != k
    ensures LastWithKey(lines, k, i)
  {
    var init := lines[..|lines| - 1];
    assert forall j :: 0 <= j < |init| ==> init[j] == lines[j];
  }

  /** On success each key holds the value of the last read line with that key. */
  lemma {:induction false} ParseLinesLastWins(lines: seq<string>, parseFloat: FloatParser)
    requires ParseLines(lines, parseFloat).Ok?
    ensures var p := ParseLines(lines, parseFloat).value;
      forall k :: k in p.metrics ==>
        exists i :: LastWithKey(lines, k, i) && Some(p.metrics[k]) == parseFloat(Fields(lines[i])[1])
  {
    if lines != [] {
      var n := |lines| - 1;
      var init := lines[..n];
      ParseLinesLastWins(init, parseFloat);
      var p := ParseLines(lines, parseFloat).value;
      var q := ParseLines(init, parseFloat).value;
      forall k | k in p.metrics
        ensures exists i :: LastWithKey(lines, k, i) && Some(p.metrics[k]) == parseFloat(Fields(lines[i])[1])
      {
        if !Considered(lines[n]) || k != Fields(lines[n])[0] {
          assert k in q.metrics && p.metrics[k] == q.metrics[k];
          var i :| LastWithKey(init, k, i) && Some(q.metrics[k]) == parseFloat(Fields(init[i])[1]);
          LastWithKeyExtend(lines, k, i);
          assert init[i] == lines[i];
        } else {
          assert LastWithKey(lines, k, n);
        }
      }
    }
  }

  /** On success the timestamp is the largest line timestamp, or 0. */
  lemma {:induction false} ParseLinesTimestamp(lines: seq<string>, parseFloat: FloatParser)
    requires ParseLines(lines, parseFloat).Ok?
    ensures var p := ParseLines(lines, parseFloat).value;
      && p.timestamp >= 0
      && (forall i :: 0 <= i < |lines| && Considered(lines[i]) ==>
            Atoi(Fields(lines[i])[2]).Some? && Atoi(Fields(lines[i])[2]).value <= p.timestamp)
      && (p.timestamp == 0 || exists i :: (0 <= i < |lines| && Considered(lines[i]) &&
            Atoi(Fields(lines[i])[2]) == Some(p.timestamp)))
  {
    if lines != [] {
      var n := |lines| - 1;
      var init := lines[..n];
      ParseLinesTimestamp(init, parseFloat);
      assert forall i :: 0 <= i < n ==> init[i] == lines[i];
    }
  }

  /** ParseMetricData: the plugin output split into lines and read in order;
      the first malformed read line ends the run with an error. */
  method ParseMetricData(rawMetricdata: string, parseFloat: FloatParser)
    returns (r: Result<ParsedMetrics>)
    ensures r == ParseLines(Split(rawMetricdata, '\n'), parseFloat)
  {
    var lines := Split(rawMetricdata, '\n');
    var timestamp := 0;
    var results: map<string, real> := map[];
    for i := 0 to |lines|
      invariant ParseLines(lines[..i], parseFloat) == Ok(ParsedMetrics(results, timestamp))
    {
      var line := lines[i];
      assert lines[..i + 1][..i] == lines[..i];
      var items := Split(line, '\t');
      if |items| != 3 {
        continue;
      }
      var value := parseFloat(items[1]);
      if value.None? {
        ParseLinesErrorStays(lines, i + 1, parseFloat);
        return Err(ParseError(line));
      }
      var timestampValue := Atoi(items[2]);
      if timestampValue.None? {
        ParseLinesErrorStays(lines, i + 1, parseFloat);
        return Err(ParseError(line));
      }
      if timestamp < timestampValue.value {
        timestamp := timestampValue.value;
      }
      var key := items[0];
      results := results[key := value.value];
    }
    assert lines[..|lines|] == lines;
    r := Ok(ParsedMetrics(results, timestamp));
  }

  /** A line that is not three fields is skipped: "hoge" gives no metrics,
      timestamp 0 and no error. */
  lemma ParseSkipsShortLine(parseFloat: FloatParser)
    ensures ParseLines(Split("hoge", '\n'), parseFloat) == Ok(ParsedMetrics(map[], 0))
  {
    SplitFirst("hoge", '\n');
    SplitFirst("hoge", '\t');
    assert Split("hoge", '\n') == ["hoge"];
    assert ["hoge"][..0] == [];
  }

  /** One well-formed line gives its key, value and timestamp. */
  lemma ParseOneLine(key: string, valueText: string, t: nat, parseFloat: FloatParser)
    requires '\t' !in key && '\n' !in key && '\t' !in valueText && '\n' !in valueText
    requires parseFloat(valueText).Some? && t <= MaxInt64
    ensures var line := key + "\t" + valueText + "\t" + NatToString(t);
      ParseLines(Split(line, '\n'), parseFloat) ==
        Ok(ParsedMetrics(map[key := parseFloat(valueText).value], t))
  {
    var line := key + "\t" + valueText + "\t" + NatToString(t);
    LineFields(key, valueText, t);
    AtoiIntToString(t);
    assert [line][..0] == [];
  }

  /** A line of two tab-free pieces and a number is one line of three fields. */
  lemma LineFields(key: string, valueText: string, t: nat)
    requires '\t' !in key && '\n' !in key && '\t' !in valueText && '\n' !in valueText
    ensures var line := key + "\t" + valueText + "\t" + NatToString(t);
      Split(line, '\n') == [line] && Fields(line) == [key, valueText, NatToString(t)]
  {
    var digits := NatToString(t);
    NatToStringNoChar(t, '\t');
    NatToStringNoChar(t, '\n');
    var line := key + "\t" + valueText + "\t" + digits;
    assert '\n' !in line;
    SplitFirst(line, '\n');
    assert line == key + ['\t'] + (valueText + ['\t'] + digits);
    SplitAppend(key, valueText, digits, '\t');
  }

  /** Three separator-free pieces joined by the separator split back. */
  lemma SplitAppend(a: string, b: string, c: string, sep: char)
    requires sep !in a && sep !in b && sep !in c
    ensures Split(a + [sep] + (b + [sep] + c), sep) == [a, b, c]
  {
    SplitCons(a, b + [sep] + c, sep);
    SplitTwo(b, c, sep);
  }

  // ---------------------------------------------------------------------
  // SaveMetrics

  /** The key of the batches collected in second `t`: fmt.Sprintf("m-%d", t). */
  function MetricsKey(t: int): string
  {
    "m-" + IntToString(t)
  }

  /** The batch already stored under a key; a missing key or one that does
      not decode contributes nothing. */
  function Prior(m: map<string, StoredValue>, key: string): seq<MetricsData>
  {
    if key in m then
      match DecodeBatch(m[key])
      case Some(b) => b
      case None => []
    else []
  }

  /** The retirement range of SaveMetrics: keys from "m-0" up to, and not
      including, the key of the second `now - MetricsMaxLifetimeSeconds`,
      compared byte by byte. */
  predicate Retired(key: string, now: int)
  {
    !Less(key, "m-0") && Less(key, MetricsKey(now - MetricsMaxLifetimeSeconds))
  }

  /** The store after SaveMetrics: the batch appended under this second's
      key, then every key in the retirement range removed. */
  ghost function SavedStore(m: map<string, StoredValue>, now: int, batch: seq<MetricsData>)
    : map<string, StoredValue>
  {
    var key := MetricsKey(now);
    var put := m[key := MetricsBatch(Prior(m, key) + batch)];
    map k | k in put && !Retired(k, now) :: put[k]
  }

  /** The keys of some entries. */
  ghost function KeySet(es: seq<Entry>): set<string>
  {
    set i | 0 <= i < |es| :: es[i].key
  }

  /** Delete the given entries' keys one after the other. */
  method DeleteEntries(transaction: seq<Entry>, doomed: seq<Entry>) returns (out: seq<Entry>)
    requires Sorted(transaction)
    ensures Sorted(out) && ToMap(out) == ToMap(transaction) - KeySet(doomed)
  {
    out := transaction;
    for i := 0 to |doomed|
      invariant Sorted(out) && ToMap(out) == ToMap(transaction) - KeySet(doomed[..i])
    {
      assert KeySet(doomed[..i + 1]) == KeySet(doomed[..i]) + {doomed[i].key} by {
        assert forall j :: 0 <= j < i ==> doomed[..i + 1][j] == doomed[..i][j];
      }
      DeleteCorrect(out, doomed[i].key);
      out := Delete(out, doomed[i].key);
    }
    assert doomed[..|doomed|] == doomed;
  }

  /** The keys an iterator over util.Range{"m-0", limit} visits are exactly
      the retired keys of the store. */
  lemma RetiredEntries(es: seq<Entry>, now: int)
    ensures KeySet(InRange(es, "m-0", MetricsKey(now - MetricsMaxLifetimeSeconds))) ==
      set k | k in ToMap(es) && Retired(k, now)
  {
    var doomed := InRange(es, "m-0", MetricsKey(now - MetricsMaxLifetimeSeconds));
    InRangeMembers(es, "m-0", MetricsKey(now - MetricsMaxLifetimeSeconds));
    ToMapKeys(es);
    forall k | k in KeySet(doomed)
      ensures k in ToMap(es) && Retired(k, now)
    {
      var i :| 0 <= i < |doomed| && doomed[i].key == k;
      assert doomed[i] in doomed;
      var j :| 0 <= j < |es| && es[j] == doomed[i];
    }
    forall k | k in ToMap(es) && Retired(k, now)
      ensures k in KeySet(doomed)
    {
      var j :| 0 <= j < |es| && es[j].key == k;
      assert es[j] in doomed;
      var i :| 0 <= i < |doomed| && doomed[i] == es[j];
    }
  }

  /** SaveMetrics. `now` is the current Unix time. It always succeeds.
      Store faults (which the source logs or treats as fatal) are not
      modelled. */
  method SaveMetrics(db: DB, now: int, metricsData: seq<MetricsData>) returns (err: Option<string>)
    requires db.Valid()
    modifies db
    ensures db.Valid()
    ensures err == None
    ensures ToMap(db.entries) == SavedStore(ToMap(old(db.entries)), now, metricsData)
  {
    ghost var before := ToMap(db.entries);
    // append this second's batch
    var transaction := db.entries;
    var key := MetricsKey(now);
    var got := Get(transaction, key);
    var batch := metricsData;
    if got.Some? {
      var savedMetricsData: seq<MetricsData> := [];
      var decoded := DecodeBatch(got.value);
      if decoded.Some? {
        savedMetricsData := decoded.value;
      }
      batch := savedMetricsData + batch;
    }
    assert batch == Prior(before, key) + metricsData;
    PutCorrect(transaction, key, MetricsBatch(batch));
    transaction := Put(transaction, key, MetricsBatch(batch));
    db.entries := transaction;
    ghost var put := ToMap(db.entries);
    // retire old metrics
    transaction := db.entries;
    var doomed := InRange(transaction, "m-0", MetricsKey(now - MetricsMaxLifetimeSeconds));
    RetiredEntries(transaction, now);
    SavedStoreRetired(put, before, now, metricsData);
    transaction := DeleteEntries(transaction, doomed);
    db.entries := transaction;
    err := None;
  }

  /** Removing the retired keys from the store with the batch appended is
      the saved store. */
  lemma SavedStoreRetired(put: map<string, StoredValue>, m: map<string, StoredValue>, now: int, batch: seq<MetricsData>)
    requires put == m[MetricsKey(now) := MetricsBatch(Prior(m, MetricsKey(now)) + batch)]
    ensures put - (set k | k in put && Retired(k, now)) == SavedStore(m, now, batch)
  {
  }

  /** The key of the current second survives the retirement that follows
      the save whenever it sorts at or after the retirement limit, and then
      holds the earlier batch of that second followed by the new one. */
  lemma SavedBatch(m: map<string, StoredValue>, now: int, batch: seq<MetricsData>)
    requires !Less(MetricsKey(now), MetricsKey(now - MetricsMaxLifetimeSeconds))
    ensures MetricsKey(now) in SavedStore(m, now, batch)
    ensures SavedStore(m, now, batch)[MetricsKey(now)] == MetricsBatch(Prior(m, MetricsKey(now)) + batch)
  {
  }

  /** A key outside the retirement range is untouched by a save in another
      second; a key in the range is gone. */
  lemma SavedOthers(m: map<string, StoredValue>, now: int, batch: seq<MetricsData>, k: string)
    requires k != MetricsKey(now)
    ensures k in SavedStore(m, now, batch) <==> k in m && !Retired(k, now)
    ensures k in SavedStore(m, now, batch) ==> SavedStore(m, now, batch)[k] == m[k]
  {
  }

  // ---------------------------------------------------------------------
  // Retirement compares keys byte by byte

  /** The leading decimal digit of `n`. */
  function Lead(n: nat): (d: nat)
    ensures d < 10
    decreases n
  {
    if n < 10 then n else Lead(n / 10)
  }

  lemma {:induction false} LeadDigit(n: nat)
    ensures |NatToString(n)| > 0 && NatToString(n)[0] == DigitChar(Lead(n))
    decreases n
  {
    if n >= 10 {
      LeadDigit(n / 10);
    }
  }

  /** Keys sharing a prefix compare as their remainders do. */
  lemma {:induction false} LessAfterPrefix(p: string, x: string, y: string)
    ensures Less(p + x, p + y) == Less(x, y)
  {
    if |p| > 0 {
      assert (p + x)[1..] == p[1..] + x;
      assert (p + y)[1..] == p[1..] + y;
      LessAfterPrefix(p[1..], x, y);
    } else {
      assert p + x == x && p + y == y;
    }
  }

  /** The first digits of the two keys' numbers. */
  lemma LeadingDigits()
    ensures |NatToString(10000000000)| > 0 && NatToString(10000000000)[0] == '1'
    ensures |NatToString(9999395200)| > 0 && NatToString(9999395200)[0] == '9'
  {
    LeadDigit(10000000000);
    LeadDigit(9999395200);
    assert Lead(10000000000) == Lead(1000000000) == Lead(100000000) == Lead(10000000) == 1;
    assert Lead(9999395200) == Lead(999939520) == Lead(99993952) == Lead(9999395) == 9;
  }

  /** At second 10000000000 the key "m-10000000000" sorts before the
      retirement limit "m-9999395200" and after "m-0", so the batch just
      saved is deleted by the same call. */
  lemma FreshBatchRetired(m: map<string, StoredValue>, batch: seq<MetricsData>)
    ensures MetricsKey(10000000000) !in SavedStore(m, 10000000000, batch)
  {
    var now := 10000000000;
    var limit := now - MetricsMaxLifetimeSeconds;
    assert limit == 9999395200;
    var x, y := NatToString(now), NatToString(limit);
    LeadingDigits();
    assert Less(x, y);
    assert MetricsKey(now) == "m-" + x && MetricsKey(limit) == "m-" + y;
    LessAfterPrefix("m-", x, y);
    assert !Less(x, "0");
    assert "m-0" == "m-" + "0";
    LessAfterPrefix("m-", x, "0");
    assert Retired(MetricsKey(now), now);
  }

  /** The evidently intended retirement: a metric key is retired when the
      second it names is older than the lifetime. */
  predicate RetiredByTime(key: string, now: int)
  {
    HasPrefix(key, "m-") && KeyTime(key) < now - MetricsMaxLifetimeSeconds
  }

  /** SaveMetrics with the intended retirement. */
  ghost function SavedStoreByTime(m: map<string, StoredValue>, now: int, batch: seq<MetricsData>)
    : map<string, StoredValue>
  {
    var key := MetricsKey(now);
    var put := m[key := MetricsBatch(Prior(m, key) + batch)];
    map k | k in put && !RetiredByTime(k, now) :: put[k]
  }

  /** The batch of second `t` is retired exactly when `t` is more than the
      lifetime before `now`, whatever the number of digits. */
  lemma RetiredByTimeExact(t: int, now: int)
    requires InInt64(t)
    ensures RetiredByTime(MetricsKey(t), now) <==> t < now - MetricsMaxLifetimeSeconds
  {
    KeyTimeRoundTrip(t);
  }

  /** With the intended retirement the batch just saved is always kept,
      holding the earlier batch of that second followed by the new one,
      and any other key stays unless it is older than the lifetime. */
  lemma SavedByTime(m: map<string, StoredValue>, now: int, batch: seq<MetricsData>, k: string)
    requires InInt64(now)
    ensures MetricsKey(now) in SavedStoreByTime(m, now, batch)
    ensures SavedStoreByTime(m, now, batch)[MetricsKey(now)] == MetricsBatch(Prior(m, MetricsKey(now)) + batch)
    ensures k != MetricsKey(now) ==>
      (k in SavedStoreByTime(m, now, batch) <==> k in m && !RetiredByTime(k, now))
  {
    RetiredByTimeExact(now, now);
  }

  // ---------------------------------------------------------------------
  // GetCollectedMetricsWithLimit

  /** The entries whose value decodes as a batch, in order. */
  function Decodable(scan: seq<Entry>): (d: seq<Entry>)
    ensures |d| <= |scan|
  {
    if scan == [] then []
    else
      var init := Decodable(scan[..|scan| - 1]);
      if DecodeBatch(scan[|scan| - 1].value).Some? then init + [scan[|scan| - 1]] else init
  }

  /** The batch an entry holds (empty when it does not decode). */
  function BatchOf(e: Entry): seq<MetricsData>
  {
    match DecodeBatch(e.value)
    case Some(b) => b
    case None => []
  }

  /** The batches of the entries, concatenated in order. */
  function Concat(es: seq<Entry>): seq<MetricsData>
  {
    if es == [] then [] else Concat(es[..|es| - 1]) + BatchOf(es[|es| - 1])
  }

  /** The entries a drain with this limit takes: the decodable ones in key
      order, at most `limit` of them when `limit > 0` and all otherwise. */
  function Taken(scan: seq<Entry>, limit: int): (t: seq<Entry>)
    ensures limit > 0 ==> |t| == if limit < |Decodable(scan)| then limit else |Decodable(scan)|
    ensures limit <= 0 ==> t == Decodable(scan)
    ensures t == Decodable(scan)[..|t|]
  {
    var d := Decodable(scan);
    if limit > 0 && limit < |d| then d[..limit] else d
  }

  lemma {:induction false} DecodableMembers(scan: seq<Entry>)
    ensures forall e :: e in Decodable(scan) <==> e in scan && DecodeBatch(e.value).Some?
    ensures Sorted(scan) ==> Sorted(Decodable(scan))
  {
    if scan != [] {
      var init := scan[..|scan| - 1];
      DecodableMembers(init);
      assert scan == init + [scan[|scan| - 1]];
      if Sorted(scan) {
        assert Sorted(init);
        var d := Decodable(scan);
        forall i, j | 0 <= i < j < |d|
          ensures Less(d[i].key, d[j].key)
        {
          assert d[i] in scan && d[j] in scan;
          if j == |d| - 1 && d[j] == scan[|scan| - 1] && d != Decodable(init) {
            assert d[i] in init;
            var a :| 0 <= a < |init| && init[a] == d[i];
          }
        }
      }
    }
  }

  /** Filtering a prefix gives a prefix of the filtered sequence. */
  lemma {:induction false} DecodablePrefix(scan: seq<Entry>, pos: nat)
    requires pos <= |scan|
    ensures var d := Decodable(scan[..pos]);
      |d| <= |Decodable(scan)| && d == Decodable(scan)[..|d|]
  {
    if pos < |scan| {
      var init := scan[..|scan| - 1];
      assert init[..pos] == scan[..pos];
      DecodablePrefix(init, pos);
    } else {
      assert scan[..pos] == scan;
    }
  }

  /** One more entry scanned. */
  lemma DecodableStep(scan: seq<Entry>, pos: nat)
    requires pos < |scan|
    ensures Decodable(scan[..pos + 1]) ==
      if DecodeBatch(scan[pos].value).Some? then Decodable(scan[..pos]) + [scan[pos]] else Decodable(scan[..pos])
  {
    assert scan[..pos + 1][..pos] == scan[..pos];
  }

  /** One decodable entry taken by the drain. */
  lemma DrainStep(transaction: seq<Entry>, store: map<string, StoredValue>, d: seq<Entry>, e: Entry)
    requires Sorted(transaction) && ToMap(transaction) == store - KeySet(d)
    ensures Sorted(Delete(transaction, e.key))
    ensures ToMap(Delete(transaction, e.key)) == store - KeySet(d + [e])
    ensures Concat(d + [e]) == Concat(d) + BatchOf(e)
  {
    assert (d + [e])[..|d|] == d;
    assert KeySet(d + [e]) == KeySet(d) + {e.key} by {
      assert forall j :: 0 <= j < |d| ==> (d + [e])[j] == d[j];
      assert (d + [e])[|d|] == e;
    }
    DeleteCorrect(transaction, e.key);
  }

  /** One entry of the drain's scan: skipped when it does not decode,
      otherwise returned and deleted. */
  lemma DrainAdvance(scan: seq<Entry>, pos: nat, d: seq<Entry>, out: seq<Entry>,
                     store: map<string, StoredValue>, collected: seq<MetricsData>)
    requires pos < |scan| && d == Decodable(scan[..pos]) && collected == Concat(d)
    requires Sorted(out) && ToMap(out) == store - KeySet(d)
    ensures DecodeBatch(scan[pos].value).None? ==> d == Decodable(scan[..pos + 1])
    ensures DecodeBatch(scan[pos].value).Some? ==>
      && d + [scan[pos]] == Decodable(scan[..pos + 1])
      && collected + DecodeBatch(scan[pos].value).value == Concat(d + [scan[pos]])
      && Sorted(Delete(out, scan[pos].key))
      && ToMap(Delete(out, scan[pos].key)) == store - KeySet(d + [scan[pos]])
  {
    DecodableStep(scan, pos);
    if DecodeBatch(scan[pos].value).Some? {
      DrainStep(out, store, d, scan[pos]);
    }
  }

  /** Where the drain stops, it has taken exactly `Taken`. */
  lemma DrainEnd(scan: seq<Entry>, pos: nat, limit: int)
    requires pos <= |scan|
    requires pos == |scan| || (limit > 0 && |Decodable(scan[..pos])| == limit)
    requires limit > 0 ==> |Decodable(scan[..pos])| <= limit
    ensures Decodable(scan[..pos]) == Taken(scan, limit)
  {
    DecodablePrefix(scan, pos);
    if pos == |scan| {
      assert scan[..pos] == scan;
    }
  }

  /** GetCollectedMetricsWithLimit: drains the metric buffer in key order,
      deleting what it returns. A batch that does not decode is neither
      returned nor deleted nor counted. Store faults are not modelled. */
  method GetCollectedMetricsWithLimit(db: DB, limit: int) returns (collectedMetricsData: seq<MetricsData>)
    requires db.Valid()
    modifies db
    ensures db.Valid()
    ensures var taken := Taken(WithPrefix(old(db.entries), "m-"), limit);
      collectedMetricsData == Concat(taken) &&
      ToMap(db.entries) == ToMap(old(db.entries)) - KeySet(taken)
  {
    var transaction;
    collectedMetricsData, transaction := Drain(db.entries, limit);
    db.entries := transaction;
  }

  /** The drain loop on a transaction: the batches of the taken entries in
      key order, and the transaction with their keys deleted. */
  method Drain(transaction: seq<Entry>, limit: int) returns (collected: seq<MetricsData>, out: seq<Entry>)
    requires Sorted(transaction)
    ensures var taken := Taken(WithPrefix(transaction, "m-"), limit);
      collected == Concat(taken) && Sorted(out) && ToMap(out) == ToMap(transaction) - KeySet(taken)
  {
    ghost var store := ToMap(transaction);
    var scan := WithPrefix(transaction, "m-");
    out := transaction;
    collected := [];
    var i := 0;
    var pos := 0;
    ghost var d: seq<Entry> := [];
    while pos < |scan|
      invariant 0 <= pos <= |scan|
      invariant d == Decodable(scan[..pos])
      invariant i == |d|
      invariant limit > 0 ==> i < limit
      invariant collected == Concat(d)
      invariant Sorted(out) && ToMap(out) == store - KeySet(d)
    {
      var e := scan[pos];
      DrainAdvance(scan, pos, d, out, store, collected);
      var metricsData := DecodeBatch(e.value);
      pos := pos + 1;
      if metricsData.Some? {
        collected := collected + metricsData.value;
        out := Delete(out, e.key);
        d := d + [e];
        i := i + 1;
        if limit > 0 && i >= limit {
          break;
        }
      }
    }
    DrainEnd(scan, pos, limit);
  }


  /** GetCollectedMetrics: a drain without limit. */
  method GetCollectedMetrics(db: DB) returns (collectedMetricsData: seq<MetricsData>)
    requires db.Valid()
    modifies db
    ensures db.Valid()
    ensures var taken := Decodable(WithPrefix(old(db.entries), "m-"));
      collectedMetricsData == Concat(taken) &&
      ToMap(db.entries) == ToMap(old(db.entries)) - KeySet(taken)
  {
    collectedMetricsData := GetCollectedMetricsWithLimit(db, -1);
  }

  /** A drain deletes only decodable metric keys; without a limit it deletes
      every one of them. */
  lemma DrainedKeys(store: seq<Entry>, limit: int)
    requires Sorted(store)
    ensures forall k :: k in KeySet(Taken(WithPrefix(store, "m-"), limit)) ==>
      && k in ToMap(store) && HasPrefix(k, "m-") && DecodeBatch(ToMap(store)[k]).Some?
    ensures limit <= 0 ==> forall k ::
      (k in ToMap(store) && HasPrefix(k, "m-") && DecodeBatch(ToMap(store)[k]).Some?) ==>
        k in KeySet(Taken(WithPrefix(store, "m-"), limit))
  {
    forall k | k in KeySet(Taken(WithPrefix(store, "m-"), limit))
      ensures k in ToMap(store) && HasPrefix(k, "m-") && DecodeBatch(ToMap(store)[k]).Some?
    {
      var j := TakenSource(store, limit, k);
      ToMapSorted(store);
    }
    if limit <= 0 {
      forall k | k in ToMap(store) && HasPrefix(k, "m-") && DecodeBatch(ToMap(store)[k]).Some?
        ensures k in KeySet(Taken(WithPrefix(store, "m-"), limit))
      {
        var i := DecodableIndexOf(store, k);
      }
    }
  }

  /** The store entry behind a taken key. */
  lemma TakenSource(store: seq<Entry>, limit: int, k: string) returns (j: nat)
    requires k in KeySet(Taken(WithPrefix(store, "m-"), limit))
    ensures j < |store| && store[j].key == k && HasPrefix(k, "m-") && DecodeBatch(store[j].value).Some?
  {
    var taken := Taken(WithPrefix(store, "m-"), limit);
    WithPrefixMembers(store, "m-");
    DecodableMembers(WithPrefix(store, "m-"));
    var i :| 0 <= i < |taken| && taken[i].key == k;
    assert taken[i] in Decodable(WithPrefix(store, "m-"));
    j :| 0 <= j < |store| && store[j] == taken[i];
  }

  /** Where a decodable metric key sits among the decodable scan. */
  lemma DecodableIndexOf(store: seq<Entry>, k: string) returns (i: nat)
    requires Sorted(store)
    requires k in ToMap(store) && HasPrefix(k, "m-") && DecodeBatch(ToMap(store)[k]).Some?
    ensures i < |Decodable(WithPrefix(store, "m-"))| && Decodable(WithPrefix(store, "m-"))[i].key == k
  {
    ToMapKeys(store);
    ToMapSorted(store);
    var j :| 0 <= j < |store| && store[j].key == k;
    WithPrefixMembers(store, "m-");
    DecodableMembers(WithPrefix(store, "m-"));
    assert store[j] in Decodable(WithPrefix(store, "m-"));
    i :| 0 <= i < |Decodable(WithPrefix(store, "m-"))| && Decodable(WithPrefix(store, "m-"))[i] == store[j];
  }

  // ---------------------------------------------------------------------
  // GetMetricDataBufferStatus

  /** The fields of the status map: length, capacity, oldest_timestamp,
      newest_timestamp. */
  datatype BufferStatus = BufferStatus(length: int, capacity: int, oldestTimestamp: int, newestTimestamp: int)

  /** The Unix time a metric key names: the text after its first '-' parsed
      as a number, or 0 when it does not parse. */
  function KeyTime(key: string): int
    requires HasPrefix(key, "m-")
  {
    match Atoi(key[2..])
    case Some(t) => t
    case None => 0
  }

  /** A key written by SaveMetrics names its second. */
  lemma KeyTimeRoundTrip(t: int)
    requires InInt64(t)
    ensures HasPrefix(MetricsKey(t), "m-") && KeyTime(MetricsKey(t)) == t
  {
    assert MetricsKey(t)[2..] == IntToString(t);
    AtoiIntToString(t);
  }

  /** GetMetricDataBufferStatus: counts the metric keys and reads the times
      of the first and the last in key order. `openError` is the result of
      opening the transaction (an error gives the empty map, None). */
  method GetMetricDataBufferStatus(db: DB, openError: Option<string>) returns (status: Option<BufferStatus>)
    requires db.Valid()
    ensures openError.Some? ==> status == None
    ensures openError.None? ==>
      var scan := WithPrefix(db.entries, "m-");
      && status.Some?
      && status.value.length == |scan| && status.value.capacity == |scan|
      && (|scan| == 0 ==> status.value.oldestTimestamp == 0 && status.value.newestTimestamp == 0)
      && (|scan| > 0 ==>
            && (exists k :: k in ToMap(db.entries) && HasPrefix(k, "m-") && status.value.oldestTimestamp == KeyTime(k) &&
                  forall k' :: k' in ToMap(db.entries) && HasPrefix(k', "m-") ==> !Less(k', k))
            && (exists k :: k in ToMap(db.entries) && HasPrefix(k, "m-") && status.value.newestTimestamp == KeyTime(k) &&
                  forall k' :: k' in ToMap(db.entries) && HasPrefix(k', "m-") ==> !Less(k, k')))
  {
    if openError.Some? {
      return None;
    }
    var scan := WithPrefix(db.entries, "m-");
    WithPrefixMembers(db.entries, "m-");
    var i := 0;
    var firstKey, lastKey := "", "";
    while i < |scan|
      invariant 0 <= i <= |scan|
      invariant i > 0 ==> firstKey == scan[0].key && lastKey == scan[i - 1].key
    {
      if i == 0 {
        firstKey := scan[i].key;
      }
      lastKey := scan[i].key;
      i := i + 1;
    }
    var oldestTimestamp, newestTimestamp := 0, 0;
    if i > 0 {
      assert scan[0] in scan && scan[i - 1] in scan;
      oldestTimestamp := KeyTime(firstKey);
      newestTimestamp := KeyTime(lastKey);
      ScanEnds(db.entries, scan);
    }
    status := Some(BufferStatus(i, i, oldestTimestamp, newestTimestamp));
  }

  /** The first and last entries of a prefix scan are its least and
      greatest keys among all stored keys with the prefix. */
  lemma ScanEnds(store: seq<Entry>, scan: seq<Entry>)
    requires Sorted(store) && scan == WithPrefix(store, "m-") && |scan| > 0
    ensures scan[0].key in ToMap(store) && scan[|scan| - 1].key in ToMap(store)
    ensures HasPrefix(scan[0].key, "m-") && HasPrefix(scan[|scan| - 1].key, "m-")
    ensures forall k :: k in ToMap(store) && HasPrefix(k, "m-") ==>
      !Less(k, scan[0].key) && !Less(scan[|scan| - 1].key, k)
  {
    WithPrefixMap(store, "m-");
    WithPrefixMembers(store, "m-");
    ToMapKeys(scan);
    assert scan[0] in scan && scan[|scan| - 1] in scan;
    forall k | k in ToMap(store) && HasPrefix(k, "m-")
      ensures !Less(k, scan[0].key) && !Less(scan[|scan| - 1].key, k)
    {
      var j :| 0 <= j < |scan| && scan[j].key == k;
      if j > 0 {
        LessAsymmetric(scan[0].key, k);
      } else {
        LessIrreflexive(k);
      }
      if j < |scan| - 1 {
        LessAsymmetric(k, scan[|scan| - 1].key);
      } else {
        LessIrreflexive(k);
      }
    }
  }
}
