/** The aggregator (`evaluate_jsonpaths`, src/openEHRbunny.py:154-201): for
    every (jsonpath, label) entry it counts the documents where the path
    matches nothing, gathers the scalar values it matches, tallies them in
    first-seen order and records one summary per jsonpath.  Parsing an
    expression and querying a document are done by a JSONPath library and a
    JSON reader; their outcomes are inputs here. */
module Aggregator {
  import opened Common
  import opened PathCompiler

  /** A matched JSON value: a scalar (string, number, boolean or null) as
      `str()` renders it, or an object or array. */
  datatype JsonValue = Scalar(text: string) | Composite

  /** What querying one document gives: the file could not be read, parsed or
      queried, or the list of matched values. */
  datatype Outcome = Failed | Matched(values: seq<JsonValue>)

  /** One expression over all the documents: it did not parse (with the
      exception's message), or it parsed and gave one outcome per document. */
  datatype Query = ParseError(message: string) | Parsed(outcomes: seq<Outcome>)

  /** The `values` field: `""`, the empty list that `sorted("")` returns, or
      the JSON list of one-entry objects, as (value, count) pairs in order. */
  datatype Values = NoValues | EmptyList | Frequencies(pairs: seq<(string, nat)>)

  /** `values_summary` before the attempted sort: `""`, or the JSON text of the pairs. */
  datatype Rendered = Blank | JsonText(pairs: seq<(string, nat)>)

  datatype Summary = Summary(
    jsonpath: string,
    readableLabel: string,
    values: Values,
    emptyPercentage: real,
    uniqueValuePercentage: real,
    fileCount: nat,
    error: string)

  /** Lines 173-175 and 180-181: a document is empty when it failed or matched nothing. */
  predicate IsEmptyOutcome(o: Outcome)
  {
    o.Failed? || o.values == []
  }

  function EmptyCount(outs: seq<Outcome>): (r: nat)
    ensures r <= |outs|
  {
    if outs == [] then 0
    else EmptyCount(outs[..|outs| - 1]) + (if IsEmptyOutcome(outs[|outs| - 1]) then 1 else 0)
  }

  /** Lines 177-179: the `str()` of the scalar matches, in order. */
  function Scalars(vs: seq<JsonValue>): seq<string>
  {
    if vs == [] then []
    else Scalars(vs[..|vs| - 1]) + (match vs[|vs| - 1] case Scalar(s) => [s] case Composite => [])
  }

  /** `simple_values` after all documents. */
  function Observations(outs: seq<Outcome>): seq<string>
  {
    if outs == [] then []
    else
      var o := outs[|outs| - 1];
      Observations(outs[..|outs| - 1]) + (if o.Matched? then Scalars(o.values) else [])
  }

  /** `(k, counts[k])` for each key of `ks`, in that order. */
  function Tally(ks: seq<string>, counts: multiset<string>): (r: seq<(string, nat)>)
    ensures |r| == |ks|
    ensures forall k :: 0 <= k < |ks| ==> r[k] == (ks[k], counts[ks[k]])
  {
    if ks == [] then [] else Tally(ks[..|ks| - 1], counts) + [(ks[|ks| - 1], counts[ks[|ks| - 1]])]
  }

  /** `freq_counter.items()`: every observed value once, in first-seen order, with its count. */
  function Histogram(obs: seq<string>): seq<(string, nat)>
  {
    Tally(FirstSeen(obs), multiset(obs))
  }

  /** Line 192: `sorted` over the JSON string iterates its characters, and the
      key function fails on the first one, so a non-empty text is kept as it
      is; the empty string sorts to the empty list. */
  function SortAttempt(v: Rendered): Values
  {
    match v
    case Blank => EmptyList
    case JsonText(pairs) => Frequencies(pairs)
  }

  /** What an expression's query demands of the document count and the outcomes. */
  predicate Fits(q: Query, n: nat)
  {
    q.Parsed? ==> n > 0 && |q.outcomes| == n
  }

  /** Lines 157-164 and 194-201: the record written for one entry. */
  function Summarize(entry: PathEntry, q: Query, n: nat): (r: Summary)
    requires Fits(q, n)
    ensures r.jsonpath == entry.path && r.readableLabel == entry.readableLabel && r.fileCount == n
    ensures q.ParseError? ==>
              r.values == NoValues && r.emptyPercentage == 100.0 && r.uniqueValuePercentage == 0.0
              && r.error == q.message
    ensures q.Parsed? ==> r.error == "" && r.values != NoValues
  {
    match q
    case ParseError(message) =>
      Summary(entry.path, entry.readableLabel, NoValues, 100.0, 0.0, n, message)
    case Parsed(outs) =>
      Summary(entry.path, entry.readableLabel, ValuesOf(Observations(outs)), EmptyPercentage(outs),
              UniquePercentage(Observations(outs)), n, "")
  }

  /** Lines 186-192: the `values` field for the observations gathered. */
  function ValuesOf(obs: seq<string>): (r: Values)
    ensures r == EmptyList <==> obs == []
    ensures obs != [] ==> r == Frequencies(Histogram(obs))
  {
    var hist := Histogram(obs);
    assert hist == [] <==> obs == [];
    SortAttempt(if hist == [] then Blank else JsonText(hist))
  }

  /** Line 198: the share of documents that are empty. */
  function EmptyPercentage(outs: seq<Outcome>): (r: real)
    requires |outs| > 0
    ensures 0.0 <= r <= 100.0
    ensures IsPercentage(r, EmptyCount(outs), |outs|)
  {
    Percentage(EmptyCount(outs), |outs|)
  }

  /** Line 199: the share of distinct values among the observations. */
  function UniquePercentage(obs: seq<string>): (r: real)
    ensures obs == [] ==> r == 0.0
    ensures obs != [] ==> 0.0 < r <= 100.0 && IsPercentage(r, |FirstSeen(obs)|, |obs|)
  {
    if obs == [] then 0.0
    else
      var unique := FirstSeen(obs);
      assert 0 < |unique| <= |obs|;
      Percentage(|unique|, |obs|)
  }

  /** `r` is `count` out of `total`, as a percentage. */
  predicate IsPercentage(r: real, count: nat, total: nat)
  {
    r * (total as real) == (count as real) * 100.0
  }

  /** `(count / total) * 100` for a positive total: between 0 and 100, and
      positive exactly when the count is. */
  function Percentage(count: nat, total: nat): (r: real)
    requires 0 < total && count <= total
    ensures 0.0 <= r <= 100.0
    ensures 0 < count <==> 0.0 < r
    ensures IsPercentage(r, count, total)
  {
    var q := count as real / total as real;
    assert q * (total as real) == count as real;
    assert q <= 1.0 by {
      if q > 1.0 {
        assert q * (total as real) > 1.0 * (total as real);
      }
    }
    q * 100.0
  }

  function Paths(entries: seq<PathEntry>): seq<string>
  {
    seq(|entries|, k requires 0 <= k < |entries| => entries[k].path)
  }

  lemma PathsStep(entries: seq<PathEntry>, k: nat)
    requires k < |entries|
    ensures Paths(entries[..k + 1]) == Paths(entries[..k]) + [entries[k].path]
  {
  }

  predicate AllFit(queries: seq<Query>, n: nat)
  {
    forall k :: 0 <= k < |queries| ==> Fits(queries[k], n)
  }

  lemma AllFitPrefix(queries: seq<Query>, n: nat, m: nat)
    requires AllFit(queries, n) && m <= |queries|
    ensures AllFit(queries[..m], n)
  {
  }

  /** Lines 155-201: `aggregated` after the first entries, each entry writing
      its summary under its jsonpath. */
  function Aggregate(entries: seq<PathEntry>, queries: seq<Query>, n: nat): map<string, Summary>
    requires |queries| == |entries| && AllFit(queries, n)
  {
    if entries == [] then map[]
    else
      var last := |entries| - 1;
      AllFitPrefix(queries, n, last);
      Aggregate(entries[..last], queries[..last], n)[entries[last].path := Summarize(entries[last], queries[last], n)]
  }

  /** Lines 167-181, the loop over the documents. */
  method ReduceDocuments(outcomes: seq<Outcome>) returns (emptyCount: nat, simpleValues: seq<string>)
    ensures emptyCount == EmptyCount(outcomes)
    ensures simpleValues == Observations(outcomes)
  {
    emptyCount := 0;
    simpleValues := [];
    for d := 0 to |outcomes|
      invariant emptyCount == EmptyCount(outcomes[..d])
      invariant simpleValues == Observations(outcomes[..d])
    {
      assert outcomes[..d + 1][..d] == outcomes[..d];
      var o := outcomes[d];
      match o
      case Failed =>
        emptyCount := emptyCount + 1;
      case Matched(matches) =>
        if matches == [] {
          emptyCount := emptyCount + 1;
        } else {
          for t := 0 to |matches|
            invariant simpleValues == Observations(outcomes[..d]) + Scalars(matches[..t])
          {
            assert matches[..t + 1][..t] == matches[..t];
            match matches[t]
            case Scalar(s) =>
              simpleValues := simpleValues + [s];
            case Composite =>
          }
          assert matches[..|matches|] == matches;
        }
    }
    assert outcomes[..|outcomes|] == outcomes;
  }

  /** Lines 183-188: the `freq_counter` dict filled value by value, then its items. */
  method CountFrequencies(values: seq<string>) returns (pairs: seq<(string, nat)>)
    ensures pairs == Histogram(values)
  {
    var keys: seq<string> := [];
    var counter: map<string, nat> := map[];
    for t := 0 to |values|
      invariant keys == FirstSeen(values[..t])
      invariant Counts(counter, values[..t])
    {
      var v := values[t];
      ghost var seen := values[..t];
      assert values[..t + 1] == seen + [v];
      FirstSeenSnoc(seen, v);
      CountsStep(counter, seen, v);
      if v in counter {
        counter := counter[v := counter[v] + 1];
      } else {
        keys := keys + [v];
        counter := counter[v := 1];
      }
    }
    assert values[..|values|] == values;
    ItemsAreHistogram(keys, counter, values);
    pairs := Items(keys, counter);
  }

  /** `freq_counter.items()`, in key order. */
  function Items(keys: seq<string>, counter: map<string, nat>): seq<(string, nat)>
    requires forall x :: x in keys ==> x in counter
  {
    seq(|keys|, k requires 0 <= k < |keys| => (keys[k], counter[keys[k]]))
  }

  lemma ItemsAreHistogram(keys: seq<string>, counter: map<string, nat>, values: seq<string>)
    requires keys == FirstSeen(values) && Counts(counter, values)
    ensures forall x :: x in keys ==> x in counter
    ensures Items(keys, counter) == Histogram(values)
  {
  }

  /** `counter` holds, for every value of `prefix` and no other, its number of occurrences. */
  ghost predicate Counts(counter: map<string, nat>, prefix: seq<string>)
  {
    forall x :: (x in counter <==> x in prefix) && (x in counter ==> counter[x] == multiset(prefix)[x])
  }

  /** `freq_counter[val] += 1` on a defaultdict keeps `Counts`. */
  lemma CountsStep(counter: map<string, nat>, prefix: seq<string>, v: string)
    requires Counts(counter, prefix)
    ensures Counts(if v in counter then counter[v := counter[v] + 1] else counter[v := 1], prefix + [v])
  {
    var next := if v in counter then counter[v := counter[v] + 1] else counter[v := 1];
    assert multiset(prefix + [v]) == multiset(prefix) + multiset{v};
    forall x ensures (x in next <==> x in prefix + [v]) && (x in next ==> next[x] == multiset(prefix + [v])[x]) {
      if x != v {
        assert x in prefix + [v] <==> x in prefix;
      }
    }
  }

  /** Lines 157-201 for one entry. */
  method EvaluateEntry(entry: PathEntry, q: Query, n: nat) returns (summary: Summary)
    requires Fits(q, n)
    ensures summary == Summarize(entry, q, n)
  {
    match q
    case ParseError(message) =>
      summary := Summary(entry.path, entry.readableLabel, NoValues, 100.0, 0.0, n, message);
    case Parsed(outs) =>
      var emptyCount, simpleValues := ReduceDocuments(outs);
      var pairs := CountFrequencies(simpleValues);
      var rendered := if pairs == [] then Blank else JsonText(pairs);
      var uniqueCount := |pairs|;
      var uniquePct := if simpleValues == [] then 0.0 else Percentage(uniqueCount, |simpleValues|);
      summary := Summary(entry.path, entry.readableLabel, SortAttempt(rendered),
                         Percentage(emptyCount, n), uniquePct, n, "");
      assert summary.values == ValuesOf(simpleValues);
  }

  /** `evaluate_jsonpaths(jsonpaths, json_files)`: `queries[k]` is what
      parsing `entries[k].path` and running it over the `n` files gave.  The
      dict is returned with its key order: each jsonpath where it was first
      written. */
  method EvaluateJsonpaths(entries: seq<PathEntry>, queries: seq<Query>, n: nat)
    returns (order: seq<string>, aggregated: map<string, Summary>)
    requires |queries| == |entries| && AllFit(queries, n)
    ensures aggregated == Aggregate(entries, queries, n)
    ensures order == FirstSeen(Paths(entries))
  {
    order := [];
    aggregated := map[];
    for k := 0 to |entries|
      invariant aggregated == Aggregate(entries[..k], queries[..k], n)
      invariant order == FirstSeen(Paths(entries[..k]))
    {
      AggregateStep(entries, queries, n, k);
      AggregateKeys(entries[..k], queries[..k], n);
      PathsStep(entries, k);
      FirstSeenSnoc(Paths(entries[..k]), entries[k].path);
      var summary := EvaluateEntry(entries[k], queries[k], n);
      if entries[k].path !in aggregated {
        order := order + [entries[k].path];
      }
      aggregated := aggregated[entries[k].path := summary];
    }
    assert entries[..|entries|] == entries && queries[..|queries|] == queries;
  }

  /** One more entry writes its summary over the map of the entries before it. */
  lemma AggregateStep(entries: seq<PathEntry>, queries: seq<Query>, n: nat, k: nat)
    requires |queries| == |entries| && AllFit(queries, n) && k < |entries|
    ensures AllFit(queries[..k], n) && AllFit(queries[..k + 1], n) && Fits(queries[k], n)
    ensures Aggregate(entries[..k + 1], queries[..k + 1], n)
            == Aggregate(entries[..k], queries[..k], n)[entries[k].path := Summarize(entries[k], queries[k], n)]
  {
    AllFitPrefix(queries, n, k);
    AllFitPrefix(queries, n, k + 1);
    assert entries[..k + 1][..k] == entries[..k] && queries[..k + 1][..k] == queries[..k];
  }

  /** The jsonpaths recorded are exactly the distinct jsonpaths of the entries. */
  lemma {:induction false} AggregateKeys(entries: seq<PathEntry>, queries: seq<Query>, n: nat)
    requires |queries| == |entries| && AllFit(queries, n)
    ensures forall p :: p in Aggregate(entries, queries, n) <==> p in Paths(entries)
  {
    if entries != [] {
      var last := |entries| - 1;
      AllFitPrefix(queries, n, last);
      AggregateKeys(entries[..last], queries[..last], n);
      assert Paths(entries) == Paths(entries[..last]) + [entries[last].path];
    }
  }

  /** A jsonpath listed more than once keeps the summary of its last entry. */
  lemma {:induction false} AggregateLastWins(entries: seq<PathEntry>, queries: seq<Query>, n: nat, i: nat)
    requires |queries| == |entries| && AllFit(queries, n)
    requires i < |entries|
    requires forall j :: i < j < |entries| ==> entries[j].path != entries[i].path
    ensures entries[i].path in Aggregate(entries, queries, n)
    ensures Aggregate(entries, queries, n)[entries[i].path] == Summarize(entries[i], queries[i], n)
  {
    var last := |entries| - 1;
    var pre, preQueries := entries[..last], queries[..last];
    AggregateStep(entries, queries, n, last);
    assert entries[..last + 1] == entries && queries[..last + 1] == queries;
    var before := Aggregate(pre, preQueries, n);
    assert Aggregate(entries, queries, n) == before[entries[last].path := Summarize(entries[last], queries[last], n)];
    if i < last {
      assert pre[i] == entries[i] && preQueries[i] == queries[i];
      assert forall j :: i < j < |pre| ==> pre[j].path != pre[i].path;
      AggregateLastWins(pre, preQueries, n, i);
      assert entries[last].path != entries[i].path;
    }
  }

  /** The number of empty documents is the number of positions holding a failed or matchless outcome. */
  lemma {:induction false} EmptyCountPositions(outs: seq<Outcome>)
    ensures EmptyCount(outs) == |set k | 0 <= k < |outs| && IsEmptyOutcome(outs[k])|
  {
    if outs != [] {
      var last := |outs| - 1;
      EmptyCountPositions(outs[..last]);
      var before := set k | 0 <= k < last && IsEmptyOutcome(outs[..last][k]);
      var now := set k | 0 <= k < |outs| && IsEmptyOutcome(outs[k]);
      assert before == set k | 0 <= k < last && IsEmptyOutcome(outs[k]);
      if IsEmptyOutcome(outs[last]) {
        assert now == before + {last};
      } else {
        assert now == before;
      }
    }
  }

  lemma {:induction false} NoCompositeScalars(vs: seq<JsonValue>)
    requires forall k :: 0 <= k < |vs| ==> vs[k].Composite?
    ensures Scalars(vs) == []
  {
    if vs != [] {
      NoCompositeScalars(vs[..|vs| - 1]);
    }
  }

  /** Lines 173-179: a document whose matches are all objects or arrays is not
      empty, yet adds no observation. */
  lemma CompositeDocument(outs: seq<Outcome>, vs: seq<JsonValue>)
    requires vs != [] && forall k :: 0 <= k < |vs| ==> vs[k].Composite?
    ensures EmptyCount(outs + [Matched(vs)]) == EmptyCount(outs)
    ensures Observations(outs + [Matched(vs)]) == Observations(outs)
  {
    assert (outs + [Matched(vs)])[..|outs|] == outs;
    NoCompositeScalars(vs);
  }

  function Total(pairs: seq<(string, nat)>): nat
  {
    if pairs == [] then 0 else Total(pairs[..|pairs| - 1]) + pairs[|pairs| - 1].1
  }

  lemma {:induction false} TallyAdd(ks: seq<string>, counts: multiset<string>, x: string)
    requires Distinct(ks)
    ensures Total(Tally(ks, counts + multiset{x})) == Total(Tally(ks, counts)) + (if x in ks then 1 else 0)
  {
    if ks != [] {
      var init := ks[..|ks| - 1];
      assert Distinct(init);
      assert ks == init + [ks[|ks| - 1]];
      TallyAdd(init, counts, x);
      assert Tally(ks, counts)[..|init|] == Tally(init, counts);
      assert Tally(ks, counts + multiset{x})[..|init|] == Tally(init, counts + multiset{x});
    }
  }

  /** Lines 183-185: the counts of the histogram add up to the number of observations. */
  lemma {:induction false} HistogramTotal(obs: seq<string>)
    ensures Total(Histogram(obs)) == |obs|
  {
    if obs != [] {
      var init := obs[..|obs| - 1];
      var x := obs[|obs| - 1];
      assert obs == init + [x];
      HistogramTotal(init);
      FirstSeenSnoc(init, x);
      var ks := FirstSeen(init);
      assert multiset(obs) == multiset(init) + multiset{x};
      TallyAdd(ks, multiset(init), x);
      if x !in ks {
        var ks' := ks + [x];
        assert Tally(ks', multiset(obs))[..|ks|] == Tally(ks, multiset(obs));
        assert multiset(init)[x] == 0;
      }
    }
  }

  /** Lines 183-186: the histogram lists every observed value once, in the
      order of first occurrence, with a positive count equal to its number
      of occurrences. */
  lemma HistogramShape(obs: seq<string>)
    ensures |Histogram(obs)| == |FirstSeen(obs)|
    ensures forall k :: 0 <= k < |Histogram(obs)| ==>
              Histogram(obs)[k].0 in obs && 0 < Histogram(obs)[k].1 == multiset(obs)[Histogram(obs)[k].0]
    ensures forall x :: x in obs ==> exists k :: 0 <= k < |Histogram(obs)| && Histogram(obs)[k].0 == x
    ensures forall i, j :: 0 <= i < j < |Histogram(obs)| ==> FirstIndex(obs, Histogram(obs)[i].0) < FirstIndex(obs, Histogram(obs)[j].0)
  {
    HistogramCounts(obs);
    HistogramCovers(obs);
    HistogramOrder(obs);
  }

  lemma HistogramCounts(obs: seq<string>)
    ensures forall k :: 0 <= k < |Histogram(obs)| ==>
              Histogram(obs)[k].0 in obs && 0 < Histogram(obs)[k].1 == multiset(obs)[Histogram(obs)[k].0]
  {
    var h := Histogram(obs);
    var ks := FirstSeen(obs);
    forall k | 0 <= k < |h| ensures h[k].0 in obs && 0 < h[k].1 == multiset(obs)[h[k].0] {
      assert h[k] == (ks[k], multiset(obs)[ks[k]]);
      assert ks[k] in ks;
    }
  }

  lemma HistogramCovers(obs: seq<string>)
    ensures forall x :: x in obs ==> exists k :: 0 <= k < |Histogram(obs)| && Histogram(obs)[k].0 == x
  {
    var h := Histogram(obs);
    var ks := FirstSeen(obs);
    forall x | x in obs ensures exists k :: 0 <= k < |h| && h[k].0 == x {
      var k :| 0 <= k < |ks| && ks[k] == x;
      assert h[k].0 == x;
    }
  }

  lemma HistogramOrder(obs: seq<string>)
    ensures forall i, j :: 0 <= i < j < |Histogram(obs)| ==> FirstIndex(obs, Histogram(obs)[i].0) < FirstIndex(obs, Histogram(obs)[j].0)
  {
    var h := Histogram(obs);
    forall i, j | 0 <= i < j < |h| ensures FirstIndex(obs, h[i].0) < FirstIndex(obs, h[j].0) {
      FirstSeenOrder(obs, i, j);
    }
  }

  /** Line 192: the values are not reordered by frequency; observations
      `a, b, b` give `[{a: 1}, {b: 2}]`, the less frequent value first. */
  lemma ValuesKeepFirstSeenOrder(a: string, b: string)
    requires a != b
    ensures ValuesOf([a, b, b]) == Frequencies([(a, 1), (b, 2)])
  {
    var obs := [a, b, b];
    FirstSeenOfABB(a, b);
    assert multiset(obs)[a] == 1 && multiset(obs)[b] == 2;
    var h := Tally([a, b], multiset(obs));
    assert h == [(a, 1), (b, 2)];
  }

  lemma FirstSeenOfABB(a: string, b: string)
    requires a != b
    ensures FirstSeen([a, b, b]) == [a, b]
  {
    FirstSeenOfAB(a, b);
    FirstSeenSnoc([a, b], b);
    assert [a, b] + [b] == [a, b, b];
  }

  lemma FirstSeenOfAB(a: string, b: string)
    requires a != b
    ensures FirstSeen([a, b]) == [a, b]
  {
    FirstSeenSnoc([], a);
    assert [] + [a] == [a];
    FirstSeenSnoc([a], b);
    assert [a] + [b] == [a, b];
  }
}
