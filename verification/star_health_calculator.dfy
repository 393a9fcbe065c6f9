/** `StarHealthCalculator.get_all_quotes`: compute the age once, fetch one
    premium for each of four fixed (sum insured, tenure) scenarios in order,
    record each under the scenario's label, and keep the report in the
    object. Fetching a quote drives a browser against a live portal; the
    model receives its outcome as the function `fetch`, which gives the
    premium text for a request or `None` where `fetch_quote` caught an error. */
module StarHealth {

  import opened Wrappers
  import opened DateParse
  import opened AgeCalculator

  datatype Scenario = Scenario(sumInsured: int, tenure: int, name: string)  // the scenario's label

  /** The four scenarios, in the order `get_all_quotes` lists them. */
  const Scenarios: seq<Scenario> := [
    Scenario(500000, 1, "5L/1yr"),
    Scenario(500000, 3, "5L/3yr"),
    Scenario(1000000, 1, "10L/1yr"),
    Scenario(1000000, 3, "10L/3yr")
  ]

  /** The scenarios' labels, in scenario order (LabelsOfScenarios). */
  const Labels: seq<string> := ["5L/1yr", "5L/3yr", "10L/1yr", "10L/3yr"]

  lemma LabelsOfScenarios()
    ensures |Labels| == |Scenarios|
    ensures forall i :: 0 <= i < |Scenarios| ==> Labels[i] == Scenarios[i].name
  {
  }

  /** The arguments of one `fetch_quote(age, sum_insured, tenure)` call. */
  datatype FetchRequest = FetchRequest(age: int, sumInsured: int, tenure: int)

  function ScenarioRequest(age: int, s: Scenario): FetchRequest
  {
    FetchRequest(age, s.sumInsured, s.tenure)
  }

  /** The fetch calls of one run, in the order they are made. */
  function ScenarioRequests(age: int): (rs: seq<FetchRequest>)
    ensures |rs| == |Scenarios|
  {
    seq(|Scenarios|, i requires 0 <= i < |Scenarios| => ScenarioRequest(age, Scenarios[i]))
  }

  // ---------------------------------------------------------------------------
  // Python's dict with string keys: insertion-ordered entries

  type Dict<V> = seq<(string, V)>

  function Keys<V>(d: Dict<V>): (ks: seq<string>)
    ensures |ks| == |d|
  {
    seq(|d|, i requires 0 <= i < |d| => d[i].0)
  }

  /** `d.get(k)`, wrapped: `None` when `k` is not a key. */
  function Get<V>(d: Dict<V>, k: string): Option<V>
  {
    if d == [] then None else if d[0].0 == k then Some(d[0].1) else Get(d[1..], k)
  }

  /** `d[k] = v`: an existing key keeps its place and takes the new value; a
      new key goes to the end. */
  function Put<V>(d: Dict<V>, k: string, v: V): Dict<V>
  {
    if d == [] then [(k, v)]
    else if d[0].0 == k then [(k, v)] + d[1..]
    else [d[0]] + Put(d[1..], k, v)
  }

  /** A new key is appended after the existing entries. */
  lemma {:induction false} PutNewKey<V>(d: Dict<V>, k: string, v: V)
    requires k !in Keys(d)
    ensures Put(d, k, v) == d + [(k, v)]
  {
    if d != [] {
      assert d[0].0 == Keys(d)[0];
      assert Keys(d[1..]) == Keys(d)[1..];
      PutNewKey(d[1..], k, v);
      assert d == [d[0]] + d[1..];
    }
  }

  /** After `d[k] = v`, `k` maps to `v` and every other key to what it did. */
  lemma {:induction false} PutGet<V>(d: Dict<V>, k: string, v: V, k': string)
    ensures Get(Put(d, k, v), k') == if k' == k then Some(v) else Get(d, k')
  {
    if d != [] && d[0].0 != k {
      PutGet(d[1..], k, v, k');
    }
  }

  /** Looking a key up in an entry list that does not repeat keys finds its entry. */
  lemma {:induction false} GetAt<V>(d: Dict<V>, i: nat)
    requires i < |d|
    requires forall a, b :: 0 <= a < b < |d| ==> d[a].0 != d[b].0
    ensures Get(d, d[i].0) == Some(d[i].1)
  {
    if i > 0 {
      GetAt(d[1..], i - 1);
    }
  }

  lemma {:induction false} GetAbsent<V>(d: Dict<V>, k: string)
    requires k !in Keys(d)
    ensures Get(d, k) == None
  {
    if d != [] {
      assert d[0].0 == Keys(d)[0];
      assert Keys(d[1..]) == Keys(d)[1..];
      GetAbsent(d[1..], k);
    }
  }

  // ---------------------------------------------------------------------------
  // The report

  type Premium = Option<string>

  /** `{'dob': dob, 'age': age, 'quotes': {label: premium, ...}}` */
  datatype Report = Report(dob: string, age: int, quotes: Dict<Premium>)

  /** `results['quotes']` after the loop has handled the first `n` scenarios. */
  function QuotesAfter(age: int, fetch: FetchRequest -> Premium, n: nat): (q: Dict<Premium>)
    requires n <= |Scenarios|
    ensures Keys(q) == Labels[..n]
  {
    if n == 0 then []
    else
      var s := Scenarios[n - 1];
      var prev := QuotesAfter(age, fetch, n - 1);
      PutNewKey(prev, s.name, fetch(ScenarioRequest(age, s)));
      assert Keys(prev + [(s.name, fetch(ScenarioRequest(age, s)))]) == Keys(prev) + [s.name];
      Put(prev, s.name, fetch(ScenarioRequest(age, s)))
  }

  /** What `get_all_quotes(dob)` returns; `None` where `calculate_age` raises. */
  function AllQuotes(dob: string, today: Date, fetch: FetchRequest -> Premium): (r: Option<Report>)
    ensures r.Some? <==> Parse(dob).Some?
    ensures r.Some? ==> r.value.dob == dob && r.value.age == Age(Parse(dob).value, today)
    ensures r.Some? ==> Keys(r.value.quotes) == Labels
  {
    match CalculateAge(dob, today)
    case None => None
    case Some(age) => Some(Report(dob, age, QuotesAfter(age, fetch, |Scenarios|)))
  }

  /** The first `n` scenarios' labels, each with the premium fetched for it. */
  function ExpectedQuotes(age: int, fetch: FetchRequest -> Premium, n: nat): (q: Dict<Premium>)
    requires n <= |Scenarios|
    ensures |q| == n
  {
    seq(n, i requires 0 <= i < n => (Labels[i], fetch(ScenarioRequest(age, Scenarios[i]))))
  }

  /** Each scenario adds one new entry at the end: no label repeats, so no
      assignment overwrites an earlier one. */
  lemma {:induction false} QuotesAfterAppends(age: int, fetch: FetchRequest -> Premium, n: nat)
    requires n <= |Scenarios|
    ensures QuotesAfter(age, fetch, n) == ExpectedQuotes(age, fetch, n)
  {
    if n > 0 {
      QuotesAfterAppends(age, fetch, n - 1);
      var prev := ExpectedQuotes(age, fetch, n - 1);
      assert Keys(prev) == Labels[..n - 1];
      PutNewKey(prev, Scenarios[n - 1].name, fetch(ScenarioRequest(age, Scenarios[n - 1])));
    }
  }

  /** The quotes of a finished run hold exactly the four labels, in scenario
      order, each with the premium (or `None`) its fetch gave; no other key is
      present. */
  lemma QuotesOfRun(age: int, fetch: FetchRequest -> Premium)
    ensures Keys(QuotesAfter(age, fetch, |Scenarios|)) == Labels
    ensures forall i :: 0 <= i < |Scenarios| ==>
      Get(QuotesAfter(age, fetch, |Scenarios|), Labels[i]) == Some(fetch(ScenarioRequests(age)[i]))
    ensures forall k :: k !in Labels ==> Get(QuotesAfter(age, fetch, |Scenarios|), k) == None
  {
    QuotesAfterAppends(age, fetch, |Scenarios|);
    var q := ExpectedQuotes(age, fetch, |Scenarios|);
    assert Keys(q) == Labels;
    forall i | 0 <= i < |Scenarios|
      ensures Get(q, Labels[i]) == Some(fetch(ScenarioRequests(age)[i]))
    {
      GetAt(q, i);
    }
    forall k | k !in Labels
      ensures Get(q, k) == None
    {
      GetAbsent(q, k);
    }
  }

  /** The report of a run: the text given, the computed age, and the quotes
      of QuotesOfRun; a date that does not parse gives no report. */
  lemma AllQuotesReport(dob: string, today: Date, fetch: FetchRequest -> Premium)
    ensures AllQuotes(dob, today, fetch).Some? <==> Parse(dob).Some?
    ensures AllQuotes(dob, today, fetch).Some? ==>
      var r := AllQuotes(dob, today, fetch).value;
      && r.dob == dob
      && r.age == Age(Parse(dob).value, today)
      && Keys(r.quotes) == Labels
      && forall i :: 0 <= i < |Scenarios| ==> Get(r.quotes, Labels[i]) == Some(fetch(ScenarioRequests(r.age)[i]))
  {
    if Parse(dob).Some? {
      QuotesOfRun(Age(Parse(dob).value, today), fetch);
    }
  }

  /** A run in which every fetch fails still reports all four labels, each
      with `None`. */
  lemma AllFetchesFail(age: int, fetch: FetchRequest -> Premium)
    requires forall r :: fetch(r) == None
    ensures Keys(QuotesAfter(age, fetch, |Scenarios|)) == Labels
    ensures forall i :: 0 <= i < |Scenarios| ==> Get(QuotesAfter(age, fetch, |Scenarios|), Labels[i]) == Some(None)
  {
    QuotesOfRun(age, fetch);
  }

  /** A failure is confined to its scenario: two fetchers that differ only on
      one scenario's request give quotes that differ only in that label's
      premium. */
  lemma FailureIsolated(age: int, fetch: FetchRequest -> Premium, fetch': FetchRequest -> Premium, j: nat)
    requires j < |Scenarios|
    requires fetch'(ScenarioRequests(age)[j]) == None
    requires forall r :: r != ScenarioRequests(age)[j] ==> fetch'(r) == fetch(r)
    ensures Keys(QuotesAfter(age, fetch', |Scenarios|)) == Keys(QuotesAfter(age, fetch, |Scenarios|))
    ensures QuotesAfter(age, fetch', |Scenarios|) == QuotesAfter(age, fetch, |Scenarios|)[j := (Labels[j], None)]
  {
    QuotesAfterAppends(age, fetch, |Scenarios|);
    QuotesAfterAppends(age, fetch', |Scenarios|);
    assert forall i :: 0 <= i < |Scenarios| && i != j ==> ScenarioRequests(age)[i] != ScenarioRequests(age)[j];
  }

  /** The requests of a run, written out: one age, four (sum insured, tenure)
      pairs in this order. */
  lemma ScenarioRequestsInOrder(age: int)
    ensures ScenarioRequests(age) == [
      FetchRequest(age, 500000, 1), FetchRequest(age, 500000, 3),
      FetchRequest(age, 1000000, 1), FetchRequest(age, 1000000, 3)]
  {
  }

  // ---------------------------------------------------------------------------
  // The calculator object

  class StarHealthCalculator {

    /** `self.quotes`: `None` stands for the empty dict `__init__` stores. */
    var quotes: Option<Report>

    /** Every `fetch_quote` call made through this object, in order. */
    ghost var Requests: seq<FetchRequest>

    constructor ()
      ensures quotes == None && Requests == []
    {
      quotes := None;
      Requests := [];
    }

    /** `fetch_quote(age, sum_insured, tenure)`: one request, whose outcome
        is whatever `fetch` gives for it. */
    method FetchQuote(age: int, sumInsured: int, tenure: int, fetch: FetchRequest -> Premium)
      returns (premium: Premium)
      modifies this`Requests
      ensures premium == fetch(FetchRequest(age, sumInsured, tenure))
      ensures Requests == old(Requests) + [FetchRequest(age, sumInsured, tenure)]
    {
      premium := fetch(FetchRequest(age, sumInsured, tenure));
      Requests := Requests + [FetchRequest(age, sumInsured, tenure)];
    }

    /** `get_all_quotes(dob)` with the clock read as `today`. When the date
        does not parse the error escapes before any fetch and nothing changes;
        otherwise the four scenarios are fetched in order with the same age,
        whatever each fetch gives, and `self.quotes` is the report returned. */
    method GetAllQuotes(dob: string, today: Date, fetch: FetchRequest -> Premium)
      returns (results: Option<Report>)
      modifies this
      ensures results == AllQuotes(dob, today, fetch)
      ensures results.None? ==> quotes == old(quotes) && Requests == old(Requests)
      ensures results.Some? ==> quotes == results
      ensures results.Some? ==> Requests == old(Requests) + ScenarioRequests(results.value.age)
    {
      var parsed := CalculateAge(dob, today);
      if parsed.None? {
        return None;
      }
      var age := parsed.value;
      var scenarios := Scenarios;
      var report := Report(dob, age, []);
      for i := 0 to |scenarios|
        invariant report == Report(dob, age, QuotesAfter(age, fetch, i))
        invariant Requests == old(Requests) + ScenarioRequests(age)[..i]
      {
        var s := scenarios[i];
        var premium := FetchQuote(age, s.sumInsured, s.tenure, fetch);
        report := report.(quotes := Put(report.quotes, s.name, premium));
      }
      quotes := Some(report);
      results := Some(report);
    }
  }
}
