/** The in-memory statistics tracker: how often each FizzBuzz parameter
    combination was requested, with the most frequent one kept at hand.

    In Go the tracker keys its map by a hash of the parameters and keeps
    `mostFrequent` as a pointer to one of the map's entries, so incrementing
    that entry also changes what `mostFrequent` sees. Here the map is keyed by
    the parameters themselves, and `mostFrequent` names the key of the entry it
    points to. */
module Statistics {
  import opened Wrappers
  import opened Models
  import opened Collections

  datatype StatisticsTracker = StatisticsTracker(
    entries: map<FizzBuzzInput, Entry>,
    mostFrequent: Option<FizzBuzzInput>)

  /** `mostFrequent`, when set, points at an entry of the map. */
  predicate PointsIntoEntries(t: StatisticsTracker) {
    t.mostFrequent.Some? ==> t.mostFrequent.value in t.entries
  }

  type Tracker = t: StatisticsTracker | PointsIntoEntries(t) witness StatisticsTracker(map[], None)

  /** `e` has at least as many hits as every tracked entry. */
  predicate IsMax(t: Tracker, e: Entry) {
    forall k :: k in t.entries ==> t.entries[k].hits <= e.hits
  }

  /** The invariant every tracker built by `NewTracker` and `Record` keeps:
      each entry is stored under its own parameters with at least one hit,
      `mostFrequent` is unset exactly when nothing is tracked, and otherwise
      it carries the maximum hit count. */
  predicate Valid(t: Tracker) {
    && (forall k :: k in t.entries ==> t.entries[k].parameters == k && t.entries[k].hits >= 1)
    && (t.mostFrequent.None? <==> |t.entries| == 0)
    && (t.mostFrequent.Some? ==> IsMax(t, t.entries[t.mostFrequent.value]))
  }

  function NewTracker(): (t: Tracker)
    ensures Valid(t) && |t.entries| == 0
  {
    StatisticsTracker(map[], None)
  }

  /** One request with parameters `input`: a new combination enters with one
      hit, a known one gains one hit, and nothing else changes. The most
      frequent entry is replaced only by one with strictly more hits. */
  function Record(t: Tracker, input: FizzBuzzInput): (t': Tracker)
    ensures Valid(t) ==> Valid(t')
    ensures t'.entries.Keys == t.entries.Keys + {input}
    ensures input !in t.entries ==> t'.entries[input] == Entry(input, 1)
    ensures input in t.entries ==> t'.entries[input] == t.entries[input].(hits := t.entries[input].hits + 1)
    ensures forall k :: k in t.entries && k != input ==> t'.entries[k] == t.entries[k]
    ensures |t'.entries| == |t.entries| + (if input in t.entries then 0 else 1)
    ensures t'.mostFrequent != t.mostFrequent ==> t'.mostFrequent == Some(input)
    ensures t.mostFrequent.Some? && t'.mostFrequent != t.mostFrequent ==>
              t'.entries[input].hits > t.entries[t.mostFrequent.value].hits
  {
    var e := if input in t.entries then t.entries[input].(hits := t.entries[input].hits + 1)
             else Entry(input, 1);
    var entries := t.entries[input := e];
    var replace := t.mostFrequent.None? || e.hits > entries[t.mostFrequent.value].hits;
    StatisticsTracker(entries, if replace then Some(input) else t.mostFrequent)
  }

  /** The most frequent entry, after the same cross-check as the Go code: a
      scan over all entries may override the cached pointer only with strictly
      more hits. None exactly when nothing is tracked; otherwise an entry with
      the maximum hit count, namely the cached one. */
  method GetMostFrequent(t: Tracker) returns (r: Option<Entry>)
    ensures t.mostFrequent.None? ==> r.None?
    ensures r.Some? ==> r.value in t.entries.Values
    ensures Valid(t) ==> (r.None? <==> |t.entries| == 0)
    ensures Valid(t) && r.Some? ==> IsMax(t, r.value)
    ensures Valid(t) && t.mostFrequent.Some? ==> r == Some(t.entries[t.mostFrequent.value])
  {
    if t.mostFrequent.None? {
      return None;
    }
    var maxHits := 0;
    var result: Option<Entry> := None;
    var todo := t.entries.Keys;
    while todo != {}
      invariant todo <= t.entries.Keys
      invariant result.None? ==> maxHits == 0
      invariant result.Some? ==> result.value.hits == maxHits && result.value in t.entries.Values
      invariant forall k :: k in t.entries && k !in todo ==> t.entries[k].hits <= maxHits
      decreases todo
    {
      var k :| k in todo;
      if t.entries[k].hits > maxHits {
        maxHits := t.entries[k].hits;
        result := Some(t.entries[k]);
      }
      todo := todo - {k};
    }
    var cached := t.entries[t.mostFrequent.value];
    if result.Some? && result.value.hits > cached.hits {
      return result;
    }
    return Some(cached);
  }

  /** A copy of all entries: the same keys, each with the same parameters and
      hits. */
  function GetStats(t: Tracker): (m: map<FizzBuzzInput, Entry>)
    ensures m.Keys == t.entries.Keys
    ensures forall k :: k in m ==> m[k].parameters == t.entries[k].parameters && m[k].hits == t.entries[k].hits
  {
    map k | k in t.entries :: Entry(t.entries[k].parameters, t.entries[k].hits)
  }

  function EntryCount(t: Tracker): (n: nat)
    ensures n == |t.entries.Keys|
  {
    |t.entries|
  }

  // ----- Hit totals -----------------------------------------------------------

  ghost function PickKey<K>(m: map<K, Entry>): (k: K)
    requires |m| > 0
    ensures k in m
  {
    assert m.Keys != {};
    var k :| k in m; k
  }

  /** The sum of the hit counts of all entries of `m`. */
  ghost function TotalHits<K>(m: map<K, Entry>): int
    decreases |m|
  {
    if |m| == 0 then 0
    else
      var k := PickKey(m);
      assert (m - {k}).Keys == m.Keys - {k};
      m[k].hits + TotalHits(m - {k})
  }

  /** Any entry can be taken out of the total first. */
  lemma {:induction false} TotalHitsRemove<K>(m: map<K, Entry>, k: K)
    requires k in m
    ensures TotalHits(m) == m[k].hits + TotalHits(m - {k})
    decreases |m|
  {
    var j := PickKey(m);
    if j != k {
      assert (m - {j}).Keys == m.Keys - {j};
      assert (m - {k}).Keys == m.Keys - {k};
      TotalHitsRemove(m - {j}, k);
      TotalHitsRemove(m - {k}, j);
      assert m - {j} - {k} == m - {k} - {j};
    }
  }

  /** Replacing or adding one entry changes the total by the difference. */
  lemma TotalHitsUpdate<K>(m: map<K, Entry>, k: K, e: Entry)
    ensures TotalHits(m[k := e]) == TotalHits(m) + e.hits - (if k in m then m[k].hits else 0)
  {
    TotalHitsRemove(m[k := e], k);
    if k in m {
      TotalHitsRemove(m, k);
      assert m[k := e] - {k} == m - {k};
    } else {
      assert m[k := e] - {k} == m;
    }
  }

  /** Each request adds exactly one hit to the total. */
  lemma RecordAddsOneHit(t: Tracker, input: FizzBuzzInput)
    ensures TotalHits(Record(t, input).entries) == TotalHits(t.entries) + 1
  {
    var e := if input in t.entries then t.entries[input].(hits := t.entries[input].hits + 1)
             else Entry(input, 1);
    assert Record(t, input).entries == t.entries[input := e];
    TotalHitsUpdate(t.entries, input, e);
  }

  /** The tracker after recording each input in turn. */
  function RecordAll(t: Tracker, inputs: seq<FizzBuzzInput>): Tracker
    decreases |inputs|
  {
    if |inputs| == 0 then t else Record(RecordAll(t, inputs[..|inputs| - 1]), inputs[|inputs| - 1])
  }

  /** After any sequence of requests on a new tracker: the invariant holds, the
      hits add up to the number of requests, and there is one entry per
      distinct parameter combination. */
  lemma {:induction false} RecordAllFromNew(inputs: seq<FizzBuzzInput>)
    ensures var t := RecordAll(NewTracker(), inputs);
      && Valid(t)
      && TotalHits(t.entries) == |inputs|
      && t.entries.Keys == Elements(inputs)
      && EntryCount(t) == |Elements(inputs)|
    decreases |inputs|
  {
    if |inputs| > 0 {
      var prefix := inputs[..|inputs| - 1];
      RecordAllFromNew(prefix);
      RecordAddsOneHit(RecordAll(NewTracker(), prefix), inputs[|inputs| - 1]);
    }
  }

  lemma RecordAllSnoc(t: Tracker, inputs: seq<FizzBuzzInput>, x: FizzBuzzInput)
    ensures RecordAll(t, inputs + [x]) == Record(RecordAll(t, inputs), x)
  {
    assert (inputs + [x])[..|inputs|] == inputs;
  }

  /** A tie never replaces the holder: with two combinations recorded once
      each, the first stays the most frequent. */
  lemma TieKeepsFirst(a: FizzBuzzInput, b: FizzBuzzInput)
    requires a != b
    ensures RecordAll(NewTracker(), [a, b]).mostFrequent == Some(a)
  {
    var t0 := NewTracker();
    RecordAllSnoc(t0, [], a);
    RecordAllSnoc(t0, [a], b);
    assert [] + [a] == [a] && [a] + [b] == [a, b];
    var t1 := Record(t0, a);
    assert t1.mostFrequent == Some(a);
    assert t1.entries[a].hits == 1 && b !in t1.entries;
    var t2 := Record(t1, b);
    assert t2.entries[b].hits == 1;
  }

  /** The holder follows the hit counts: after a, b, b the most frequent is b
      with two hits, and after two more a it is a with three. */
  lemma MostFrequentFollowsHits(a: FizzBuzzInput, b: FizzBuzzInput)
    requires a != b
    ensures var t3 := Record(Record(Record(NewTracker(), a), b), b);
      && t3.mostFrequent == Some(b) && t3.entries[b].hits == 2
      && var t5 := Record(Record(t3, a), a);
      && t5.mostFrequent == Some(a) && t5.entries[a].hits == 3
  {
    var t1 := Record(NewTracker(), a);
    assert t1.mostFrequent == Some(a) && t1.entries[a].hits == 1 && b !in t1.entries;
    var t2 := Record(t1, b);
    assert t2.mostFrequent == Some(a) && t2.entries[b].hits == 1 && t2.entries[a].hits == 1;
    var t3 := Record(t2, b);
    assert t3.entries[b].hits == 2 && t3.entries[a].hits == 1;
    assert t3.mostFrequent == Some(b);
    var t4 := Record(t3, a);
    assert t4.entries[a].hits == 2 && t4.entries[b].hits == 2;
    assert t4.mostFrequent == Some(b);
    var t5 := Record(t4, a);
    assert t5.entries[a].hits == 3 && t5.entries[b].hits == 2;
  }
}
