/** The request counters behind the Prometheus listing. */
module Metrics {
  import opened GoInt64
  import opened Decimal
  import opened Sorting

  const INITIAL: map<string, uint64> := map["200" := 0, "400" := 0, "404" := 0, "502" := 0]

  /** A key's count; Go's zero value when it is missing. */
  function CountAt(counters: map<string, uint64>, key: string): uint64 {
    if key in counters then counters[key] else 0
  }

  /** Go's `m[key]++`: a missing key counts from zero. */
  function Bump(counters: map<string, uint64>, key: string): map<string, uint64> {
    counters[key := Increment(CountAt(counters, key))]
  }

  /** The counters after observing the statuses of `history`, in order, from the given ones. */
  function CountersFrom(start: map<string, uint64>, history: seq<int>): map<string, uint64> {
    if history == [] then start
    else Bump(CountersFrom(start, history[..|history| - 1]), FormatInt(history[|history| - 1]))
  }

  function CountersAfter(history: seq<int>): map<string, uint64> {
    CountersFrom(INITIAL, history)
  }

  lemma ObserveStep(history: seq<int>, status: int)
    ensures CountersAfter(history + [status]) == Bump(CountersAfter(history), FormatInt(status))
    ensures Mod64(|history + [status]|) == Increment(Mod64(|history|))
  {
    assert (history + [status])[..|history|] == history;
    IncrementCounts(|history|);
  }

  datatype Line = Line(status: string, requests: uint64)

  /** The counter lines: each key once, in sorted order, with its count. */
  ghost function LinesOf(counters: map<string, uint64>): (lines: seq<Line>)
    ensures |lines| == |Listing(counters.Keys)|
    ensures forall i :: 0 <= i < |lines| ==>
              lines[i] == Line(Listing(counters.Keys)[i], CountAt(counters, Listing(counters.Keys)[i]))
  {
    var keys := Listing(counters.Keys);
    seq(|keys|, i requires 0 <= i < |keys| => Line(keys[i], CountAt(counters, keys[i])))
  }

  class Metrics {
    var requests: map<string, uint64>
    var count: uint64
    ghost var history: seq<int>

    ghost predicate Valid()
      reads this
    {
      requests == CountersAfter(history) && count == Mod64(|history|)
    }

    constructor ()
      ensures Valid() && history == []
    {
      requests := INITIAL;
      count := 0;
      history := [];
    }

    method Observe(status: int)
      requires Valid()
      modifies this
      ensures Valid() && history == old(history) + [status]
    {
      ObserveStep(history, status);
      requests := Bump(requests, FormatInt(status));
      count := Increment(count);
      history := history + [status];
    }

    method WritePrometheus() returns (lines: seq<Line>, total: uint64)
      ensures lines == LinesOf(requests) && total == count
    {
      var statuses := SortedKeys(requests.Keys);
      assert forall i :: 0 <= i < |statuses| ==> statuses[i] in Elements(statuses);
      lines := [];
      for i := 0 to |statuses|
        invariant |lines| == i
        invariant forall k :: 0 <= k < i ==> lines[k] == Line(statuses[k], requests[statuses[k]])
      {
        lines := lines + [Line(statuses[i], requests[statuses[i]])];
      }
      total := count;
    }
  }

  // ---------- What the counters keep ----------

  predicate KnownStatus(status: int) {
    status == 200 || status == 400 || status == 404 || status == 502
  }

  function Occurrences(history: seq<int>, status: int): nat {
    if history == [] then 0
    else Occurrences(history[..|history| - 1], status) + if history[|history| - 1] == status then 1 else 0
  }

  lemma KnownKeys()
    ensures FormatInt(200) == "200" && FormatInt(400) == "400" && FormatInt(404) == "404" && FormatInt(502) == "502"
  {
    assert FormatNat(2) == "2" && FormatNat(4) == "4" && FormatNat(5) == "5";
    assert FormatNat(20) == "20" && FormatNat(40) == "40" && FormatNat(50) == "50";
  }

  lemma SameTextIff(a: int, b: int)
    ensures FormatInt(a) == FormatInt(b) <==> a == b
  {
    if FormatInt(a) == FormatInt(b) {
      FormatIntInjective(a, b);
    }
  }

  lemma CounterStep(counters: map<string, uint64>, bumped: string, key: string, n: nat)
    requires CountAt(counters, key) == Mod64(n)
    ensures CountAt(Bump(counters, bumped), key) == Mod64(if key == bumped then n + 1 else n)
  {
    IncrementCounts(n);
  }

  /** A key that starts at zero counts its status's occurrences, modulo the counter width. */
  lemma {:induction false} CounterIs(start: map<string, uint64>, history: seq<int>, status: int)
    requires CountAt(start, FormatInt(status)) == 0
    ensures CountAt(CountersFrom(start, history), FormatInt(status)) == Mod64(Occurrences(history, status))
  {
    if history != [] {
      var head, last := history[..|history| - 1], history[|history| - 1];
      CounterIs(start, head, status);
      CounterStep(CountersFrom(start, head), FormatInt(last), FormatInt(status), Occurrences(head, status));
      SameTextIff(last, status);
    }
  }

  /** Keys are never lost, and none is added exactly when every status already has one. */
  lemma {:induction false} KeysFrom(start: map<string, uint64>, history: seq<int>)
    ensures CountersFrom(start, history).Keys == start.Keys
       <==> forall i :: 0 <= i < |history| ==> FormatInt(history[i]) in start.Keys
    ensures start.Keys <= CountersFrom(start, history).Keys
  {
    if history != [] {
      var head, last := history[..|history| - 1], history[|history| - 1];
      KeysFrom(start, head);
      assert CountersFrom(start, history).Keys == CountersFrom(start, head).Keys + {FormatInt(last)};
      assert forall i :: 0 <= i < |head| ==> head[i] == history[i];
    }
  }

  /** The initial keys are the texts of the known statuses and of no other integer. */
  lemma InitialKeysIff(status: int)
    ensures FormatInt(status) in INITIAL.Keys <==> KnownStatus(status)
  {
    KnownKeys();
    if FormatInt(status) == "200" {
      FormatIntInjective(status, 200);
    } else if FormatInt(status) == "400" {
      FormatIntInjective(status, 400);
    } else if FormatInt(status) == "404" {
      FormatIntInjective(status, 404);
    } else if FormatInt(status) == "502" {
      FormatIntInjective(status, 502);
    }
  }

  /** The key set stays the initial one exactly when only known statuses were observed. */
  lemma KeysKept(history: seq<int>)
    ensures CountersAfter(history).Keys == INITIAL.Keys
       <==> forall i :: 0 <= i < |history| ==> KnownStatus(history[i])
  {
    KeysFrom(INITIAL, history);
    forall i | 0 <= i < |history|
      ensures FormatInt(history[i]) in INITIAL.Keys <==> KnownStatus(history[i])
    {
      InitialKeysIff(history[i]);
    }
  }

  lemma {:induction false} OccurrencesSum(history: seq<int>)
    requires forall i :: 0 <= i < |history| ==> KnownStatus(history[i])
    ensures Occurrences(history, 200) + Occurrences(history, 400)
          + Occurrences(history, 404) + Occurrences(history, 502) == |history|
  {
    if history != [] {
      OccurrencesSum(history[..|history| - 1]);
    }
  }

  lemma KnownListing()
    ensures Listing(INITIAL.Keys) == ["200", "400", "404", "502"]
  {
    var xs := ["200", "400", "404", "502"];
    assert Less("200", "400") && Less("200", "404") && Less("200", "502")
        && Less("400", "404") && Less("400", "502") && Less("404", "502") by {
      assert "404"[1..] == "04" && "04"[1..] == "4" && "400"[1..] == "00" && "00"[1..] == "0";
      assert Less("0", "4") && Less("00", "04");
    }
    assert xs[0] in xs && xs[1] in xs && xs[2] in xs && xs[3] in xs;
    assert Elements(xs) == INITIAL.Keys;
    ListingUnique(xs, Listing(INITIAL.Keys));
  }

  /**
   The counters' keys are just the four statuses, each counts its own status, the four add up to
   the number of observations, and the listing shows each key once, in order.
   */
  ghost predicate CountsExactly(history: seq<int>) {
    var c := CountersAfter(history);
    var ok, bad, missing, upstream := CountAt(c, "200"), CountAt(c, "400"), CountAt(c, "404"), CountAt(c, "502");
    && c.Keys == {"200", "400", "404", "502"}
    && ok == Occurrences(history, 200) && bad == Occurrences(history, 400)
    && missing == Occurrences(history, 404) && upstream == Occurrences(history, 502)
    && ok as int + bad as int + missing as int + upstream as int == |history|
    && LinesOf(c) == [Line("200", ok), Line("400", bad), Line("404", missing), Line("502", upstream)]
  }

  /** A listing that shows the four statuses in order, each with its occurrences, and their sum. */
  predicate ListsExactly(history: seq<int>, lines: seq<Line>, total: uint64) {
    && |lines| == 4
    && lines[0].status == "200" && lines[0].requests == Occurrences(history, 200)
    && lines[1].status == "400" && lines[1].requests == Occurrences(history, 400)
    && lines[2].status == "404" && lines[2].requests == Occurrences(history, 404)
    && lines[3].status == "502" && lines[3].requests == Occurrences(history, 502)
    && total as int == lines[0].requests as int + lines[1].requests as int
                     + lines[2].requests as int + lines[3].requests as int
  }

  lemma ListingExact(history: seq<int>)
    requires |history| < TWO_TO_64 && CountsExactly(history)
    ensures ListsExactly(history, LinesOf(CountersAfter(history)), Mod64(|history|))
  {
  }

  lemma {:induction false} OccurrencesBound(history: seq<int>, status: int)
    ensures Occurrences(history, status) <= |history|
  {
    if history != [] {
      OccurrencesBound(history[..|history| - 1], status);
    }
  }

  /** Below the counter width, any status's counter is exactly its number of occurrences. */
  lemma CounterExact(history: seq<int>, status: int)
    requires |history| < TWO_TO_64
    ensures CountAt(CountersAfter(history), FormatInt(status)) == Occurrences(history, status)
  {
    assert CountAt(INITIAL, FormatInt(status)) == 0;
    CounterIs(INITIAL, history, status);
    OccurrencesBound(history, status);
  }

  /** Observing only known statuses, fewer than the counter width, keeps the counters exact. */
  lemma CountersExact(history: seq<int>)
    requires forall i :: 0 <= i < |history| ==> KnownStatus(history[i])
    requires |history| < TWO_TO_64
    ensures CountsExactly(history)
  {
    KeysKept(history);
    OccurrencesSum(history);
    FourCounters(history);
    KnownLines(CountersAfter(history));
  }

  lemma FourCounters(history: seq<int>)
    requires |history| < TWO_TO_64
    ensures CountAt(CountersAfter(history), "200") == Occurrences(history, 200)
    ensures CountAt(CountersAfter(history), "400") == Occurrences(history, 400)
    ensures CountAt(CountersAfter(history), "404") == Occurrences(history, 404)
    ensures CountAt(CountersAfter(history), "502") == Occurrences(history, 502)
  {
    KnownKeys();
    CounterExact(history, 200);
    CounterExact(history, 400);
    CounterExact(history, 404);
    CounterExact(history, 502);
  }

  lemma KnownLines(c: map<string, uint64>)
    requires c.Keys == INITIAL.Keys
    ensures LinesOf(c) == [Line("200", CountAt(c, "200")), Line("400", CountAt(c, "400")),
                           Line("404", CountAt(c, "404")), Line("502", CountAt(c, "502"))]
  {
    KnownListing();
    assert Listing(c.Keys) == Listing(INITIAL.Keys);
  }
}
