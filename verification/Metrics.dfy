/** The metrics registry, as many server threads use it at once.
  *
  * Each lock-protected operation is one step; threads take their steps in any order.  A counter is a
  * number in its family, found by its labels: entries are never erased, so that a reference to a counter
  * is its name and labels. */
module Metrics {
  type Labels = map<string, string>
  type Family = map<Labels, int>

  const REQUESTS := "http_requests_total"
  const DURATIONS := "http_request_duration_seconds"
  const ATTEMPTS := "auth_attempts_total"
  const FAILURES := "auth_failures_total"
  const DB_OPERATIONS := "db_operations_total"

  const DURATION_BUCKETS: seq<real> := [0.01, 0.025, 0.05, 0.1, 0.25, 0.5, 1.0, 2.5, 5.0, 10.0]

  const METHODS := ["GET", "POST", "PUT", "DELETE", "PATCH"]
  const PATHS := ["/", "/metrics", "/api/test-db", "/api/login", "/api/logout", "/api/devices", "/api/service-types",
                  "/api/service-history", "/api/service-records"]
  const STATUSES := ["200", "201", "400", "401", "403", "404", "500"]

  function RequestLabels(verb: string, path: string, status: string): Labels {
    map["method" := verb, "path" := path, "status" := status]
  }

  function AttemptLabels(user: string, success: bool): Labels {
    map["username" := user, "success" := if success then "true" else "false"]
  }

  // Histograms.

  datatype Histogram = Histogram(sum: real, count: nat, values: seq<real>, buckets: seq<real>) {
    ghost predicate Valid() {
      count == |values| && sum == Sum(values)
    }

    function Observe(value: real): (h: Histogram)
      ensures h.buckets == buckets && (Valid() ==> h.Valid())
      ensures forall b :: AtMost(h.values, b) == AtMost(values, b) + if value <= b then 1 else 0
    {
      SumMore(values, value);
      AtMostMore(values, value);
      Histogram(sum + value, count + 1, values + [value], buckets)
    }

    /** The counts of the buckets, as they are formatted.  If the bounds are sorted the counts never
      * decrease; and none exceeds the count in the last, infinite bucket. */
    method BucketCounts() returns (counts: seq<nat>)
      ensures |counts| == |buckets|
      ensures forall i :: 0 <= i < |buckets| ==> counts[i] == AtMost(values, buckets[i])
      ensures Valid() ==> forall i :: 0 <= i < |buckets| ==> counts[i] <= count
      ensures (forall i, j :: 0 <= i < j < |buckets| ==> buckets[i] <= buckets[j]) ==>
                forall i, j :: 0 <= i < j < |buckets| ==> counts[i] <= counts[j]
    {
      counts := seq(|buckets|, _ => 0);
      var n := 0;
      while n < |values|
        invariant n <= |values| && |counts| == |buckets|
        invariant forall i :: 0 <= i < |buckets| ==> counts[i] == AtMost(values[..n], buckets[i])
      {
        AtMostMore(values[..n], values[n]);
        assert values[..n + 1] == values[..n] + [values[n]];
        var i := 0;
        while i < |buckets|
          invariant i <= |buckets| == |counts|
          invariant forall j :: 0 <= j < i ==> counts[j] == AtMost(values[..n + 1], buckets[j])
          invariant forall j :: i <= j < |buckets| ==> counts[j] == AtMost(values[..n], buckets[j])
        {
          if values[n] <= buckets[i] {
            counts := counts[i := counts[i] + 1];
          }
          i := i + 1;
        }
        n := n + 1;
      }
      assert values[..n] == values;
      forall i | 0 <= i < |buckets| ensures counts[i] <= |values| {
        AtMostAll(values, buckets[i]);
      }
      forall i, j | 0 <= i < j < |buckets| && buckets[i] <= buckets[j] ensures counts[i] <= counts[j] {
        AtMostMonotone(values, buckets[i], buckets[j]);
      }
    }
  }

  ghost function Sum(values: seq<real>): real {
    if values == [] then 0.0 else Sum(values[..|values| - 1]) + values[|values| - 1]
  }

  lemma SumMore(values: seq<real>, v: real)
    ensures Sum(values + [v]) == Sum(values) + v
  {
    assert (values + [v])[..|values|] == values;
  }

  /** How many values are at most a bound. */
  ghost function AtMost(values: seq<real>, bound: real): nat {
    if values == [] then 0
    else AtMost(values[..|values| - 1], bound) + if values[|values| - 1] <= bound then 1 else 0
  }

  lemma AtMostMore(values: seq<real>, v: real)
    ensures forall b :: AtMost(values + [v], b) == AtMost(values, b) + if v <= b then 1 else 0
  {
    assert (values + [v])[..|values|] == values;
  }

  lemma {:induction false} AtMostAll(values: seq<real>, b: real)
    ensures AtMost(values, b) <= |values|
  {
    if values != [] {
      AtMostAll(values[..|values| - 1], b);
    }
  }

  lemma {:induction false} AtMostMonotone(values: seq<real>, a: real, b: real)
    requires a <= b
    ensures AtMost(values, a) <= AtMost(values, b)
  {
    if values != [] {
      AtMostMonotone(values[..|values| - 1], a, b);
    }
  }

  // Sums over the labels of a family.

  /** Which labels to count: all, or only those of failures. */
  predicate Picks(failedOnly: bool, l: Labels) {
    !failedOnly || ("success" in l && l["success"] == "false")
  }

  ghost function SumOf(m: Family, keys: set<Labels>): int
    requires keys <= m.Keys
    decreases keys
  {
    if keys == {} then 0
    else var k :| k in keys; m[k] + SumOf(m, keys - {k})
  }

  lemma {:induction false} SumSplit(m: Family, keys: set<Labels>, k: Labels)
    requires keys <= m.Keys && k in keys
    ensures SumOf(m, keys) == m[k] + SumOf(m, keys - {k})
    decreases keys
  {
    var j :| j in keys && SumOf(m, keys) == m[j] + SumOf(m, keys - {j});
    if j != k {
      SumSplit(m, keys - {j}, k);
      SumSplit(m, keys - {k}, j);
      assert keys - {j} - {k} == keys - {k} - {j};
    }
  }

  /** Sums depend on the counts summed only. */
  lemma {:induction false} SumSame(m: Family, n: Family, keys: set<Labels>)
    requires keys <= m.Keys && keys <= n.Keys && forall k :: k in keys ==> m[k] == n[k]
    ensures SumOf(m, keys) == SumOf(n, keys)
    decreases keys
  {
    if keys != {} {
      var k :| k in keys;
      SumSplit(m, keys, k);
      SumSplit(n, keys, k);
      SumSame(m, n, keys - {k});
    }
  }

  /** Counts of zero do not matter. */
  lemma {:induction false} SumZero(m: Family, keys: set<Labels>, more: set<Labels>)
    requires keys <= more <= m.Keys && forall k :: k in more && k !in keys ==> m[k] == 0
    ensures SumOf(m, more) == SumOf(m, keys)
    decreases more
  {
    if more != keys {
      var k :| k in more && k !in keys;
      SumSplit(m, more, k);
      SumZero(m, keys, more - {k});
    }
  }

  function Picked(m: Family, failedOnly: bool): set<Labels> {
    set l | l in m && Picks(failedOnly, l)
  }

  /** The sum of a family's counts. */
  ghost function Total(m: Family, failedOnly: bool): int {
    SumOf(m, Picked(m, failedOnly))
  }

  /** Nothing is lost or reset: all counts are kept, and new ones are zero. */
  ghost predicate Kept(m: Family, n: Family) {
    && (forall l :: l in m ==> l in n && n[l] == m[l])
    && (forall l :: l in n && l !in m ==> n[l] == 0)
  }

  lemma KeptTotal(m: Family, n: Family, failedOnly: bool)
    requires Kept(m, n)
    ensures Total(m, failedOnly) == Total(n, failedOnly)
  {
    var keys := Picked(m, failedOnly);
    SumSame(m, n, keys);
    SumZero(n, keys, Picked(n, failedOnly));
  }

  lemma IncrementTotal(m: Family, l: Labels, failedOnly: bool)
    requires l in m
    ensures Total(m[l := m[l] + 1], failedOnly) == Total(m, failedOnly) + if Picks(failedOnly, l) then 1 else 0
  {
    var n := m[l := m[l] + 1];
    var keys := Picked(m, failedOnly);
    assert Picked(n, failedOnly) == keys;
    if l in keys {
      SumSplit(m, keys, l);
      SumSplit(n, keys, l);
      SumSame(m, n, keys - {l});
    } else {
      SumSame(m, n, keys);
    }
  }

  type Counters = map<string, Family>
  type Histograms = map<string, map<Labels, Histogram>>

  function FamilyOf(c: Counters, name: string): Family {
    if name in c then c[name] else map[]
  }

  predicate Has(c: Counters, name: string, l: Labels) {
    name in c && l in c[name]
  }

  function CountOf(c: Counters, name: string, l: Labels): int {
    if Has(c, name, l) then c[name][l] else 0
  }

  ghost predicate AllKept(c: Counters, d: Counters) {
    && c.Keys <= d.Keys && forall name :: Kept(FamilyOf(c, name), FamilyOf(d, name))
  }

  predicate HasHistogram(h: Histograms, name: string, l: Labels) {
    name in h && l in h[name]
  }

  function ObservationsOf(h: Histograms, name: string, l: Labels): nat {
    if HasHistogram(h, name, l) then h[name][l].count else 0
  }

  function ValuesOf(h: Histograms, name: string, l: Labels): seq<real> {
    if HasHistogram(h, name, l) then h[name][l].values else []
  }

  lemma Replaced(h: Histograms, name: string, l: Labels, one: Histogram)
    requires HasHistogram(h, name, l)
    ensures var g := h[name := h[name][l := one]];
            && (forall n, k :: HasHistogram(g, n, k) <==> HasHistogram(h, n, k))
            && (forall n, k :: HasHistogram(g, n, k) ==> g[n][k] == if n == name && k == l then one else h[n][k])
            && (forall n, k ::
                  ObservationsOf(g, n, k) == if n == name && k == l then one.count else ObservationsOf(h, n, k))
            && (forall n, k :: ValuesOf(g, n, k) == if n == name && k == l then one.values else ValuesOf(h, n, k))
    ensures ObservationsOf(h, name, l) == h[name][l].count && ValuesOf(h, name, l) == h[name][l].values
  {
  }

  lemma ObservedOne(h: Histogram, value: real)
    ensures h.Observe(value).count == h.count + 1 && h.Observe(value).values == h.values + [value]
    ensures h.Valid() ==> h.Observe(value).Valid()
  {
    hide AtMost, Sum;
  }

  /** The histogram of durations, if it is there, has these bounds. */
  predicate Bucketed(h: Histograms) {
    HasHistogram(h, "http_request_duration_seconds", map[]) ==>
      h["http_request_duration_seconds"][map[]].buckets == [0.01, 0.025, 0.05, 0.1, 0.25, 0.5, 1.0, 2.5, 5.0, 10.0]
  }

  class Registry {
    var counters: Counters
    var histograms: Histograms
    var initialized: bool

    ghost predicate Valid()
      reads this
    {
      forall name, l :: HasHistogram(histograms, name, l) ==> histograms[name][l].Valid()
    }

    constructor ()
      ensures counters == map[] && histograms == map[] && !initialized && Valid()
    {
      counters, histograms, initialized := map[], map[], false;
    }

    /** Adds a counter, unless there is one. */
    method Emplace(name: string, l: Labels)
      modifies this`counters
      ensures AllKept(old(counters), counters) && Has(counters, name, l)
      ensures forall n, k :: Has(old(counters), n, k) ==> Has(counters, n, k)
    {
      if name !in counters {
        counters := counters[name := map[]];
      }
      if l !in counters[name] {
        counters := counters[name := counters[name][l := 0]];
      }
    }

    /** Finds or creates a counter. */
    method GetCounter(name: string, l: Labels)
      modifies this`counters
      ensures AllKept(old(counters), counters) && Has(counters, name, l)
      ensures forall n, k :: Has(old(counters), n, k) ==> Has(counters, n, k)
    {
      if name !in counters {
        counters := counters[name := map[l := 0]];
        return;
      }
      if l !in counters[name] {
        counters := counters[name := counters[name][l := 0]];
      }
    }

    method Increment(name: string, l: Labels)
      requires Has(counters, name, l)
      modifies this`counters
      ensures counters == old(counters)[name := old(counters)[name][l := old(counters)[name][l] + 1]]
    {
      counters := counters[name := counters[name][l := counters[name][l] + 1]];
    }

    /** Finds or creates a histogram. */
    method GetHistogram(name: string, buckets: seq<real>, l: Labels)
      requires Valid()
      modifies this`histograms
      ensures Valid() && HasHistogram(histograms, name, l)
      ensures !HasHistogram(old(histograms), name, l) ==> histograms[name][l] == Histogram(0.0, 0, [], buckets)
      ensures forall n, k ::
                HasHistogram(histograms, n, k) && (n != name || k != l) ==> HasHistogram(old(histograms), n, k)
      ensures forall n, k :: HasHistogram(old(histograms), n, k) ==>
                HasHistogram(histograms, n, k) && histograms[n][k] == old(histograms)[n][k]
      ensures forall n, k :: ObservationsOf(histograms, n, k) == ObservationsOf(old(histograms), n, k)
      ensures forall n, k :: ValuesOf(histograms, n, k) == ValuesOf(old(histograms), n, k)
    {
      if name !in histograms {
        histograms := histograms[name := map[l := Histogram(0.0, 0, [], buckets)]];
        return;
      }
      if l !in histograms[name] {
        histograms := histograms[name := histograms[name][l := Histogram(0.0, 0, [], buckets)]];
      }
    }

    method Observe(name: string, l: Labels, value: real)
      requires Valid() && HasHistogram(histograms, name, l)
      modifies this`histograms
      ensures Valid() && forall n, k :: HasHistogram(histograms, n, k) <==> HasHistogram(old(histograms), n, k)
      ensures histograms[name][l] == old(histograms)[name][l].Observe(value)
      ensures forall n, k :: ObservationsOf(histograms, n, k)
                          == ObservationsOf(old(histograms), n, k) + if n == name && k == l then 1 else 0
      ensures forall n, k :: ValuesOf(histograms, n, k)
                          == ValuesOf(old(histograms), n, k) + if n == name && k == l then [value] else []
    {
      hide ObservationsOf, ValuesOf, Histogram.Observe;
      Replaced(histograms, name, l, histograms[name][l].Observe(value));
      ObservedOne(histograms[name][l], value);
      histograms := histograms[name := histograms[name][l := histograms[name][l].Observe(value)]];
    }

    /** Registers the standard metrics, so that they can be seen before they are used. */
    method Initialize()
      requires Valid()
      modifies this
      ensures Valid() && initialized && AllKept(old(counters), counters)
      ensures forall n, k :: Has(old(counters), n, k) ==> Has(counters, n, k)
      ensures !old(initialized) ==>
                 AllSeen(counters) && Has(counters, FAILURES, map[]) && HasHistogram(histograms, DURATIONS, map[])
      ensures Bucketed(old(histograms)) ==> Bucketed(histograms)
      ensures forall n, k :: HasHistogram(old(histograms), n, k) ==>
                HasHistogram(histograms, n, k) && histograms[n][k] == old(histograms)[n][k]
      ensures forall n, k :: ObservationsOf(histograms, n, k) == ObservationsOf(old(histograms), n, k)
      ensures forall n, k :: ValuesOf(histograms, n, k) == ValuesOf(old(histograms), n, k)
    {
      KeptSelf(counters);
      if initialized {
        return;
      }
      EmplaceAll();
      ghost var before := counters;
      Emplace(FAILURES, map[]);
      KeptOn(old(counters), before, counters);
      GetHistogram(DURATIONS, DURATION_BUCKETS, map[]);
      initialized := true;
    }

    method EmplaceAll()
      modifies this`counters
      ensures AllKept(old(counters), counters) && AllSeen(counters)
      ensures forall n, k :: Has(old(counters), n, k) ==> Has(counters, n, k)
    {
      hide AllKept, Has;
      KeptSelf(counters);
      for i := 0 to |METHODS|
        invariant AllKept(old(counters), counters) && Seen(counters, i, 0, 0)
        invariant forall n, k :: Has(old(counters), n, k) ==> Has(counters, n, k)
      {
        for j := 0 to |PATHS|
          invariant AllKept(old(counters), counters) && Seen(counters, i, j, 0)
          invariant forall n, k :: Has(old(counters), n, k) ==> Has(counters, n, k)
        {
          for k := 0 to |STATUSES|
            invariant AllKept(old(counters), counters) && Seen(counters, i, j, k)
            invariant forall n, k :: Has(old(counters), n, k) ==> Has(counters, n, k)
          {
            ghost var before := counters;
            Emplace(REQUESTS, RequestLabels(METHODS[i], PATHS[j], STATUSES[k]));
            KeptOn(old(counters), before, counters);
          }
        }
      }
    }
  }

  /** The standard request counters up to a place in their order are there. */
  ghost predicate Seen(c: Counters, i: nat, j: nat, k: nat) {
    forall a, b, s :: 0 <= a < |METHODS| && 0 <= b < |PATHS| && 0 <= s < |STATUSES| ==>
      a < i || (a == i && (b < j || (b == j && s < k))) ==>
        Has(c, REQUESTS, RequestLabels(METHODS[a], PATHS[b], STATUSES[s]))
  }

  ghost predicate AllSeen(c: Counters) {
    Seen(c, |METHODS|, 0, 0)
  }

  /** Which counters of requests are there after the initialization. */
  lemma SeenMeans(c: Counters, verb: string, path: string, status: string)
    requires AllSeen(c)
    requires verb in {"GET", "POST", "PUT", "DELETE", "PATCH"}
    requires path in {"/", "/metrics", "/api/test-db", "/api/login", "/api/logout", "/api/devices",
                      "/api/service-types", "/api/service-history", "/api/service-records"}
    requires status in {"200", "201", "400", "401", "403", "404", "500"}
    ensures Has(c, "http_requests_total", map["method" := verb, "path" := path, "status" := status])
  {
    hide Has;
    Listed(verb, path, status);
    var i :| 0 <= i < |METHODS| && METHODS[i] == verb;
    var j :| 0 <= j < |PATHS| && PATHS[j] == path;
    var k :| 0 <= k < |STATUSES| && STATUSES[k] == status;
  }

  lemma Listed(verb: string, path: string, status: string)
    ensures verb in {"GET", "POST", "PUT", "DELETE", "PATCH"} ==> verb in METHODS
    ensures (path in {"/", "/metrics", "/api/test-db", "/api/login", "/api/logout", "/api/devices",
                      "/api/service-types", "/api/service-history", "/api/service-records"}) ==> path in PATHS
    ensures status in {"200", "201", "400", "401", "403", "404", "500"} ==> status in STATUSES
  {
    assert METHODS[0] == "GET" && METHODS[1] == "POST" && METHODS[2] == "PUT" && METHODS[3] == "DELETE";
    assert METHODS[4] == "PATCH";
    assert PATHS[0] == "/" && PATHS[1] == "/metrics" && PATHS[2] == "/api/test-db" && PATHS[3] == "/api/login";
    assert PATHS[4] == "/api/logout" && PATHS[5] == "/api/devices" && PATHS[6] == "/api/service-types";
    assert PATHS[7] == "/api/service-history" && PATHS[8] == "/api/service-records";
    assert STATUSES[0] == "200" && STATUSES[1] == "201" && STATUSES[2] == "400" && STATUSES[3] == "401";
    assert STATUSES[4] == "403" && STATUSES[5] == "404" && STATUSES[6] == "500";
  }

  lemma KeptSelf(c: Counters)
    ensures AllKept(c, c)
  {
  }

  lemma KeptOn(a: Counters, b: Counters, c: Counters)
    requires AllKept(a, b) && AllKept(b, c)
    ensures AllKept(a, c)
  {
    forall name ensures Kept(FamilyOf(a, name), FamilyOf(c, name)) {
      assert Kept(FamilyOf(a, name), FamilyOf(b, name)) && Kept(FamilyOf(b, name), FamilyOf(c, name));
    }
  }

  // Threads.

  /** What a thread records: a request, an authentication attempt, or a database operation. */
  datatype Task =
    | Http(verb: string, path: string, status: string, duration: real)
    | Auth(user: string, success: bool)
    | Db(operation: string, success: bool)

  /** How far it is: not begun, about to count, counted, about to record the second metric, or done. */
  datatype Place = Begun | Found | Counted | Second | Finished

  datatype Thread = Thread(task: Task, place: Place)

  function NameOf(task: Task): string {
    match task
    case Http(_, _, _, _) => REQUESTS
    case Auth(_, _) => ATTEMPTS
    case Db(_, _) => DB_OPERATIONS
  }

  function LabelsOf(task: Task): Labels {
    match task
    case Http(verb, path, status, _) => RequestLabels(verb, path, status)
    case Auth(user, success) => AttemptLabels(user, success)
    case Db(operation, success) => map["operation" := operation, "success" := if success then "true" else "false"]
  }

  /** Under which name and labels each kind of task is counted. */
  lemma CountedUnder(task: Task)
    ensures task.Http? ==>
              && NameOf(task) == "http_requests_total"
              && LabelsOf(task) == map["method" := task.verb, "path" := task.path, "status" := task.status]
    ensures task.Auth? ==>
              && NameOf(task) == "auth_attempts_total"
              && LabelsOf(task) == map["username" := task.user, "success" := if task.success then "true" else "false"]
    ensures task.Db? ==>
              && NameOf(task) == "db_operations_total"
              && LabelsOf(task)
                 == map["operation" := task.operation, "success" := if task.success then "true" else "false"]
    ensures FAILURES == "auth_failures_total" && DURATIONS == "http_request_duration_seconds"
  {
  }

  /** A thread is between its two steps: it has counted a request but not observed its duration, or
    * counted a failed attempt but not the failure. */
  predicate Between(t: Thread, http: bool) {
    && (t.place == Counted || t.place == Second)
    && (if http then t.task.Http? else t.task.Auth? && !t.task.success)
  }

  /** A thread's next step. */
  function Stepped(t: Thread): Thread {
    match t.place
    case Begun => t.(place := Found)
    case Found => t.(place := if t.task.Http? || (t.task.Auth? && !t.task.success) then Counted else Finished)
    case Counted => t.(place := Second)
    case Second => t.(place := Finished)
    case Finished => t
  }

  /** What a thread has added to a counter. */
  function Recorded(t: Thread, name: string, l: Labels): nat {
    (if !t.place.Begun? && !t.place.Found? && name == NameOf(t.task) && l == LabelsOf(t.task) then 1 else 0)
    + (if t.place.Finished? && t.task.Auth? && !t.task.success && name == FAILURES && l == map[] then 1 else 0)
  }

  /** What a thread has observed. */
  function Observed(t: Thread): multiset<real> {
    if t.place.Finished? && t.task.Http? then multiset{t.task.duration} else multiset{}
  }

  /** Whether it has observed a duration of at most a bound. */
  function Low(t: Thread, bound: real): nat {
    if t.place.Finished? && t.task.Http? && t.task.duration <= bound then 1 else 0
  }

  ghost function LowBy(threads: seq<Thread>, bound: real): nat {
    if threads == [] then 0 else LowBy(threads[..|threads| - 1], bound) + Low(threads[|threads| - 1], bound)
  }

  lemma {:induction false} LowUpdate(threads: seq<Thread>, i: nat, t: Thread, bound: real)
    requires i < |threads|
    ensures LowBy(threads[i := t], bound) + Low(threads[i], bound) == LowBy(threads, bound) + Low(t, bound)
  {
    hide Low;
    var rest := threads[..|threads| - 1];
    if i < |rest| {
      LowUpdate(rest, i, t, bound);
      assert threads[i := t][..|threads| - 1] == rest[i := t];
    } else {
      assert threads[i := t][..|threads| - 1] == rest;
    }
  }

  ghost function RecordedBy(threads: seq<Thread>, name: string, l: Labels): nat {
    if threads == [] then 0
    else RecordedBy(threads[..|threads| - 1], name, l) + Recorded(threads[|threads| - 1], name, l)
  }

  ghost function ObservedBy(threads: seq<Thread>): multiset<real> {
    if threads == [] then multiset{}
    else ObservedBy(threads[..|threads| - 1]) + Observed(threads[|threads| - 1])
  }

  lemma {:induction false} RecordedUpdate(threads: seq<Thread>, i: nat, t: Thread, name: string, l: Labels)
    requires i < |threads|
    ensures RecordedBy(threads[i := t], name, l) + Recorded(threads[i], name, l)
         == RecordedBy(threads, name, l) + Recorded(t, name, l)
  {
    hide Recorded;
    var rest := threads[..|threads| - 1];
    if i < |rest| {
      RecordedUpdate(rest, i, t, name, l);
      assert threads[i := t][..|threads| - 1] == rest[i := t];
    } else {
      assert threads[i := t][..|threads| - 1] == rest;
    }
  }

  lemma {:induction false} ObservedUpdate(threads: seq<Thread>, i: nat, t: Thread)
    requires i < |threads|
    ensures ObservedBy(threads[i := t]) + Observed(threads[i]) == ObservedBy(threads) + Observed(t)
  {
    hide Observed;
    var rest, last := threads[..|threads| - 1], Observed(threads[|threads| - 1]);
    if i < |rest| {
      ObservedUpdate(rest, i, t);
      assert threads[i := t][..|threads| - 1] == rest[i := t];
      Swap(ObservedBy(rest[i := t]), last, Observed(threads[i]));
      Swap(ObservedBy(rest), last, Observed(t));
    } else {
      assert threads[i := t][..|threads| - 1] == rest;
      Swap(ObservedBy(rest), last, Observed(t));
    }
  }

  lemma Swap<T>(a: multiset<T>, b: multiset<T>, c: multiset<T>)
    ensures a + b + c == a + c + b
  {
  }

  lemma Cancel<T>(a: multiset<T>, b: multiset<T>, c: multiset<T>)
    requires a + c == b + c
    ensures a == b
  {
    forall x ensures a[x] == b[x] {
      assert (a + c)[x] == (b + c)[x];
    }
  }

  lemma NewThread(threads: seq<Thread>, task: Task)
    ensures forall n, l :: RecordedBy(threads + [Thread(task, Begun)], n, l) == RecordedBy(threads, n, l)
    ensures ObservedBy(threads + [Thread(task, Begun)]) == ObservedBy(threads)
    ensures forall b :: LowBy(threads + [Thread(task, Begun)], b) == LowBy(threads, b)
  {
    assert (threads + [Thread(task, Begun)])[..|threads|] == threads;
  }

  /** Every counter is the number of times that threads recorded it, and the durations that were observed
    * are those of the threads that observed them. */
  ghost predicate Exact(c: Counters, h: Histograms, threads: seq<Thread>) {
    && (forall n, l :: CountOf(c, n, l) == RecordedBy(threads, n, l))
    && multiset(ValuesOf(h, DURATIONS, map[])) == ObservedBy(threads)
    && (forall b :: AtMost(ValuesOf(h, DURATIONS, map[]), b) == LowBy(threads, b))
    && Bucketed(h)
  }

  /** What a thread found is still there. */
  ghost predicate Ready(t: Thread, c: Counters, h: Histograms) {
    && (t.place == Found ==> Has(c, NameOf(t.task), LabelsOf(t.task)))
    && (t.place == Second && t.task.Http? ==> HasHistogram(h, DURATIONS, map[]))
    && (t.place == Second && !t.task.Http? ==> t.task.Auth? && Has(c, FAILURES, map[]))
    && (t.place == Counted && t.task.Auth? ==> !t.task.success)
    && (t.place == Counted ==> !t.task.Db?)
    && (t.place == Second && t.task.Auth? ==> !t.task.success)
  }

  /** How many threads are between their steps. */
  ghost function HowMany(threads: seq<Thread>, http: bool): nat {
    if threads == [] then 0
    else HowMany(threads[..|threads| - 1], http) + if Between(threads[|threads| - 1], http) then 1 else 0
  }

  lemma {:induction false} HowManyUpdate(threads: seq<Thread>, i: nat, t: Thread, http: bool)
    requires i < |threads|
    ensures HowMany(threads[i := t], http) + (if Between(threads[i], http) then 1 else 0)
         == HowMany(threads, http) + (if Between(t, http) then 1 else 0)
  {
    var rest := threads[..|threads| - 1];
    if i < |rest| {
      HowManyUpdate(rest, i, t, http);
      assert threads[i := t][..|threads| - 1] == rest[i := t];
    } else {
      assert threads[i := t][..|threads| - 1] == rest;
    }
  }

  lemma HowManyMore(threads: seq<Thread>, t: Thread, http: bool)
    ensures HowMany(threads + [t], http) == HowMany(threads, http) + if Between(t, http) then 1 else 0
  {
    assert (threads + [t])[..|threads|] == threads;
  }

  /** How far the first metric is ahead of the second: requests counted of durations observed, or failed
    * attempts of failures. */
  ghost function Lead(c: Counters, h: Histograms, http: bool): int {
    if http then Total(FamilyOf(c, REQUESTS), false) - ObservationsOf(h, DURATIONS, map[])
    else Total(FamilyOf(c, ATTEMPTS), true) - Total(FamilyOf(c, FAILURES), false)
  }

  /** The lead is exactly the number of threads between their two steps. */
  ghost predicate Balanced(c: Counters, h: Histograms, threads: seq<Thread>) {
    && Lead(c, h, true) == HowMany(threads, true)
    && Lead(c, h, false) == HowMany(threads, false)
  }

  lemma KeptLead(c: Counters, d: Counters, h: Histograms, http: bool)
    requires AllKept(c, d)
    ensures Lead(c, h, http) == Lead(d, h, http)
  {
    hide Total, Kept;
    KeptTotal(FamilyOf(c, REQUESTS), FamilyOf(d, REQUESTS), false);
    KeptTotal(FamilyOf(c, ATTEMPTS), FamilyOf(d, ATTEMPTS), true);
    KeptTotal(FamilyOf(c, FAILURES), FamilyOf(d, FAILURES), false);
  }

  function Incremented(c: Counters, name: string, l: Labels): Counters
    requires Has(c, name, l)
  {
    c[name := c[name][l := c[name][l] + 1]]
  }

  lemma IncrementLead(c: Counters, h: Histograms, task: Task)
    requires Has(c, NameOf(task), LabelsOf(task))
    ensures forall http ::
              Lead(Incremented(c, NameOf(task), LabelsOf(task)), h, http)
              == Lead(c, h, http) + if Between(Thread(task, Counted), http) then 1 else 0
  {
    hide Total;
    IncrementTotal(c[NameOf(task)], LabelsOf(task), false);
    IncrementTotal(c[NameOf(task)], LabelsOf(task), true);
  }

  lemma FailureLead(c: Counters, h: Histograms)
    requires Has(c, FAILURES, map[])
    ensures Lead(Incremented(c, FAILURES, map[]), h, true) == Lead(c, h, true)
    ensures Lead(Incremented(c, FAILURES, map[]), h, false) == Lead(c, h, false) - 1
  {
    hide Total;
    IncrementTotal(c[FAILURES], map[], false);
  }

  /** What a step does: each lead changes with the thread's being between its steps, no count decreases,
    * and what threads found stays there. */
  ghost predicate StepsTo(c: Counters, h: Histograms, t: Thread, d: Counters, g: Histograms, t': Thread) {
    && Ready(t', d, g) && t' == Stepped(t)
    && (forall n, l :: CountOf(d, n, l) + Recorded(t, n, l) == CountOf(c, n, l) + Recorded(t', n, l))
    && multiset(ValuesOf(g, DURATIONS, map[])) + Observed(t) == multiset(ValuesOf(h, DURATIONS, map[])) + Observed(t')
    && (forall b :: AtMost(ValuesOf(g, DURATIONS, map[]), b) + Low(t, b)
                 == AtMost(ValuesOf(h, DURATIONS, map[]), b) + Low(t', b))
    && (Bucketed(h) ==> Bucketed(g))
    && (forall http :: Lead(d, g, http) - (if Between(t', http) then 1 else 0)
                    == Lead(c, h, http) - (if Between(t, http) then 1 else 0))
    && (forall x :: Ready(x, c, h) ==> Ready(x, d, g))
    && (forall n, l :: CountOf(c, n, l) <= CountOf(d, n, l))
  }

  lemma FindStep(c: Counters, h: Histograms, t: Thread, d: Counters, t': Thread)
    requires AllKept(c, d) && (forall n, k :: Has(c, n, k) ==> Has(d, n, k)) && Ready(t, c, h)
    requires if t.place == Begun then t' == t.(place := Found) && Has(d, NameOf(t.task), LabelsOf(t.task))
             else t.place == Counted && t.task.Auth? && t' == t.(place := Second) && Has(d, FAILURES, map[])
    ensures StepsTo(c, h, t, d, h, t')
  {
    hide Lead, Total, LabelsOf, NameOf;
    KeptLead(c, d, h, true);
    KeptLead(c, d, h, false);
    KeptCounts(c, d);
  }

  lemma KeptCounts(c: Counters, d: Counters)
    requires AllKept(c, d)
    ensures forall n, l :: CountOf(c, n, l) == CountOf(d, n, l)
  {
    forall n, l ensures CountOf(c, n, l) == CountOf(d, n, l) {
      assert Kept(FamilyOf(c, n), FamilyOf(d, n));
    }
  }

  lemma CountStep(c: Counters, h: Histograms, t: Thread, t': Thread)
    requires Ready(t, c, h) && t.place == Found
    requires t' == t.(place := if t.task.Http? || (t.task.Auth? && !t.task.success) then Counted else Finished)
    ensures StepsTo(c, h, t, Incremented(c, NameOf(t.task), LabelsOf(t.task)), h, t')
  {
    hide Lead, Total, Kept, FamilyOf, LabelsOf, NameOf;
    IncrementLead(c, h, t.task);
  }

  lemma FailStep(c: Counters, h: Histograms, t: Thread)
    requires Ready(t, c, h) && t.place == Second && !t.task.Http?
    ensures StepsTo(c, h, t, Incremented(c, FAILURES, map[]), h, t.(place := Finished))
  {
    hide Lead, Total, Kept, FamilyOf, LabelsOf, NameOf;
    FailureLead(c, h);
  }

  lemma DurationObserved(values: seq<real>, t: Thread, t': Thread)
    requires t.task.Http? && t'.task == t.task
    requires (t.place == Counted && t'.place == Second) || (t.place == Second && t'.place == Finished)
    ensures var values' := values + if t.place == Second then [t.task.duration] else [];
            && multiset(values') + Observed(t) == multiset(values) + Observed(t')
            && forall b :: AtMost(values', b) + Low(t, b) == AtMost(values, b) + Low(t', b)
  {
    hide AtMost;
    AtMostMore(values, t.task.duration);
    assert values + [] == values;
  }

  /** A step on the histograms. */
  lemma DurationStep(c: Counters, h: Histograms, t: Thread, g: Histograms, t': Thread)
    requires Ready(t, c, h) && t.task.Http? && t'.task == t.task
    requires ValuesOf(g, DURATIONS, map[])
          == ValuesOf(h, DURATIONS, map[]) + if t.place == Second then [t.task.duration] else []
    requires Bucketed(h) ==> Bucketed(g)
    requires forall n, k :: HasHistogram(h, n, k) ==> HasHistogram(g, n, k)
    requires HasHistogram(g, DURATIONS, map[])
    requires var more := ObservationsOf(g, DURATIONS, map[]) - ObservationsOf(h, DURATIONS, map[]);
             || (t.place == Counted && t'.place == Second && more == 0)
             || (t.place == Second && t'.place == Finished && more == 1)
    ensures StepsTo(c, h, t, c, g, t')
  {
    hide Total, ObservationsOf, ValuesOf, Bucketed, AtMost, Low, Observed;
    DurationObserved(ValuesOf(h, DURATIONS, map[]), t, t');
  }

  /** Takes one step of a thread. */
  method Advance(r: Registry, t: Thread) returns (t': Thread)
    requires r.Valid() && Ready(t, r.counters, r.histograms)
    modifies r
    ensures r.Valid() && StepsTo(old(r.counters), old(r.histograms), t, r.counters, r.histograms, t')
  {
    hide StepsTo, AllKept, Total, Lead;
    ghost var c, h := r.counters, r.histograms;
    var name, l := NameOf(t.task), LabelsOf(t.task);
    match t.place {
      case Begun =>
        t' := t.(place := Found);
        r.GetCounter(name, l);
        FindStep(c, h, t, r.counters, t');
      case Found =>
        t' := t.(place := if t.task.Http? || (t.task.Auth? && !t.task.success) then Counted else Finished);
        r.Increment(name, l);
        CountStep(c, h, t, t');
      case Counted =>
        t' := t.(place := Second);
        if t.task.Http? {
          r.GetHistogram(DURATIONS, DURATION_BUCKETS, map[]);
          DurationStep(c, h, t, r.histograms, t');
        } else {
          r.GetCounter(FAILURES, map[]);
          FindStep(c, h, t, r.counters, t');
        }
      case Second =>
        t' := t.(place := Finished);
        if t.task.Http? {
          r.Observe(DURATIONS, map[], t.task.duration);
          DurationStep(c, h, t, r.histograms, t');
        } else {
          r.Increment(FAILURES, map[]);
          FailStep(c, h, t);
        }
      case Finished =>
        t' := t;
        Idle(c, h, t);
    }
  }

  lemma Idle(c: Counters, h: Histograms, t: Thread)
    requires Ready(t, c, h) && t.place == Finished
    ensures StepsTo(c, h, t, c, h, t)
  {
  }

  /** All threads found what they need, and the leads are the threads between their steps. */
  ghost predicate Sound(c: Counters, h: Histograms, threads: seq<Thread>) {
    && Balanced(c, h, threads) && Exact(c, h, threads)
    && forall i :: 0 <= i < |threads| ==> Ready(threads[i], c, h)
  }

  lemma StepSound(c: Counters, h: Histograms, threads: seq<Thread>, i: nat, d: Counters, g: Histograms, t': Thread)
    requires Sound(c, h, threads) && i < |threads| && StepsTo(c, h, threads[i], d, g, t')
    ensures Sound(d, g, threads[i := t'])
  {
    hide Lead, Ready, Between, CountOf, ValuesOf, Recorded, Observed, AtMost, Low, LowBy, Bucketed;
    HowManyUpdate(threads, i, t', true);
    HowManyUpdate(threads, i, t', false);
    ObservedUpdate(threads, i, t');
    forall b ensures AtMost(ValuesOf(g, DURATIONS, map[]), b) == LowBy(threads[i := t'], b) {
      LowUpdate(threads, i, t', b);
    }
    forall n, l ensures CountOf(d, n, l) == RecordedBy(threads[i := t'], n, l) {
      RecordedUpdate(threads, i, t', n, l);
    }
    Cancel(multiset(ValuesOf(g, DURATIONS, map[])), ObservedBy(threads[i := t']), Observed(threads[i]));
  }

  lemma SpawnSound(c: Counters, h: Histograms, threads: seq<Thread>, task: Task)
    requires Sound(c, h, threads)
    ensures Sound(c, h, threads + [Thread(task, Begun)])
  {
    hide Lead, CountOf, ValuesOf, RecordedBy, ObservedBy, LowBy, AtMost, HowMany, Bucketed;
    HowManyMore(threads, Thread(task, Begun), true);
    HowManyMore(threads, Thread(task, Begun), false);
    hide Ready;
    NewThread(threads, task);
    NewReady(task, c, h);
  }

  lemma NewReady(task: Task, c: Counters, h: Histograms)
    ensures Ready(Thread(task, Begun), c, h)
  {
  }

  lemma InitSound(c: Counters, h: Histograms, threads: seq<Thread>, d: Counters, g: Histograms)
    requires Sound(c, h, threads) && AllKept(c, d)
    requires forall n, k :: Has(c, n, k) ==> Has(d, n, k)
    requires forall n, k :: HasHistogram(h, n, k) ==> HasHistogram(g, n, k)
    requires forall n, k :: ObservationsOf(g, n, k) == ObservationsOf(h, n, k)
    requires forall n, k :: ValuesOf(g, n, k) == ValuesOf(h, n, k)
    requires Bucketed(h) ==> Bucketed(g)
    ensures Sound(d, g, threads)
  {
    hide Lead, Total, LabelsOf, NameOf;
    KeptLead(c, d, h, true);
    KeptLead(c, d, h, false);
    KeptCounts(c, d);
    ObservedLead(d, h, g);
  }

  lemma ObservedLead(c: Counters, h: Histograms, g: Histograms)
    requires ObservationsOf(g, DURATIONS, map[]) == ObservationsOf(h, DURATIONS, map[])
    ensures forall http :: Lead(c, g, http) == Lead(c, h, http)
  {
  }

  lemma StartSound()
    ensures Sound(map[], map[], [])
  {
    assert Picked(map[], false) == {} && Picked(map[], true) == {};
  }

  datatype Event = Spawn(task: Task) | Go(who: nat) | Initialise

  /** The threads after a schedule: each event spawns a thread, or lets one take its next step. */
  function ThreadsAfter(schedule: seq<Event>): seq<Thread> {
    if schedule == [] then []
    else
      var n := |schedule| - 1;
      var threads := ThreadsAfter(schedule[..n]);
      match schedule[n]
      case Spawn(task) => threads + [Thread(task, Begun)]
      case Go(who) => if who < |threads| then threads[who := Stepped(threads[who])] else threads
      case Initialise => threads
  }

  /** The tasks that a schedule spawns, in order. */
  function Spawned(schedule: seq<Event>): seq<Task> {
    if schedule == [] then []
    else
      var n := |schedule| - 1;
      Spawned(schedule[..n]) + if schedule[n].Spawn? then [schedule[n].task] else []
  }

  lemma {:induction false} TasksInOrder(schedule: seq<Event>)
    ensures |ThreadsAfter(schedule)| == |Spawned(schedule)|
    ensures forall i :: 0 <= i < |Spawned(schedule)| ==> ThreadsAfter(schedule)[i].task == Spawned(schedule)[i]
  {
    if schedule != [] {
      TasksInOrder(schedule[..|schedule| - 1]);
    }
  }

  /** Whatever threads come, and in whatever order they take their steps, and whenever the registry is
    * initialized: every counter is exactly the number of times that threads recorded it, the durations
    * observed are exactly those of the threads that observed them, the requests counted exceed the
    * durations observed by exactly the threads between these two steps, and likewise failed attempts and
    * failures. */
  method Run(schedule: seq<Event>) returns (r: Registry, threads: seq<Thread>)
    ensures r.Valid() && Sound(r.counters, r.histograms, threads) && threads == ThreadsAfter(schedule)
    ensures forall n, l :: CountOf(r.counters, n, l) == RecordedBy(threads, n, l)
    ensures multiset(ValuesOf(r.histograms, DURATIONS, map[])) == ObservedBy(threads)
    ensures Bucketed(r.histograms)
    ensures forall b :: AtMost(ValuesOf(r.histograms, DURATIONS, map[]), b) == LowBy(threads, b)
    ensures (forall i :: 0 <= i < |threads| ==> threads[i].place == Finished) ==>
              && Total(FamilyOf(r.counters, REQUESTS), false) == ObservationsOf(r.histograms, DURATIONS, map[])
              && Total(FamilyOf(r.counters, ATTEMPTS), true) == Total(FamilyOf(r.counters, FAILURES), false)
  {
    hide Sound, StepsTo, AllKept, Stepped, CountOf, ValuesOf, Bucketed, AtMost;
    r := new Registry();
    threads := [];
    StartSound();
    var n := 0;
    while n < |schedule|
      invariant n <= |schedule| && r.Valid() && Sound(r.counters, r.histograms, threads) && fresh(r)
      invariant threads == ThreadsAfter(schedule[..n])
    {
      assert schedule[..n + 1][..n] == schedule[..n];
      match schedule[n] {
        case Spawn(task) =>
          SpawnSound(r.counters, r.histograms, threads, task);
          threads := threads + [Thread(task, Begun)];
        case Go(who) =>
          if who < |threads| {
            SoundReady(r.counters, r.histograms, threads, who);
            ghost var c, h := r.counters, r.histograms;
            var t := Advance(r, threads[who]);
            StepTaken(c, h, threads[who], r.counters, r.histograms, t);
            StepSound(c, h, threads, who, r.counters, r.histograms, t);
            threads := threads[who := t];
          }
        case Initialise =>
          ghost var c, h := r.counters, r.histograms;
          r.Initialize();
          InitSound(c, h, threads, r.counters, r.histograms);
      }
      n := n + 1;
    }
    assert schedule[..n] == schedule;
    SoundExact(r.counters, r.histograms, threads);
    AllDone(r.counters, r.histograms, threads);
  }

  /** The duration histogram as it is formatted, once a thread or the initialization has made it: ten
    * counts, each of the threads that have observed a duration of at most that bound. */
  method Scrape(r: Registry, threads: seq<Thread>) returns (counts: seq<nat>)
    requires r.Valid() && Sound(r.counters, r.histograms, threads)
    requires HasHistogram(r.histograms, "http_request_duration_seconds", map[])
    ensures |counts| == 10
    ensures forall i :: 0 <= i < 10 ==>
              counts[i] == LowBy(threads, [0.01, 0.025, 0.05, 0.1, 0.25, 0.5, 1.0, 2.5, 5.0, 10.0][i])
  {
    hide AtMost, LowBy;
    counts := r.histograms["http_request_duration_seconds"][map[]].BucketCounts();
    SoundExact(r.counters, r.histograms, threads);
  }

  lemma StepTaken(c: Counters, h: Histograms, t: Thread, d: Counters, g: Histograms, t': Thread)
    requires StepsTo(c, h, t, d, g, t')
    ensures t' == Stepped(t)
  {
  }

  lemma SoundExact(c: Counters, h: Histograms, threads: seq<Thread>)
    requires Sound(c, h, threads)
    ensures Exact(c, h, threads)
  {
  }

  lemma SoundReady(c: Counters, h: Histograms, threads: seq<Thread>, i: nat)
    requires Sound(c, h, threads) && i < |threads|
    ensures Ready(threads[i], c, h)
  {
  }

  lemma {:induction false} NobodyBetween(threads: seq<Thread>, http: bool)
    requires forall i :: 0 <= i < |threads| ==> threads[i].place == Finished
    ensures HowMany(threads, http) == 0
  {
    if threads != [] {
      NobodyBetween(threads[..|threads| - 1], http);
    }
  }

  lemma AllDone(c: Counters, h: Histograms, threads: seq<Thread>)
    requires Sound(c, h, threads)
    ensures (forall i :: 0 <= i < |threads| ==> threads[i].place == Finished) ==>
              && Total(FamilyOf(c, REQUESTS), false) == ObservationsOf(h, DURATIONS, map[])
              && Total(FamilyOf(c, ATTEMPTS), true) == Total(FamilyOf(c, FAILURES), false)
  {
    hide Total;
    if forall i :: 0 <= i < |threads| ==> threads[i].place == Finished {
      NobodyBetween(threads, true);
      NobodyBetween(threads, false);
    }
  }
}
