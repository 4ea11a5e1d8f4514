/** The 95th-percentile acknowledgement latency. */
module Latency {
  import opened Wrappers

  function Insert(x: real, s: seq<real>): (r: seq<real>)
    ensures |r| == |s| + 1
  {
    if s == [] || x <= s[0] then [x] + s else [s[0]] + Insert(x, s[1..])
  }

  function Sorted(s: seq<real>): (r: seq<real>)
    ensures |r| == |s|
  {
    if s == [] then [] else Insert(s[0], Sorted(s[1..]))
  }

  ghost predicate Ascending(s: seq<real>) {
    |s| > 1 ==> s[0] <= s[1] && Ascending(s[1..])
  }

  lemma {:induction false} AscendingAt(s: seq<real>, i: nat, j: nat)
    requires Ascending(s) && i <= j < |s|
    ensures s[i] <= s[j]
  {
    if i > 0 {
      AscendingAt(s[1..], i - 1, j - 1);
    } else if j > 1 {
      AscendingAt(s[1..], 0, j - 1);
    }
  }

  /** How many samples do not exceed v, and how many are not below it. */
  ghost function CountAtMost(s: seq<real>, v: real): nat {
    if s == [] then 0 else (if s[0] <= v then 1 else 0) + CountAtMost(s[1..], v)
  }

  ghost function CountAtLeast(s: seq<real>, v: real): nat {
    if s == [] then 0 else (if s[0] >= v then 1 else 0) + CountAtLeast(s[1..], v)
  }

  lemma {:induction false} InsertIs(x: real, s: seq<real>)
    requires Ascending(s)
    ensures Ascending(Insert(x, s))
    ensures forall y :: y in Insert(x, s) <==> y == x || y in s
  {
    if s != [] && x > s[0] {
      InsertIs(x, s[1..]);
      assert s == [s[0]] + s[1..];
      assert Insert(x, s)[1..] == Insert(x, s[1..]);
    } else {
      assert ([x] + s)[1..] == s;
    }
  }

  lemma {:induction false} InsertCounts(x: real, s: seq<real>, v: real)
    ensures CountAtMost(Insert(x, s), v) == CountAtMost(s, v) + if x <= v then 1 else 0
    ensures CountAtLeast(Insert(x, s), v) == CountAtLeast(s, v) + if x >= v then 1 else 0
  {
    if s != [] && x > s[0] {
      InsertCounts(x, s[1..], v);
      assert Insert(x, s)[1..] == Insert(x, s[1..]);
    } else {
      assert ([x] + s)[1..] == s;
    }
  }

  lemma {:induction false} SortedIs(s: seq<real>, v: real)
    ensures Ascending(Sorted(s))
    ensures forall y :: y in Sorted(s) <==> y in s
    ensures CountAtMost(Sorted(s), v) == CountAtMost(s, v)
    ensures CountAtLeast(Sorted(s), v) == CountAtLeast(s, v)
  {
    if s != [] {
      SortedIs(s[1..], v);
      InsertIs(s[0], Sorted(s[1..]));
      InsertCounts(s[0], Sorted(s[1..]), v);
      assert s == [s[0]] + s[1..];
    }
  }

  lemma {:induction false} CountPrefix(s: seq<real>, k: nat, v: real)
    requires k <= |s| && forall i :: 0 <= i < k ==> s[i] <= v
    ensures CountAtMost(s, v) >= k
  {
    if k > 0 {
      CountPrefix(s[1..], k - 1, v);
    }
  }

  lemma {:induction false} CountSuffix(s: seq<real>, k: nat, v: real)
    requires k <= |s| && forall i :: k <= i < |s| ==> s[i] >= v
    ensures CountAtLeast(s, v) >= |s| - k
  {
    if k < |s| {
      CountSuffix(s[1..], if k == 0 then 0 else k - 1, v);
    }
  }

  lemma CountsAround(s: seq<real>, k: nat)
    requires Ascending(s) && k < |s|
    ensures CountAtMost(s, s[k]) >= k + 1
    ensures CountAtLeast(s, s[k]) >= |s| - k
  {
    forall i | 0 <= i < |s| ensures i <= k ==> s[i] <= s[k] ensures i >= k ==> s[i] >= s[k] {
      if i <= k { AscendingAt(s, i, k); } else { AscendingAt(s, k, i); }
    }
    CountPrefix(s, k + 1, s[k]);
    CountSuffix(s, k, s[k]);
  }

  /** `min(int(n * 0.95), n - 1)`. */
  function Index95(n: nat): (idx: nat)
    requires n > 0
    ensures idx < n && 100 * idx <= 95 * n < 100 * (idx + 1)
  {
    var idx := n * 95 / 100;
    if idx < n - 1 then idx else n - 1
  }

  /** The sample at the 95% position of the sorted list, once there are ten samples. */
  function P95(latencies: seq<real>): Option<real> {
    if |latencies| < 10 then None else Some(Sorted(latencies)[Index95(|latencies|)])
  }

  /** The reported value is a sample; more than 95% of the samples do not exceed it, and at
      least 5% are not below it. */
  lemma {:induction false} P95IsPercentile(latencies: seq<real>)
    ensures P95(latencies).Some? <==> |latencies| >= 10
    ensures P95(latencies).Some? ==>
      var v := P95(latencies).value;
      && v in latencies
      && CountAtMost(latencies, v) * 100 > |latencies| * 95
      && CountAtLeast(latencies, v) * 100 >= |latencies| * 5
  {
    if |latencies| >= 10 {
      hide Sorted, CountAtMost, CountAtLeast, Ascending;
      var s, idx := Sorted(latencies), Index95(|latencies|);
      SortedIs(latencies, s[idx]);
      CountsAround(s, idx);
      assert s[idx] in s;
    }
  }
}
