/** Keyed sums: SQL `GROUP BY key` with `SUM(value)`, the `defaultdict(int)`
    accumulation loops, and the key-wise merge of two dictionaries with a
    missing key counting as 0. */
module Grouping {

  /** `d.get(k, 0)`. */
  function Get(m: map<string, int>, k: string): int {
    if k in m then m[k] else 0
  }

  /** The keys occurring in a sequence of (key, value) rows. */
  function KeysOf(rows: seq<(string, int)>): (ks: set<string>)
    ensures forall k :: k in ks <==> exists i :: 0 <= i < |rows| && rows[i].0 == k
  {
    set i | 0 <= i < |rows| :: rows[i].0
  }

  /** `SUM(value)` over the rows whose key is `k`. */
  function SumFor(rows: seq<(string, int)>, k: string): int {
    if rows == [] then 0
    else
      var last := rows[|rows| - 1];
      SumFor(rows[..|rows| - 1], k) + (if last.0 == k then last.1 else 0)
  }

  lemma {:induction false} SumForAbsent(rows: seq<(string, int)>, k: string)
    requires forall i :: 0 <= i < |rows| ==> rows[i].0 != k
    ensures SumFor(rows, k) == 0
  {
    if rows != [] {
      SumForAbsent(rows[..|rows| - 1], k);
    }
  }

  /** Each value is at most its group's sum when all values are non-negative. */
  lemma {:induction false} SumForNonNegative(rows: seq<(string, int)>, k: string)
    requires forall i :: 0 <= i < |rows| ==> rows[i].1 >= 0
    ensures SumFor(rows, k) >= 0
  {
    if rows != [] {
      SumForNonNegative(rows[..|rows| - 1], k);
    }
  }

  /** `SELECT key, SUM(value) ... GROUP BY key`: one entry per key present. */
  function GroupSum(rows: seq<(string, int)>): (m: map<string, int>)
    ensures m.Keys == KeysOf(rows)
    ensures forall k :: Get(m, k) == SumFor(rows, k)
  {
    var m := map k | k in KeysOf(rows) :: SumFor(rows, k);
    forall k | k !in KeysOf(rows)
      ensures SumFor(rows, k) == 0
    {
      SumForAbsent(rows, k);
    }
    m
  }

  /** One more row adds its value to its own key's group and to no other. */
  lemma GroupSumSnoc(rows: seq<(string, int)>, row: (string, int))
    ensures Get(GroupSum(rows + [row]), row.0) == Get(GroupSum(rows), row.0) + row.1
    ensures forall k :: k != row.0 ==> Get(GroupSum(rows + [row]), k) == Get(GroupSum(rows), k)
    ensures GroupSum(rows + [row]).Keys == GroupSum(rows).Keys + {row.0}
  {
    assert (rows + [row])[..|rows|] == rows;
  }

  /** `totals[k] += v` for each row, starting from an empty `defaultdict(int)`. */
  method Accumulate(rows: seq<(string, int)>) returns (totals: map<string, int>)
    ensures totals == GroupSum(rows)
  {
    totals := map[];
    for i := 0 to |rows|
      invariant totals == GroupSum(rows[..i])
    {
      assert rows[..i + 1] == rows[..i] + [rows[i]];
      AddRow(totals, rows[..i], rows[i]);
      totals := totals[rows[i].0 := Get(totals, rows[i].0) + rows[i].1];
    }
    assert rows[..|rows|] == rows;
  }

  /** One step of the accumulation loop keeps the totals equal to the
      grouped sums of the rows seen so far. */
  lemma AddRow(totals: map<string, int>, rows: seq<(string, int)>, row: (string, int))
    requires totals == GroupSum(rows)
    ensures totals[row.0 := Get(totals, row.0) + row.1] == GroupSum(rows + [row])
  {
    GroupSumSnoc(rows, row);
    var next := totals[row.0 := Get(totals, row.0) + row.1];
    assert forall k :: Get(next, k) == Get(GroupSum(rows + [row]), k);
    MapsAgree(next, GroupSum(rows + [row]));
  }

  /** `{k: a.get(k, 0) ± b.get(k, 0) for k in set(a) | set(b)}`: the key-wise
      sum (or difference, when `negate`) over the union of the keys. */
  function Combine(a: map<string, int>, b: map<string, int>, negate: bool): (r: map<string, int>)
    ensures r.Keys == a.Keys + b.Keys
    ensures forall k :: Get(r, k) == Get(a, k) + (if negate then -Get(b, k) else Get(b, k))
  {
    map k | k in a.Keys + b.Keys :: Get(a, k) + (if negate then -Get(b, k) else Get(b, k))
  }

  /** Merging an empty dictionary changes nothing, and merging into an empty
      dictionary gives the other one (negated when subtracting). */
  lemma CombineEmpty(a: map<string, int>)
    ensures Combine(a, map[], false) == a && Combine(a, map[], true) == a
    ensures Combine(map[], a, false) == a
  {
  }

  /** Adding key-wise is associative: totals built month by month agree
      with the sum of the monthly maps in any grouping. */
  lemma CombineAssociative(a: map<string, int>, b: map<string, int>, c: map<string, int>)
    ensures Combine(Combine(a, b, false), c, false) == Combine(a, Combine(b, c, false), false)
  {
  }

  /** `for k, v in m.items(): acc[k] = acc.get(k, 0) ± v`, in any key order. */
  method MergeInto(acc: map<string, int>, m: map<string, int>, negate: bool) returns (r: map<string, int>)
    ensures r == Combine(acc, m, negate)
  {
    r := acc;
    var rest := m.Keys;
    while rest != {}
      invariant rest <= m.Keys
      invariant r.Keys == acc.Keys + (m.Keys - rest)
      invariant forall k :: k in r ==>
        r[k] == Get(acc, k) + (if k in rest then 0 else if negate then -Get(m, k) else Get(m, k))
      decreases rest
    {
      var k :| k in rest;
      r := r[k := Get(r, k) + (if negate then -m[k] else m[k])];
      rest := rest - {k};
    }
    assert forall k :: k in r ==> r[k] == Combine(acc, m, negate)[k];
  }

  /** The key-wise sum of a sequence of maps, folded left from `{}` as the
      yearly totals are built month by month. */
  function TotalOver(ms: seq<map<string, int>>): map<string, int> {
    if ms == [] then map[] else Combine(TotalOver(ms[..|ms| - 1]), ms[|ms| - 1], false)
  }

  /** `sum(m.get(k, 0) for m in ms)`. */
  function SumAt(ms: seq<map<string, int>>, k: string): int {
    if ms == [] then 0 else SumAt(ms[..|ms| - 1], k) + Get(ms[|ms| - 1], k)
  }

  /** The folded total holds, for every key, the sum of that key over all the
      maps, and has exactly the keys that occur in one of them. */
  lemma {:induction false} TotalOverIsSum(ms: seq<map<string, int>>, k: string)
    ensures Get(TotalOver(ms), k) == SumAt(ms, k)
    ensures k in TotalOver(ms) <==> exists i :: 0 <= i < |ms| && k in ms[i]
  {
    if ms != [] {
      var pre := ms[..|ms| - 1];
      TotalOverIsSum(pre, k);
      assert forall i :: 0 <= i < |pre| ==> pre[i] == ms[i];
    }
  }

  /** The key-wise differences of two sequences of maps. */
  function Diffs(a: seq<map<string, int>>, b: seq<map<string, int>>): (d: seq<map<string, int>>)
    requires |a| == |b|
    ensures |d| == |a| && forall i :: 0 <= i < |a| ==> d[i] == Combine(a[i], b[i], true)
  {
    seq(|a|, i requires 0 <= i < |a| => Combine(a[i], b[i], true))
  }

  /** Maps with the same keys and the same `get` values are equal. */
  lemma MapsAgree(m1: map<string, int>, m2: map<string, int>)
    requires m1.Keys == m2.Keys
    requires forall k :: Get(m1, k) == Get(m2, k)
    ensures m1 == m2
  {
    assert forall k :: k in m1 ==> m1[k] == Get(m1, k) == Get(m2, k) == m2[k];
  }

  /** Subtracting two merged maps is merging the two differences. */
  lemma CombineInterchange(p: map<string, int>, q: map<string, int>, r: map<string, int>, s: map<string, int>)
    ensures Combine(Combine(p, q, false), Combine(r, s, false), true)
         == Combine(Combine(p, r, true), Combine(q, s, true), false)
  {
    MapsAgree(Combine(Combine(p, q, false), Combine(r, s, false), true),
              Combine(Combine(p, r, true), Combine(q, s, true), false));
  }

  /** The difference of the totals is the total of the differences. */
  lemma {:induction false} TotalOfDiffs(a: seq<map<string, int>>, b: seq<map<string, int>>)
    requires |a| == |b|
    ensures Combine(TotalOver(a), TotalOver(b), true) == TotalOver(Diffs(a, b))
  {
    if a == [] {
      CombineEmpty(map[]);
    } else {
      var n := |a| - 1;
      TotalOfDiffs(a[..n], b[..n]);
      var d := Diffs(a, b);
      assert d[..n] == Diffs(a[..n], b[..n]);
      assert TotalOver(d) == Combine(TotalOver(d[..n]), d[n], false);
      CombineInterchange(TotalOver(a[..n]), a[n], TotalOver(b[..n]), b[n]);
    }
  }
}
