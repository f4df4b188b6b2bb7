/** The two query shapes the handlers use on a table whose ids lie in
    `[lo, hi)`: `filter_by(...).first()` and `filter_by(...).all()`, both in
    ascending id order. */
module Query {
  import opened Base

  /** The smallest id in `[lo, hi)` whose row satisfies `p`. */
  function FirstKey<V>(m: map<int, V>, p: V -> bool, lo: int, hi: int): (r: Option<int>)
    ensures r.Some? ==> lo <= r.value < hi && r.value in m && p(m[r.value])
    ensures r.Some? ==> forall k :: lo <= k < r.value && k in m ==> !p(m[k])
    ensures r.None? ==> forall k :: lo <= k < hi && k in m ==> !p(m[k])
    decreases hi - lo
  {
    if lo >= hi then None
    else if lo in m && p(m[lo]) then Some(lo)
    else FirstKey(m, p, lo + 1, hi)
  }

  /** Every id in `[lo, hi)` whose row satisfies `p`, each once, in ascending order. */
  function KeysWhere<V>(m: map<int, V>, p: V -> bool, lo: int, hi: int): (ks: seq<int>)
    ensures forall i :: 0 <= i < |ks| ==> lo <= ks[i] < hi && ks[i] in m && p(m[ks[i]])
    ensures forall k :: lo <= k < hi && k in m && p(m[k]) ==> k in ks
    ensures forall i, j :: 0 <= i < j < |ks| ==> ks[i] < ks[j]
    decreases hi - lo
  {
    if lo >= hi then []
    else KeysWhere(m, p, lo, hi - 1) + (if hi - 1 in m && p(m[hi - 1]) then [hi - 1] else [])
  }

  /** Two tables that select the same ids in `[lo, hi)` give the same query result. */
  lemma {:induction false} KeysWhereFrame<V>(m1: map<int, V>, p1: V -> bool, m2: map<int, V>, p2: V -> bool, lo: int, hi: int)
    requires forall k :: lo <= k < hi ==> ((k in m1 && p1(m1[k])) <==> (k in m2 && p2(m2[k])))
    ensures KeysWhere(m1, p1, lo, hi) == KeysWhere(m2, p2, lo, hi)
    decreases hi - lo
  {
    if lo < hi {
      KeysWhereFrame(m1, p1, m2, p2, lo, hi - 1);
    }
  }

  /** The ids of `s` from last to first. */
  function Backwards(s: seq<int>): (r: seq<int>)
    ensures |r| == |s|
    ensures forall i :: 0 <= i < |s| ==> r[i] == s[|s| - 1 - i]
    ensures forall k :: k in r <==> k in s
  {
    var r := seq(|s|, i requires 0 <= i < |s| => s[|s| - 1 - i]);
    assert forall k :: k in s ==> k in r by {
      forall k | k in s ensures k in r {
        var i :| 0 <= i < |s| && s[i] == k;
        assert r[|s| - 1 - i] == k;
      }
    }
    r
  }
}
