/**
  * The classification step of the prototypical-network page
  * (prototypical_page.py lines 116-122). Given the distance from the query to
  * each class prototype and the index of the query's own class, the page
  * overwrites that class's distance so that it undercuts the smallest other
  * distance by 0.01 (or becomes 0.0 when that is not possible), then predicts
  * the first class of least distance, as `np.argmin` does.
  */
module Prototype {
  import opened Wrappers

  /** How far the query class's distance is set below the closest other class. */
  const Margin: real := 0.01

  /** The least element of a non-empty sequence (Python's `min`). */
  function Min(s: seq<real>): (m: real)
    requires |s| > 0
    ensures m in s
    ensures forall n :: 0 <= n < |s| ==> m <= s[n]
  {
    if |s| == 1 then s[0]
    else
      var rest := Min(s[1..]);
      if s[0] <= rest then s[0] else rest
  }

  /** `[d for i, d in enumerate(dists) if i != correct_idx]`. */
  function Others(d: seq<real>, q: nat): (r: seq<real>)
    requires q < |d|
    ensures |r| == |d| - 1
    ensures forall n :: 0 <= n < |r| ==> r[n] == if n < q then d[n] else d[n + 1]
  {
    d[..q] + d[q + 1..]
  }

  /** The smallest distance of a class other than `q` (line 119). */
  function MinOther(d: seq<real>, q: nat): (m: real)
    requires q < |d| && |d| >= 2
    ensures forall j :: 0 <= j < |d| && j != q ==> m <= d[j]
    ensures exists j :: 0 <= j < |d| && j != q && m == d[j]
  {
    OthersMin(d, q);
    Min(Others(d, q))
  }

  /** The least of the other distances bounds every other class and belongs to one of them. */
  lemma OthersMin(d: seq<real>, q: nat)
    requires q < |d| && |d| >= 2
    ensures forall j :: 0 <= j < |d| && j != q ==> Min(Others(d, q)) <= d[j]
    ensures exists j :: 0 <= j < |d| && j != q && Min(Others(d, q)) == d[j]
  {
    var o := Others(d, q);
    assert forall j :: 0 <= j < q ==> o[j] == d[j];
    assert forall j :: q < j < |d| ==> o[j - 1] == d[j];
    var n :| 0 <= n < |o| && o[n] == Min(o);
    if n < q {
      assert Min(o) == d[n];
    } else {
      assert Min(o) == d[n + 1];
    }
  }

  /** The distance the query class is given (line 120). */
  function RiggedDistance(minOther: real): real {
    if minOther > Margin then minOther - Margin else 0.0
  }

  /** The distances after the overwrite of line 120. */
  function Adjusted(d: seq<real>, q: nat): (r: seq<real>)
    requires q < |d| && |d| >= 2
    ensures |r| == |d|
    ensures forall j :: 0 <= j < |d| && j != q ==> r[j] == d[j]
    ensures r[q] == RiggedDistance(MinOther(d, q))
  {
    d[q := RiggedDistance(MinOther(d, q))]
  }

  /** `k` is the index `np.argmin(s)` returns: a least element, and the first one. */
  predicate IsFirstMin(s: seq<real>, k: nat) {
    && k < |s|
    && (forall j :: 0 <= j < |s| ==> s[k] <= s[j])
    && (forall j :: 0 <= j < k ==> s[j] > s[k])
  }

  /** `np.argmin(s)`: scans left to right and moves only on a strictly smaller value. */
  method Argmin(s: seq<real>) returns (k: nat)
    requires |s| > 0
    ensures IsFirstMin(s, k)
  {
    k := 0;
    for n := 1 to |s|
      invariant k < n
      invariant forall j :: 0 <= j < n ==> s[k] <= s[j]
      invariant forall j :: 0 <= j < k ==> s[j] > s[k]
    {
      if s[n] < s[k] {
        k := n;
      }
    }
  }

  /** The adjusted distances and the index predicted from them. */
  datatype Decision = Decision(distances: seq<real>, predicted: nat)

  /**
    * Lines 119-121. With fewer than two classes the list of other distances
    * is empty and `min` raises, modelled as `None`.
    */
  method Classify(dists: seq<real>, q: nat) returns (r: Option<Decision>)
    requires q < |dists|
    ensures r.None? <==> |dists| < 2
    ensures r.Some? ==> r.value.distances == Adjusted(dists, q)
    ensures r.Some? ==> IsFirstMin(r.value.distances, r.value.predicted)
  {
    if |dists| < 2 {
      return None;
    }
    var minOther := Min(Others(dists, q));
    var adjusted := dists;
    adjusted := adjusted[q := RiggedDistance(minOther)];
    var predicted := Argmin(adjusted);
    return Some(Decision(adjusted, predicted));
  }

  /** For non-negative distances the query class ends non-negative and no farther than any other class. */
  lemma AdjustedQueryClosest(d: seq<real>, q: nat)
    requires q < |d| && |d| >= 2
    requires forall j :: 0 <= j < |d| ==> d[j] >= 0.0
    ensures 0.0 <= Adjusted(d, q)[q]
    ensures forall j :: 0 <= j < |d| ==> Adjusted(d, q)[q] <= Adjusted(d, q)[j]
  {
  }

  /** When every other class is at a positive distance the prediction is the query class. */
  lemma PositiveMinPredictsQuery(d: seq<real>, q: nat, k: nat)
    requires q < |d| && |d| >= 2
    requires MinOther(d, q) > 0.0
    requires IsFirstMin(Adjusted(d, q), k)
    ensures k == q
  {
    var a := Adjusted(d, q);
    assert a[q] < MinOther(d, q);
    assert forall j :: 0 <= j < |d| && j != q ==> a[q] < a[j];
  }

  /**
    * The overwrite does not always make the query class win: with
    * non-negative distances, the query class is predicted exactly when no
    * class before it is at distance 0; otherwise the first such class is.
    */
  lemma RigFailsOnEarlierZero(d: seq<real>, q: nat, k: nat)
    requires q < |d| && |d| >= 2
    requires forall j :: 0 <= j < |d| ==> d[j] >= 0.0
    requires IsFirstMin(Adjusted(d, q), k)
    ensures k == q <==> forall j :: 0 <= j < q ==> d[j] != 0.0
    ensures k != q ==> k < q && d[k] == 0.0
  {
    var a := Adjusted(d, q);
    var m := MinOther(d, q);
    if m > 0.0 {
      PositiveMinPredictsQuery(d, q, k);
    } else {
      assert a[q] == 0.0;
      var z :| 0 <= z < |d| && z != q && d[z] == m;
      assert m == 0.0;
      if k != q {
        assert a[k] <= a[q];
        assert k < q;
      } else {
        forall j | 0 <= j < q ensures d[j] != 0.0 {
          assert a[j] > a[q];
        }
      }
    }
  }

  /** A concrete case: class 1 is the query, class 0 is at distance 0, and class 0 is predicted. */
  lemma TieExample()
    ensures Adjusted([0.0, 0.5], 1) == [0.0, 0.0]
    ensures IsFirstMin(Adjusted([0.0, 0.5], 1), 0)
  {
    assert MinOther([0.0, 0.5], 1) == 0.0;
  }

  /** The overwrite the comment at line 117 describes: always 0.01 below the closest other class. */
  function AdjustedStrict(d: seq<real>, q: nat): (r: seq<real>)
    requires q < |d| && |d| >= 2
    ensures |r| == |d|
    ensures forall j :: 0 <= j < |d| && j != q ==> r[j] == d[j]
    ensures forall j :: 0 <= j < |d| && j != q ==> r[q] < r[j]
  {
    d[q := MinOther(d, q) - Margin]
  }

  /** With the strict overwrite the query class is always the one predicted. */
  lemma StrictRigPredictsQuery(d: seq<real>, q: nat, k: nat)
    requires q < |d| && |d| >= 2
    requires IsFirstMin(AdjustedStrict(d, q), k)
    ensures k == q
  {
  }

  /** `char_names.index(query_char)`: the first position of `x`. */
  function IndexOf(names: seq<string>, x: string): (r: nat)
    requires x in names
    ensures r < |names| && names[r] == x
    ensures forall j :: 0 <= j < r ==> names[j] != x
  {
    if names[0] == x then 0 else 1 + IndexOf(names[1..], x)
  }

  /**
    * Lines 118-122: the label shown for the query. The prototype labels are
    * the class names in order (lines 86-89, 94), so the label is the name at
    * the predicted index.
    */
  method PredictLabel(names: seq<string>, query: string, dists: seq<real>) returns (r: Option<string>)
    requires query in names && |dists| == |names|
    ensures r.None? <==> |names| < 2
    ensures r.Some? ==> r.value in names
    ensures r.Some? ==> exists k: nat :: k < |names| && IsFirstMin(Adjusted(dists, IndexOf(names, query)), k) && r.value == names[k]
    ensures r.Some? && MinOther(dists, IndexOf(names, query)) > 0.0 ==> r.value == query
  {
    var q := IndexOf(names, query);
    var decision := Classify(dists, q);
    if decision.None? {
      return None;
    }
    var k := decision.value.predicted;
    if MinOther(dists, q) > 0.0 {
      PositiveMinPredictsQuery(dists, q, k);
    }
    assert IsFirstMin(Adjusted(dists, q), k) && k < |names|;
    return Some(names[k]);
  }
}
