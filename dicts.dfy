/** The dictionary comprehension the retrieval and adjudication code both use. */
module Dicts {

  /** `{key(x): x for x in xs}`: one entry per key, a later element with the same key winning. */
  function KeyedBy<T>(xs: seq<T>, key: T -> string): (m: map<string, T>)
    ensures forall k :: k in m <==> exists i :: 0 <= i < |xs| && key(xs[i]) == k
    ensures forall k :: k in m ==> key(m[k]) == k && m[k] in xs
    ensures forall k :: k in m ==> exists i :: 0 <= i < |xs| && xs[i] == m[k] && forall j :: i < j < |xs| ==> key(xs[j]) != k
    decreases |xs|
  {
    if xs == [] then map[]
    else
      var n := |xs| - 1;
      var prev := KeyedBy(xs[..n], key);
      var m := prev[key(xs[n]) := xs[n]];
      LastWins(xs, key, prev);
      assert forall k :: k in m ==> m[k] in xs by {
        forall k | k in m ensures m[k] in xs {
          if k != key(xs[n]) {
            assert m[k] in xs[..n];
          }
        }
      }
      assert forall k :: (exists i :: 0 <= i < |xs| && key(xs[i]) == k) ==> k in m by {
        forall k | exists i :: 0 <= i < |xs| && key(xs[i]) == k ensures k in m {
          var i :| 0 <= i < |xs| && key(xs[i]) == k;
          if i < n {
            assert key(xs[..n][i]) == k;
          }
        }
      }
      m
  }

  /** The entry a key gets from the last element: what keeps `KeyedBy`'s later-element-wins clause. */
  lemma LastWins<T>(xs: seq<T>, key: T -> string, prev: map<string, T>)
    requires |xs| > 0
    requires var init := xs[..|xs| - 1];
      forall k :: k in prev ==> exists i :: 0 <= i < |init| && init[i] == prev[k] && forall j :: i < j < |init| ==> key(init[j]) != k
    ensures var m := prev[key(xs[|xs| - 1]) := xs[|xs| - 1]];
      forall k :: k in m ==> exists i :: 0 <= i < |xs| && xs[i] == m[k] && forall j :: i < j < |xs| ==> key(xs[j]) != k
  {
    var n := |xs| - 1;
    var m := prev[key(xs[n]) := xs[n]];
    forall k | k in m
      ensures exists i :: 0 <= i < |xs| && xs[i] == m[k] && forall j :: i < j < |xs| ==> key(xs[j]) != k
    {
      if k == key(xs[n]) {
        assert xs[n] == m[k];
      } else {
        var init := xs[..n];
        var i :| 0 <= i < n && init[i] == prev[k] && forall j :: i < j < n ==> key(init[j]) != k;
        assert xs[i] == m[k];
        forall j | i < j < |xs| ensures key(xs[j]) != k {
          if j < n {
            assert key(init[j]) != k;
          }
        }
      }
    }
  }
}
