/** Counting facts about finite sets and sequences. */
module Collections {

  /** With equal sizes, a one-way inclusion is an equality. */
  lemma EqualSizedSubset<T>(a: set<T>, b: set<T>)
    requires a <= b && |a| == |b|
    ensures a == b
  {
    assert |b - a| == |b| - |a|;
  }

  ghost function Keys<T, K>(s: seq<T>, key: T -> K): set<K> {
    set i | 0 <= i < |s| :: key(s[i])
  }

  /** Distinct keys are as many as the elements they belong to. */
  lemma {:induction false} DistinctCount<T, K>(s: seq<T>, key: T -> K)
    requires forall i, j | 0 <= i < j < |s| :: key(s[i]) != key(s[j])
    ensures |Keys(s, key)| == |s|
  {
    if s == [] {
      assert Keys(s, key) == {};
    } else {
      var n := |s| - 1;
      DistinctCount(s[..n], key);
      assert Keys(s, key) == Keys(s[..n], key) + {key(s[n])};
    }
  }

  lemma DistinctSnoc<T, K>(s: seq<T>, key: T -> K, n: nat)
    requires n < |s|
    ensures Keys(s[..n + 1], key) == Keys(s[..n], key) + {key(s[n])}
    ensures key(s[n]) in Keys(s[..n], key) <==> exists i | 0 <= i < n :: key(s[i]) == key(s[n])
  {}

  /** A loop that checks every element and keeps the set of keys it has seen. */
  method CheckDistinct<T, K(==)>(s: seq<T>, valid: T -> bool, key: T -> K) returns (ok: bool)
    ensures ok <==>
              && (forall i | 0 <= i < |s| :: valid(s[i]))
              && (forall i, j | 0 <= i < j < |s| :: key(s[i]) != key(s[j]))
  {
    var seen: set<K> := {};
    for n := 0 to |s|
      invariant forall i | 0 <= i < n :: valid(s[i])
      invariant forall i, j | 0 <= i < j < n :: key(s[i]) != key(s[j])
      invariant seen == Keys(s[..n], key)
    {
      if !valid(s[n]) {
        return false;
      }
      DistinctSnoc(s, key, n);
      if key(s[n]) in seen {
        return false;
      }
      seen := seen + {key(s[n])};
    }
    return true;
  }
}
