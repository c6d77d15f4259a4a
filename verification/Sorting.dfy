/** Sorting as the Go library promises it: a sorted permutation, equal keys in any order. */
module Sorting {

  ghost predicate Descending<T>(ts: seq<T>, key: map<T, real>) {
    forall i, j :: 0 <= i < j < |ts| && ts[i] in key && ts[j] in key ==> key[ts[i]] >= key[ts[j]]
  }

  ghost predicate Keyed<T>(ts: seq<T>, key: map<T, real>) {
    forall i :: 0 <= i < |ts| ==> ts[i] in key
  }

  method SortDescending<T(==)>(ts: seq<T>, key: map<T, real>) returns (r: seq<T>)
    requires Keyed(ts, key)
    ensures multiset(r) == multiset(ts)
    ensures Descending(r, key)
  {
    r := [];
    for i := 0 to |ts|
      invariant multiset(r) == multiset(ts[..i])
      invariant Keyed(r, key) && Descending(r, key)
    {
      assert ts[..i + 1] == ts[..i] + [ts[i]];
      r := InsertDescending(r, ts[i], key);
    }
    assert ts[..|ts|] == ts;
  }

  method InsertDescending<T(==)>(ts: seq<T>, t: T, key: map<T, real>) returns (r: seq<T>)
    requires Keyed(ts, key) && t in key && Descending(ts, key)
    ensures multiset(r) == multiset(ts) + multiset{t}
    ensures Keyed(r, key) && Descending(r, key)
  {
    var k := |ts|;
    while k > 0 && key[ts[k - 1]] < key[t]
      invariant 0 <= k <= |ts|
      invariant forall j :: k <= j < |ts| ==> key[t] >= key[ts[j]]
    {
      k := k - 1;
    }
    r := ts[..k] + [t] + ts[k..];
    InsertPermutes(ts, t, k);
    InsertSorts(ts, t, k, key);
  }

  lemma InsertPermutes<T>(ts: seq<T>, t: T, k: nat)
    requires k <= |ts|
    ensures multiset(ts[..k] + [t] + ts[k..]) == multiset(ts) + multiset{t}
  {
    assert ts == ts[..k] + ts[k..];
  }

  lemma InsertSorts<T>(ts: seq<T>, t: T, k: nat, key: map<T, real>)
    requires k <= |ts| && Keyed(ts, key) && t in key && Descending(ts, key)
    requires k > 0 ==> key[ts[k - 1]] >= key[t]
    requires forall j :: k <= j < |ts| ==> key[t] >= key[ts[j]]
    ensures var r := ts[..k] + [t] + ts[k..]; Keyed(r, key) && Descending(r, key)
  {}

  lemma HasElement<T>(ts: seq<T>)
    requires ts != []
    ensures exists t :: t in ts
  {
    assert ts[0] in ts;
  }

  ghost predicate Distinct<T>(ts: seq<T>) {
    forall i, j :: 0 <= i < j < |ts| ==> ts[i] != ts[j]
  }

  lemma CountsTwice<T>(ts: seq<T>, i: nat, j: nat)
    requires i < j < |ts| && ts[i] == ts[j]
    ensures multiset(ts)[ts[i]] >= 2
  {
    assert ts == ts[..i] + [ts[i]] + ts[i + 1..j] + [ts[j]] + ts[j + 1..];
  }

  lemma {:induction false} CountsOnce<T>(ts: seq<T>, t: T)
    requires Distinct(ts)
    ensures multiset(ts)[t] <= 1
  {
    if ts != [] {
      var n := |ts| - 1;
      CountsOnce(ts[..n], t);
      assert ts == ts[..n] + [ts[n]];
    }
  }

  /** A permutation of distinct entries has distinct entries. */
  lemma DistinctPermutation<T>(a: seq<T>, b: seq<T>)
    requires Distinct(a) && multiset(a) == multiset(b)
    ensures Distinct(b)
  {
    forall i, j | 0 <= i < j < |b| ensures b[i] != b[j] {
      if b[i] == b[j] {
        CountsTwice(b, i, j);
        CountsOnce(a, b[i]);
        assert false;
      }
    }
  }

  lemma SameElements<T>(a: seq<T>, b: seq<T>)
    requires multiset(a) == multiset(b)
    ensures forall t :: t in a <==> t in b
  {
    forall t ensures t in a <==> t in b {
      assert t in b <==> t in multiset(b);
    }
  }
}
