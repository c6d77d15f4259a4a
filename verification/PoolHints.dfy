/** Position hints for the on-chain transcoder pool (eth/client.go). The null address is 0. */
module PoolHints {
  import Sorting

  type Address = nat

  const NULL_ADDRESS: Address := 0

  datatype Transcoder = Transcoder(addr: Address, stake: int)
  datatype Hints = Hints(posPrev: Address, posNext: Address)

  const NO_HINTS := Hints(NULL_ADDRESS, NULL_ADDRESS)

  predicate DistinctAddresses(ts: seq<Transcoder>) {
    forall i, j :: 0 <= i < j < |ts| ==> ts[i].addr != ts[j].addr
  }

  predicate Descending(ts: seq<Transcoder>) {
    forall i, j :: 0 <= i < j < |ts| ==> ts[i].stake >= ts[j].stake
  }

  // ---------------------------------------------------------------- stable sorting

  /** How many entries precede a new one of stake `s`: all that have at least as much. */
  function Rank(ts: seq<Transcoder>, s: int): (k: nat)
    ensures k <= |ts|
    ensures forall i :: 0 <= i < k ==> ts[i].stake >= s
    ensures k < |ts| ==> ts[k].stake < s
  {
    if ts == [] || ts[0].stake < s then 0 else 1 + Rank(ts[1..], s)
  }

  function InsertStable(ts: seq<Transcoder>, t: Transcoder): seq<Transcoder> {
    var k := Rank(ts, t.stake);
    ts[..k] + [t] + ts[k..]
  }

  /** Sorts by descending stake, keeping the order of equal stakes. */
  function StableSort(ts: seq<Transcoder>): seq<Transcoder> {
    if ts == [] then [] else InsertStable(StableSort(ts[..|ts| - 1]), ts[|ts| - 1])
  }

  function WithStake(ts: seq<Transcoder>, s: int): seq<Transcoder> {
    if ts == [] then []
    else if ts[0].stake == s then [ts[0]] + WithStake(ts[1..], s)
    else WithStake(ts[1..], s)
  }

  lemma {:induction false} WithStakeAppend(a: seq<Transcoder>, b: seq<Transcoder>, s: int)
    ensures WithStake(a + b, s) == WithStake(a, s) + WithStake(b, s)
    ensures forall t: Transcoder :: WithStake([t], s) == if t.stake == s then [t] else []
  {
    if a == [] {
      assert a + b == b;
    } else {
      assert (a + b)[1..] == a[1..] + b;
      WithStakeAppend(a[1..], b, s);
    }
  }

  lemma {:induction false} WithStakeNone(a: seq<Transcoder>, s: int)
    requires forall i :: 0 <= i < |a| ==> a[i].stake != s
    ensures WithStake(a, s) == []
  {
    if a != [] {
      WithStakeNone(a[1..], s);
    }
  }

  /** In a descending list everything from the rank on has less stake. */
  lemma BelowRank(ts: seq<Transcoder>, s: int, i: nat)
    requires Descending(ts) && Rank(ts, s) <= i < |ts|
    ensures ts[i].stake < s
  {}

  lemma InsertStableSorts(ts: seq<Transcoder>, t: Transcoder)
    requires Descending(ts)
    ensures Descending(InsertStable(ts, t))
    ensures multiset(InsertStable(ts, t)) == multiset(ts) + multiset{t}
  {
    var k := Rank(ts, t.stake);
    var r := InsertStable(ts, t);
    Sorting.InsertPermutes(ts, t, k);
    assert forall i, j :: 0 <= i < j < |r| ==> r[i].stake >= r[j].stake;
  }

  lemma InsertStableKeepsOrder(ts: seq<Transcoder>, t: Transcoder, s: int)
    requires Descending(ts)
    ensures WithStake(InsertStable(ts, t), s) == WithStake(ts, s) + WithStake([t], s)
  {
    var k := Rank(ts, t.stake);
    var a, b := ts[..k], ts[k..];
    assert ts == a + b;
    if s == t.stake {
      forall i | 0 <= i < |b| ensures b[i].stake != s { BelowRank(ts, s, k + i); }
      WithStakeNone(b, s);
    } else {
      WithStakeNone([t], s);
    }
    InsertedBetween(a, b, t, s);
  }

  lemma InsertedBetween(a: seq<Transcoder>, b: seq<Transcoder>, t: Transcoder, s: int)
    requires WithStake(b, s) == [] || WithStake([t], s) == []
    ensures WithStake(a + [t] + b, s) == WithStake(a + b, s) + WithStake([t], s)
  {
    WithStakeAppend(a, b, s);
    WithStakeAppend(a + [t], b, s);
    WithStakeAppend(a, [t], s);
  }

  /** `StableSort` is what the library promises: sorted, a permutation, and among equal stakes
      in the original order. */
  lemma {:induction false} StableSortIsStable(ts: seq<Transcoder>)
    ensures Descending(StableSort(ts))
    ensures multiset(StableSort(ts)) == multiset(ts)
    ensures forall s :: WithStake(StableSort(ts), s) == WithStake(ts, s)
  {
    if ts != [] {
      var n := |ts| - 1;
      StableSortIsStable(ts[..n]);
      InsertStableSorts(StableSort(ts[..n]), ts[n]);
      assert ts == ts[..n] + [ts[n]];
      forall s ensures WithStake(StableSort(ts), s) == WithStake(ts, s) {
        InsertStableKeepsOrder(StableSort(ts[..n]), ts[n], s);
        WithStakeAppend(ts[..n], [ts[n]], s);
      }
    }
  }

  // ---------------------------------------------------------------- the simulated pool

  /** The pool without its first entry for `del`. */
  function Without(ts: seq<Transcoder>, del: Address): (r: seq<Transcoder>)
  {
    if ts == [] then [] else if ts[0].addr == del then ts[1..] else [ts[0]] + Without(ts[1..], del)
  }

  lemma {:induction false} WithoutElements(ts: seq<Transcoder>, del: Address)
    requires DistinctAddresses(ts)
    ensures DistinctAddresses(Without(ts, del))
    ensures forall t :: t in Without(ts, del) <==> t in ts && t.addr != del
  {
    if ts != [] {
      var r := Without(ts, del);
      WithoutElements(ts[1..], del);
      assert ts == [ts[0]] + ts[1..];
      if ts[0].addr != del {
        forall i | 0 < i < |r| ensures r[i].addr != ts[0].addr {
          assert r[i] in Without(ts[1..], del);
          assert r[i] in ts[1..];
        }
        assert r[1..] == Without(ts[1..], del);
      }
    }
  }

  /** The pool in its new order, before anyone is evicted. */
  function Reordered(del: Address, newStake: int, ts: seq<Transcoder>): seq<Transcoder> {
    StableSort(Without(ts, del) + [Transcoder(del, newStake)])
  }

  function Simulated(del: Address, newStake: int, ts: seq<Transcoder>, isFull: bool): seq<Transcoder> {
    var r := Reordered(del, newStake, ts);
    if isFull && r != [] then r[..|r| - 1] else r
  }

  /** Where the delegate ends up: behind everyone with at least its stake. */
  function Place(del: Address, newStake: int, ts: seq<Transcoder>): nat {
    Rank(StableSort(Without(ts, del)), newStake)
  }

  lemma SortedWithoutDelegate(del: Address, ts: seq<Transcoder>, i: nat)
    requires DistinctAddresses(ts) && i < |StableSort(Without(ts, del))|
    ensures StableSort(Without(ts, del))[i].addr != del
  {
    var rest := Without(ts, del);
    var sorted := StableSort(rest);
    StableSortIsStable(rest);
    WithoutElements(ts, del);
    assert sorted[i] in multiset(sorted);
  }

  /** The entry at `k` stands behind everyone with at least its stake and before everyone with
      less; no other entry has its address. */
  ghost predicate Placed(r: seq<Transcoder>, k: nat, t: Transcoder) {
    && k < |r| && r[k] == t
    && (forall i :: 0 <= i < k ==> r[i].stake >= t.stake && r[i].addr != t.addr)
    && (forall i :: k < i < |r| ==> r[i].stake < t.stake && r[i].addr != t.addr)
  }

  lemma InsertStableEntry(ts: seq<Transcoder>, t: Transcoder, i: nat)
    requires i <= |ts|
    ensures var k := Rank(ts, t.stake);
            |InsertStable(ts, t)| == |ts| + 1 &&
            InsertStable(ts, t)[i] == if i < k then ts[i] else if i == k then t else ts[i - 1]
  {}

  lemma InsertStableOther(sorted: seq<Transcoder>, t: Transcoder, i: nat)
    requires Descending(sorted) && i <= |sorted| && i != Rank(sorted, t.stake)
    requires forall i :: 0 <= i < |sorted| ==> sorted[i].addr != t.addr
    ensures var other := InsertStable(sorted, t)[i];
            other.addr != t.addr && (other.stake >= t.stake <==> i < Rank(sorted, t.stake))
  {
    InsertStableEntry(sorted, t, i);
  }

  lemma InsertStablePlaces(sorted: seq<Transcoder>, t: Transcoder)
    requires Descending(sorted)
    requires forall i :: 0 <= i < |sorted| ==> sorted[i].addr != t.addr
    ensures Placed(InsertStable(sorted, t), Rank(sorted, t.stake), t)
  {
    var k := Rank(sorted, t.stake);
    InsertStableEntry(sorted, t, k);
    forall i: nat | i <= |sorted| && i != k
      ensures InsertStable(sorted, t)[i].addr != t.addr
      ensures InsertStable(sorted, t)[i].stake >= t.stake <==> i < k
    {
      InsertStableOther(sorted, t, i);
    }
  }

  /** In the reordered pool the delegate stands behind everyone with at least its stake and
      before everyone with less, and nobody else changed. */
  lemma ReorderedPlaces(del: Address, newStake: int, ts: seq<Transcoder>)
    requires DistinctAddresses(ts)
    ensures Placed(Reordered(del, newStake, ts), Place(del, newStake, ts), Transcoder(del, newStake))
    ensures Descending(Reordered(del, newStake, ts))
    ensures multiset(Reordered(del, newStake, ts)) ==
              multiset(Without(ts, del)) + multiset{Transcoder(del, newStake)}
  {
    var sorted := StableSort(Without(ts, del));
    StableSortIsStable(Without(ts, del));
    InsertStableSorts(sorted, Transcoder(del, newStake));
    forall i | 0 <= i < |sorted| ensures sorted[i].addr != del {
      SortedWithoutDelegate(del, ts, i);
    }
    InsertStablePlaces(sorted, Transcoder(del, newStake));
  }

  // ---------------------------------------------------------------- hints

  function AddrAt(ts: seq<Transcoder>, i: int): Address {
    if 0 <= i < |ts| then ts[i].addr else NULL_ADDRESS
  }

  /** The entry for `del` is at `k`, and there is no other. */
  predicate OnlyAt(ts: seq<Transcoder>, del: Address, k: nat) {
    k < |ts| && forall i :: 0 <= i < |ts| ==> (ts[i].addr == del <==> i == k)
  }

  /** A linear search that does not stop at the delegate. */
  method FindTranscoderHints(del: Address, ts: seq<Transcoder>) returns (h: Hints)
    ensures forall k: nat :: OnlyAt(ts, del, k) ==> h == Hints(AddrAt(ts, k - 1), AddrAt(ts, k + 1))
    ensures (forall i :: 0 <= i < |ts| ==> ts[i].addr != del) ==> h == NO_HINTS
  {
    h := NO_HINTS;
    for i := 0 to |ts|
      invariant forall k: nat :: OnlyAt(ts, del, k) ==>
                  h == if k < i then Hints(AddrAt(ts, k - 1), AddrAt(ts, k + 1)) else NO_HINTS
      invariant (forall j :: 0 <= j < i ==> ts[j].addr != del) ==> h == NO_HINTS
    {
      if ts[i].addr == del && |ts| > 1 {
        if i == 0 {
          h := h.(posNext := ts[i + 1].addr);
        } else if i == |ts| - 1 {
          h := h.(posPrev := ts[i - 1].addr);
        } else {
          h := h.(posNext := ts[i + 1].addr);
          h := h.(posPrev := ts[i - 1].addr);
        }
      }
    }
  }

  method RemoveDelegate(ts: seq<Transcoder>, del: Address) returns (r: seq<Transcoder>)
    ensures r == Without(ts, del)
  {
    for i := 0 to |ts|
      invariant Without(ts, del) == ts[..i] + Without(ts[i..], del)
    {
      if ts[i].addr == del {
        return ts[..i] + ts[i + 1..];
      }
      assert ts[..i] + ([ts[i]] + Without(ts[i + 1..], del)) == ts[..i + 1] + Without(ts[i + 1..], del);
    }
    r := ts;
  }

  /** The hints are the neighbours of the delegate in the simulated pool, null at an end; they
      are both null when it is evicted itself. */
  method SimulateTranscoderPoolUpdate(del: Address, newStake: int, ts: seq<Transcoder>, isFull: bool)
    returns (h: Hints)
    requires DistinctAddresses(ts)
    ensures var pool := Simulated(del, newStake, ts, isFull);
            var k := Place(del, newStake, ts);
            h == if k < |pool| then Hints(AddrAt(pool, k - 1), AddrAt(pool, k + 1)) else NO_HINTS
    ensures !isFull ==>
              var r := Reordered(del, newStake, ts);
              var k := Place(del, newStake, ts);
              k < |r| && r[k] == Transcoder(del, newStake) && h == Hints(AddrAt(r, k - 1), AddrAt(r, k + 1))
  {
    var pool := RemoveDelegate(ts, del);
    pool := pool + [Transcoder(del, newStake)];
    pool := StableSort(pool);
    ReorderedPlaces(del, newStake, ts);
    ghost var k := Place(del, newStake, ts);
    if isFull {
      pool := pool[..|pool| - 1];
    }
    assert k < |pool| ==> OnlyAt(pool, del, k);
    h := FindTranscoderHints(del, pool);
  }

  /** Eviction takes the last entry even when the delegate was in the full pool already and its
      move evicts nobody. The hints are then still its true neighbours exactly when it is not
      among the last two, or alone. */
  lemma HintsOfFullPool(del: Address, newStake: int, ts: seq<Transcoder>)
    requires DistinctAddresses(ts)
    requires forall t :: t in ts ==> t.addr != NULL_ADDRESS
    ensures var r := Reordered(del, newStake, ts);
            var pool := Simulated(del, newStake, ts, true);
            var k := Place(del, newStake, ts);
            (if k < |pool| then Hints(AddrAt(pool, k - 1), AddrAt(pool, k + 1)) else NO_HINTS) ==
              Hints(AddrAt(r, k - 1), AddrAt(r, k + 1))
            <==> k + 2 < |r| || |r| == 1
  {
    ReorderedPlaces(del, newStake, ts);
    WithoutElements(ts, del);
    var r := Reordered(del, newStake, ts);
    var k := Place(del, newStake, ts);
    forall i | 0 <= i < |r| && i != k ensures r[i].addr != NULL_ADDRESS {
      assert r[i] in multiset(r);
      assert r[i] in multiset(Without(ts, del));
    }
  }

  /** The last of two delegates updates its stake in a full pool: it is taken to be evicted, and
      gets no hints although it stays behind the other one. */
  lemma LastOfTwoGetsNoHints()
    ensures var ts := [Transcoder(1, 10), Transcoder(2, 5)];
            && DistinctAddresses(ts)
            && Reordered(2, 5, ts) == ts && Simulated(2, 5, ts, true) == [ts[0]] && Place(2, 5, ts) == 1
  {
    var a, b := Transcoder(1, 10), Transcoder(2, 5);
    assert Without([b], 2) == [] && Without([a, b], 2) == [a] + Without([b], 2);
    assert [a] + [b] == [a, b] && [a, b][..1] == [a] && [a][..0] == [];
    assert StableSort([]) == [] && StableSort([a]) == [a];
    assert Rank([a], 5) == 1;
    assert [a][..1] == [a] && [a][1..] == [];
    assert InsertStable([a], b) == [a, b];
    assert StableSort([a, b]) == InsertStable([a], b);
  }
}
