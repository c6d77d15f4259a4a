/** Choosing the next session (server/selection.go): the session with the best latency score,
    or a random one among those without a score, weighted by the stake of its orchestrator. */
module Selection {
  import opened Base

  type Address = nat

  // ---------------------------------------------------------------- the weighted draw

  function StakeOf(stakes: map<Address, nat>, a: Address): nat {
    if a in stakes then stakes[a] else 0
  }

  /** The first session of an address carries all of its stake. Sessions without ticket
      parameters have no address and no weight. */
  function Weight(addrs: seq<Option<Address>>, stakes: map<Address, nat>, i: nat): nat
    requires i < |addrs|
  {
    if addrs[i].Some? && addrs[i] !in addrs[..i] then StakeOf(stakes, addrs[i].value) else 0
  }

  /** The weight of the first `n` sessions. */
  function Prefix(addrs: seq<Option<Address>>, stakes: map<Address, nat>, n: nat): nat
    requires n <= |addrs|
  {
    if n == 0 then 0 else Prefix(addrs, stakes, n - 1) + Weight(addrs, stakes, n - 1)
  }

  function Total(addrs: seq<Option<Address>>, stakes: map<Address, nat>): nat {
    Prefix(addrs, stakes, |addrs|)
  }

  lemma {:induction false} PrefixMonotone(addrs: seq<Option<Address>>, stakes: map<Address, nat>, i: nat, j: nat)
    requires i <= j <= |addrs|
    ensures Prefix(addrs, stakes, i) <= Prefix(addrs, stakes, j)
  {
    if i < j {
      PrefixMonotone(addrs, stakes, i, j - 1);
    }
  }

  /** The draw `r` falls on session `k`. */
  predicate FallsOn(addrs: seq<Option<Address>>, stakes: map<Address, nat>, r: int, k: nat)
    requires k < |addrs|
  {
    Prefix(addrs, stakes, k) < r <= Prefix(addrs, stakes, k + 1)
  }

  /** A draw falls on one session at most. */
  lemma FallsOnce(addrs: seq<Option<Address>>, stakes: map<Address, nat>, r: int, j: nat, k: nat)
    requires j < |addrs| && k < |addrs|
    requires FallsOn(addrs, stakes, r, j) && FallsOn(addrs, stakes, r, k)
    ensures j == k
  {
    if j < k {
      PrefixMonotone(addrs, stakes, j + 1, k);
    } else if k < j {
      PrefixMonotone(addrs, stakes, k + 1, j);
    }
  }

  /** The stakes left after the first `n` sessions took theirs. */
  ghost predicate Spent(addrs: seq<Option<Address>>, stakes: map<Address, nat>, n: nat, left: map<Address, nat>)
    requires n <= |addrs|
  {
    forall a: Address :: StakeOf(left, a) == if Some(a) in addrs[..n] then 0 else StakeOf(stakes, a)
  }

  /** The selection loop: runs down `r` by the stakes, zeroing each address it meets. A draw of
      0, when there is no stake at all, takes the first session that has an address. */
  method RunDown(addrs: seq<Option<Address>>, stakes: map<Address, nat>, r: nat) returns (k: int)
    ensures -1 <= k < |addrs|
    ensures r > 0 && k >= 0 ==> FallsOn(addrs, stakes, r, k)
    ensures r > 0 && k == -1 ==> r > Total(addrs, stakes)
    ensures k >= 0 ==> addrs[k].Some?
    ensures r == 0 ==> forall j :: 0 <= j < (if k == -1 then |addrs| else k) ==> addrs[j].None?
  {
    var rest: int := r;
    var left := stakes;
    for i := 0 to |addrs|
      invariant rest == r - Prefix(addrs, stakes, i)
      invariant Spent(addrs, stakes, i, left)
      invariant r > 0 ==> rest > 0
      invariant r == 0 ==> forall j :: 0 <= j < i ==> addrs[j].None?
      invariant r == 0 ==> rest == 0
    {
      if addrs[i].None? {
        continue;
      }
      var a := addrs[i].value;
      assert StakeOf(left, a) == Weight(addrs, stakes, i);
      rest := rest - StakeOf(left, a);
      left := left[a := 0];
      if rest <= 0 {
        return i;
      }
    }
    k := -1;
  }

  // ---------------------------------------------------------------- the total

  ghost predicate Listed(addrs: seq<Option<Address>>, stakes: map<Address, nat>) {
    forall a :: a in stakes ==> Some(a) in addrs
  }

  lemma {:induction false} PrefixWithout(addrs: seq<Option<Address>>, stakes: map<Address, nat>, a: Address, n: nat)
    requires n <= |addrs|
    ensures Prefix(addrs, stakes, n) ==
              Prefix(addrs, stakes - {a}, n) + if Some(a) in addrs[..n] then StakeOf(stakes, a) else 0
  {
    if n > 0 {
      PrefixWithout(addrs, stakes, a, n - 1);
    }
  }

  lemma {:induction false} PrefixOfNothing(addrs: seq<Option<Address>>, n: nat)
    requires n <= |addrs|
    ensures Prefix(addrs, map[], n) == 0
  {
    if n > 0 {
      PrefixOfNothing(addrs, n - 1);
    }
  }

  /** Adding up the fetched stakes gives the weight of all sessions, when stakes were fetched
      for listed addresses only. */
  method TotalStake(addrs: seq<Option<Address>>, stakes: map<Address, nat>) returns (total: nat)
    ensures Listed(addrs, stakes) ==> total == Total(addrs, stakes)
  {
    total := 0;
    var rest := stakes;
    while rest != map[]
      invariant Listed(addrs, stakes) ==>
                  Listed(addrs, rest) && total + Total(addrs, rest) == Total(addrs, stakes)
      decreases |rest|
    {
      var a :| a in rest;
      PrefixWithout(addrs, rest, a, |addrs|);
      total := total + rest[a];
      rest := rest - {a};
    }
    PrefixOfNothing(addrs, |addrs|);
  }

  /** The stakes of the listed addresses that the store knows. A query without any address is
      not restricted and returns the whole store. */
  function Fetch(store: map<Address, nat>, addrs: seq<Option<Address>>): map<Address, nat> {
    if forall i :: 0 <= i < |addrs| ==> addrs[i].None? then store
    else map a | a in store && Some(a) in addrs :: store[a]
  }

  lemma {:induction false} NoAddressNoWeight(addrs: seq<Option<Address>>, stakes: map<Address, nat>, n: nat)
    requires n <= |addrs| && forall i :: 0 <= i < |addrs| ==> addrs[i].None?
    ensures Prefix(addrs, stakes, n) == 0
  {
    if n > 0 {
      NoAddressNoWeight(addrs, stakes, n - 1);
    }
  }

  /** What the draw yields: the session on which it falls if there is any stake, else the first
      session with an address, else none (-1). */
  ghost predicate Drawn(addrs: seq<Option<Address>>, store: map<Address, nat>, draw: nat, k: int) {
    var stakes := Fetch(store, addrs);
    var total := Total(addrs, stakes);
    && -1 <= k < |addrs|
    && (total > 0 ==> k >= 0 && FallsOn(addrs, stakes, 1 + draw % total, k))
    && (total == 0 ==> forall j :: 0 <= j < (if k == -1 then |addrs| else k) ==> addrs[j].None?)
    && (k >= 0 ==> addrs[k].Some?)
  }

  method WeightedDraw(addrs: seq<Option<Address>>, store: map<Address, nat>, draw: nat) returns (k: int)
    ensures Drawn(addrs, store, draw, k)
  {
    var stakes := Fetch(store, addrs);
    var totalStake := TotalStake(addrs, stakes);
    var r := if totalStake > 0 then 1 + draw % totalStake else 0;
    k := RunDown(addrs, stakes, r);
    if forall i :: 0 <= i < |addrs| ==> addrs[i].None? {
      NoAddressNoWeight(addrs, stakes, |addrs|);
    }
  }

  // ---------------------------------------------------------------- exactness

  ghost function Draws(addrs: seq<Option<Address>>, stakes: map<Address, nat>, k: nat): set<int>
    requires k < |addrs|
  {
    set r: int | 1 <= r <= Total(addrs, stakes) && FallsOn(addrs, stakes, r, k)
  }

  ghost function Interval(lo: int, hi: int): (s: set<int>)
    requires lo <= hi
    ensures forall r :: r in s <==> lo < r <= hi
    ensures |s| == hi - lo
    decreases hi - lo
  {
    if lo == hi then {} else Interval(lo, hi - 1) + {hi}
  }

  /** The draw is exact: of the draws 1..total, as many fall on a session as its address has
      stake, if it is the first session of the address, and none otherwise. */
  lemma DrawsMatchStake(addrs: seq<Option<Address>>, stakes: map<Address, nat>, k: nat)
    requires k < |addrs|
    ensures |Draws(addrs, stakes, k)| ==
              if addrs[k].Some? && addrs[k] !in addrs[..k] && addrs[k].value in stakes then stakes[addrs[k].value] else 0
  {
    var lo, hi := Prefix(addrs, stakes, k), Prefix(addrs, stakes, k + 1);
    PrefixMonotone(addrs, stakes, k + 1, |addrs|);
    var interval := Interval(lo, hi);
    forall r ensures r in Draws(addrs, stakes, k) <==> r in interval {
      assert FallsOn(addrs, stakes, r, k) <==> lo < r <= hi;
    }
    assert Draws(addrs, stakes, k) == interval;
  }

  /** Draws are given out in the order of the sessions. */
  lemma DrawsAscend(addrs: seq<Option<Address>>, stakes: map<Address, nat>, q: int, r: int, j: nat, k: nat)
    requires j < k < |addrs| && FallsOn(addrs, stakes, q, j) && FallsOn(addrs, stakes, r, k)
    ensures q < r
  {
    PrefixMonotone(addrs, stakes, j + 1, k);
  }

  /** Every draw in 1..total falls on exactly one session. */
  lemma EveryDrawFalls(addrs: seq<Option<Address>>, stakes: map<Address, nat>, r: int)
    requires 1 <= r <= Total(addrs, stakes)
    ensures exists k: nat :: k < |addrs| && FallsOn(addrs, stakes, r, k)
  {
    var k := FindDraw(addrs, stakes, r, |addrs|);
  }

  lemma {:induction false} FindDraw(addrs: seq<Option<Address>>, stakes: map<Address, nat>, r: int, n: nat)
    returns (k: nat)
    requires n <= |addrs| && 1 <= r <= Prefix(addrs, stakes, n)
    ensures k < n && FallsOn(addrs, stakes, r, k)
  {
    if r <= Prefix(addrs, stakes, n - 1) {
      k := FindDraw(addrs, stakes, r, n - 1);
    } else {
      k := n - 1;
    }
  }

  ghost predicate DrawnAt(addrs: seq<Option<Address>>, store: map<Address, nat>, n: int, k: nat) {
    n >= 1 && Drawn(addrs, store, n - 1, k)
  }

  /** The random numbers, counted from 1 up to the total stake of the listed addresses, for which
      session `k` is drawn. */
  ghost function LuckyNumbers(addrs: seq<Option<Address>>, store: map<Address, nat>, k: nat): set<int> {
    set n: int | 1 <= n <= Total(addrs, Fetch(store, addrs)) && DrawnAt(addrs, store, n, k)
  }

  lemma NumberIsDraw(addrs: seq<Option<Address>>, store: map<Address, nat>, k: nat, n: int)
    requires k < |addrs| && 1 <= n <= Total(addrs, Fetch(store, addrs))
    ensures DrawnAt(addrs, store, n, k) <==> FallsOn(addrs, Fetch(store, addrs), n, k)
  {
    assert (n - 1) % Total(addrs, Fetch(store, addrs)) == n - 1;
  }

  /** The law of the weighted draw, in terms of the store: session `k` is drawn for as many
      numbers as the store holds stake for its address, if it is the first session of that
      address, and for none otherwise. */
  lemma NumbersMatchStake(addrs: seq<Option<Address>>, store: map<Address, nat>, k: nat)
    requires k < |addrs|
    ensures |LuckyNumbers(addrs, store, k)| ==
              if addrs[k].Some? && addrs[k] !in addrs[..k] && addrs[k].value in store then store[addrs[k].value] else 0
  {
    var stakes := Fetch(store, addrs);
    forall n ensures n in LuckyNumbers(addrs, store, k) <==> n in Draws(addrs, stakes, k) {
      if 1 <= n <= Total(addrs, stakes) {
        NumberIsDraw(addrs, store, k, n);
      }
    }
    assert LuckyNumbers(addrs, store, k) == Draws(addrs, stakes, k);
    DrawsMatchStake(addrs, stakes, k);
  }

  lemma {:induction false} NoStakeNoWeight(addrs: seq<Option<Address>>, stakes: map<Address, nat>, n: nat)
    requires n <= |addrs| && forall a :: a in stakes ==> stakes[a] == 0
    ensures Prefix(addrs, stakes, n) == 0
  {
    if n > 0 {
      NoStakeNoWeight(addrs, stakes, n - 1);
    }
  }

  /** Without any stake the first session that has an address is drawn, if there is one. */
  lemma NoStakeDrawsFirst(addrs: seq<Option<Address>>, store: map<Address, nat>, draw: nat, k: int)
    requires Drawn(addrs, store, draw, k)
    requires forall a :: a in store ==> store[a] == 0
    ensures k == -1 <==> forall j :: 0 <= j < |addrs| ==> addrs[j].None?
    ensures k >= 0 ==> k < |addrs| && addrs[k].Some? && forall j :: 0 <= j < k ==> addrs[j].None?
  {
    NoStakeNoWeight(addrs, Fetch(store, addrs), |addrs|);
  }

  // ---------------------------------------------------------------- the selector

  /** `recipient` is the address in the ticket parameters, if there are any. */
  class BroadcastSession {
    const transcoder: string
    const recipient: Option<Address>
    var latencyScore: real
    var segsInFlight: seq<SegInFlight>

    constructor (transcoder: string, recipient: Option<Address>)
      ensures this.transcoder == transcoder && this.recipient == recipient && segsInFlight == []
    {
      this.transcoder, this.recipient, latencyScore, segsInFlight := transcoder, recipient, 0.0, [];
    }
  }

  datatype SegInFlight = SegInFlight(startTime: int, segDur: int)

  function Recipients(ss: seq<BroadcastSession>): (addrs: seq<Option<Address>>)
    ensures |addrs| == |ss| && forall i :: 0 <= i < |ss| ==> addrs[i] == ss[i].recipient
  {
    seq(|ss|, i requires 0 <= i < |ss| => ss[i].recipient)
  }

  /** What one selection may draw upon: a coin in [0,1), two random numbers, and the stakes in
      the store, unless it cannot be read. */
  datatype Luck = Luck(coin: real, index: nat, draw: nat, store: Option<map<Address, nat>>)

  /** Swaps the entry with the last one and cuts that off. */
  function SwapRemoved(ss: seq<BroadcastSession>, i: nat): seq<BroadcastSession>
    requires i < |ss|
  {
    ss[i := ss[|ss| - 1]][..|ss| - 1]
  }

  lemma SwapRemovesOne(ss: seq<BroadcastSession>, i: nat)
    requires i < |ss|
    ensures multiset(SwapRemoved(ss, i)) == multiset(ss) - multiset{ss[i]}
  {
    var n := |ss| - 1;
    assert ss == ss[..n] + [ss[n]];
  }

  predicate IsLeast(sess: BroadcastSession, ss: seq<BroadcastSession>)
    reads sess, ss
  {
    forall i :: 0 <= i < |ss| ==> sess.latencyScore <= ss[i].latencyScore
  }

  /** None of the scores is good enough. */
  predicate AllAbove(ss: seq<BroadcastSession>, minLS: real)
    reads ss
  {
    forall i :: 0 <= i < |ss| ==> ss[i].latencyScore > minLS
  }

  class MinLSSelector {
    var unknownSessions: seq<BroadcastSession>
    var knownSessions: seq<BroadcastSession>
    var hasStakeReader: bool
    const minLS: real
    const randFreq: real

    constructor (hasStakeReader: bool, minLS: real, randFreq: real)
      ensures unknownSessions == [] && knownSessions == []
      ensures this.hasStakeReader == hasStakeReader && this.minLS == minLS && this.randFreq == randFreq
    {
      unknownSessions, knownSessions := [], [];
      this.hasStakeReader, this.minLS, this.randFreq := hasStakeReader, minLS, randFreq;
    }

    /** All sessions the selector holds. */
    ghost function Bag(): multiset<BroadcastSession>
      reads this
    {
      multiset(unknownSessions) + multiset(knownSessions)
    }

    function Size(): nat
      reads this
      ensures Size() == |Bag()|
    {
      |unknownSessions| + |knownSessions|
    }

    method Add(sessions: seq<BroadcastSession>)
      modifies this`unknownSessions
      ensures unknownSessions == old(unknownSessions) + sessions
      ensures Bag() == old(Bag()) + multiset(sessions)
    {
      unknownSessions := unknownSessions + sessions;
    }

    method Complete(sess: BroadcastSession)
      modifies this`knownSessions
      ensures knownSessions == old(knownSessions) + [sess]
      ensures Bag() == old(Bag()) + multiset{sess}
    {
      knownSessions := knownSessions + [sess];
    }

    method Clear()
      modifies this
      ensures Bag() == multiset{} && !hasStakeReader
    {
      unknownSessions, knownSessions, hasStakeReader := [], [], false;
    }

    method RemoveUnknownSession(i: nat)
      requires i < |unknownSessions|
      modifies this`unknownSessions
      ensures unknownSessions == SwapRemoved(old(unknownSessions), i)
      ensures multiset(unknownSessions) == multiset(old(unknownSessions)) - multiset{old(unknownSessions)[i]}
    {
      SwapRemovesOne(unknownSessions, i);
      var n := |unknownSessions|;
      unknownSessions := unknownSessions[n - 1 := unknownSessions[i]][i := unknownSessions[n - 1]];
      unknownSessions := unknownSessions[..n - 1];
    }

    /** The heap serves a session of least latency score. */
    method LeastKnown() returns (k: nat)
      requires knownSessions != []
      ensures k < |knownSessions| && IsLeast(knownSessions[k], knownSessions)
    {
      k := 0;
      for i := 1 to |knownSessions|
        invariant k < |knownSessions| && IsLeast(knownSessions[k], knownSessions[..i])
      {
        if knownSessions[i].latencyScore < knownSessions[k].latencyScore {
          k := i;
        }
      }
    }

    method PopKnown(k: nat) returns (sess: BroadcastSession)
      requires k < |knownSessions|
      modifies this`knownSessions
      ensures sess == old(knownSessions)[k]
      ensures sess in old(Bag()) && Bag() == old(Bag()) - multiset{sess}
    {
      sess := knownSessions[k];
      SwapRemovesOne(knownSessions, k);
      knownSessions := SwapRemoved(knownSessions, k);
    }

    /** The draw is by stake, and the stakes cannot be read or no session has a recipient. */
    predicate NoneDrawn(luck: Luck)
      reads this
    {
      luck.coin >= randFreq &&
      (luck.store.None? || forall i :: 0 <= i < |unknownSessions| ==> Recipients(unknownSessions)[i].None?)
    }

    /** On-chain choice among the sessions without a score: now and then any one, and normally
        the one on which the stake-weighted draw falls. */
    method ChooseUnknown(luck: Luck) returns (k: int)
      requires unknownSessions != []
      ensures -1 <= k < |unknownSessions|
      ensures luck.coin >= randFreq && luck.store.Some? ==>
                Drawn(Recipients(unknownSessions), luck.store.value, luck.draw, k)
      ensures luck.coin < randFreq ==> k == luck.index % |unknownSessions|
      ensures k == -1 <==> NoneDrawn(luck)
    {
      if luck.coin < randFreq {
        k := luck.index % |unknownSessions|;
      } else if luck.store.None? {
        k := -1;
      } else {
        k := WeightedDraw(Recipients(unknownSessions), luck.store.value, luck.draw);
      }
    }

    /** There is no session without a score to be had: none at all, or on-chain none is drawn. */
    predicate NothingUnknown(luck: Luck)
      reads this
    {
      unknownSessions == [] || (hasStakeReader && NoneDrawn(luck))
    }

    /** Picks a session without a score: off-chain the first one, on-chain by a draw. Exactly
        the picked session leaves the list. */
    method SelectUnknownSession(luck: Luck) returns (sess: BroadcastSession?)
      modifies this`unknownSessions
      ensures sess == null <==> old(NothingUnknown(luck))
      ensures sess == null ==> unknownSessions == old(unknownSessions)
      ensures sess != null ==>
                && sess in old(unknownSessions)
                && multiset(unknownSessions) == multiset(old(unknownSessions)) - multiset{sess}
      ensures !hasStakeReader && old(unknownSessions) != [] ==>
                sess == old(unknownSessions)[0] && unknownSessions == old(unknownSessions)[1..]
      ensures hasStakeReader && luck.coin >= randFreq && luck.store.Some? && old(unknownSessions) != [] ==>
                exists k :: Drawn(Recipients(old(unknownSessions)), luck.store.value, luck.draw, k) &&
                            sess == if k == -1 then null else old(unknownSessions)[k]
    {
      if |unknownSessions| == 0 {
        return null;
      }
      if !hasStakeReader {
        sess := unknownSessions[0];
        assert unknownSessions == [sess] + unknownSessions[1..];
        unknownSessions := unknownSessions[1..];
        return;
      }
      var k := ChooseUnknown(luck);
      if k == -1 {
        return null;
      }
      sess := unknownSessions[k];
      RemoveUnknownSession(k);
    }

    /** The same, seen from the whole selector. */
    method TakeUnknown(luck: Luck) returns (sess: BroadcastSession?)
      modifies this`unknownSessions
      ensures sess == null <==> old(NothingUnknown(luck))
      ensures sess == null ==> unknownSessions == old(unknownSessions)
      ensures sess != null ==>
                sess in old(unknownSessions) && sess in old(Bag()) && Bag() == old(Bag()) - multiset{sess}
    {
      sess := SelectUnknownSession(luck);
    }

    predicate PrefersUnknown()
      reads this, knownSessions
    {
      knownSessions == [] || (AllAbove(knownSessions, minLS) && unknownSessions != [])
    }

    /** A session without a score is preferred if none has a score, or if there is one and every
        score is above the threshold; a best session is one with no better score beside it. */
    lemma PreferenceIs(sess: BroadcastSession)
      ensures PrefersUnknown() <==>
                knownSessions == [] ||
                (unknownSessions != [] && !exists i :: 0 <= i < |knownSessions| && knownSessions[i].latencyScore <= minLS)
      ensures IsLeast(sess, knownSessions) <==>
                !exists i :: 0 <= i < |knownSessions| && knownSessions[i].latencyScore < sess.latencyScore
    {}

    /** Nothing is drawn exactly if there is no session without a score, or if it is up to the
        stakes, and they cannot be read or concern no session. */
    lemma NothingUnknownIs(luck: Luck)
      ensures NothingUnknown(luck) <==>
                || unknownSessions == []
                || (&& hasStakeReader && luck.coin >= randFreq
                    && (luck.store.None? || !exists sess :: sess in unknownSessions && sess.recipient.Some?))
    {
      assert forall i :: 0 <= i < |unknownSessions| ==>
               Recipients(unknownSessions)[i] == unknownSessions[i].recipient;
    }

    predicate GivesNothing(luck: Luck)
      reads this, knownSessions
    {
      PrefersUnknown() && NothingUnknown(luck)
    }

    /** Looks at the best score, if there is any. */
    method Decide() returns (unknown: bool, k: nat)
      ensures unknown == PrefersUnknown()
      ensures !unknown ==> k < |knownSessions| && IsLeast(knownSessions[k], knownSessions)
    {
      unknown, k := true, 0;
      if knownSessions != [] {
        k := LeastKnown();
        unknown := knownSessions[k].latencyScore > minLS && |unknownSessions| > 0;
      }
    }

    /** The best scored session if its score is good enough or there is no other choice,
        otherwise one without a score. What is returned, and only that, leaves the selector. */
    method Select(luck: Luck) returns (sess: BroadcastSession?)
      modifies this`unknownSessions, this`knownSessions
      ensures sess == null <==> old(GivesNothing(luck))
      ensures sess == null ==> unknownSessions == old(unknownSessions) && knownSessions == old(knownSessions)
      ensures sess != null ==> sess in old(Bag()) && Bag() == old(Bag()) - multiset{sess}
      ensures old(PrefersUnknown()) ==>
                knownSessions == old(knownSessions) && (sess != null ==> sess in old(unknownSessions))
      ensures !old(PrefersUnknown()) ==>
                && unknownSessions == old(unknownSessions)
                && sess != null && sess in old(knownSessions) && IsLeast(sess, old(knownSessions))
    {
      var unknown, k := Decide();
      if unknown {
        sess := TakeUnknown(luck);
      } else {
        sess := PopKnown(k);
      }
    }
  }
}
