/** Credit balances of one address (core/accounting.go). Amounts are exact rationals in the
    source and `real` here. */
module Accounting {
  import opened Base

  type ManifestID = string

  /** The balances an address holds, one per stream. */
  class Balances {
    var balances: map<ManifestID, real>

    constructor ()
      ensures balances == map[] && forall id :: Amount(id) == 0.0
    {
      balances := map[];
    }

    /** A stream that was never touched counts as zero. */
    function Amount(id: ManifestID): real
      reads this
    {
      if id in balances then balances[id] else 0.0
    }

    method Credit(id: ManifestID, amount: real)
      modifies this
      ensures balances == old(balances)[id := old(Amount(id)) + amount]
    {
      if id !in balances {
        balances := balances[id := 0.0];
      }
      balances := balances[id := balances[id] + amount];
    }

    method Debit(id: ManifestID, amount: real)
      modifies this
      ensures balances == old(balances)[id := old(Amount(id)) - amount]
    {
      if id !in balances {
        balances := balances[id := 0.0];
      }
      balances := balances[id := balances[id] - amount];
    }

    /** Takes the whole balance out; `Credit` with the same amount puts it back. */
    method Reserve(id: ManifestID) returns (amount: real)
      modifies this
      ensures amount == old(Amount(id))
      ensures balances == old(balances)[id := 0.0]
    {
      if id !in balances {
        balances := balances[id := 0.0];
      }
      amount := balances[id];
      balances := balances[id := 0.0];
    }

    /** Unlike `Amount`, this distinguishes a stream that was never touched. */
    method Balance(id: ManifestID) returns (r: Option<real>)
      ensures r.None? <==> id !in balances
      ensures r.Some? ==> r.value == Amount(id) == balances[id]
    {
      r := if id in balances then Some(balances[id]) else None;
    }
  }

  /** How many tickets of expected value `ev` close the gap between the two credits. */
  function TicketCount(existing: real, minCredit: real, ev: real): int
    requires ev != 0.0 || existing >= minCredit
  {
    if existing >= minCredit then 0
    else
      var size := (minCredit - existing) / ev;
      if size == size.Floor as real then size.Floor else size.Floor + 1
  }

  lemma QuotientBound(gap: real, ev: real, n: real)
    requires ev > 0.0
    ensures n * ev >= gap <==> n >= gap / ev
  {
    var q := gap / ev;
    assert q * ev == gap;
    assert (n - q) * ev == n * ev - gap;
  }

  /** So many tickets, on top of the credit there is, reach the minimum. */
  predicate Reaches(existing: real, n: int, ev: real, minCredit: real) {
    existing + n as real * ev >= minCredit
  }

  /** `TicketCount` is the least natural number of tickets that reaches `minCredit`: none when
      the existing credit does so by itself. */
  lemma TicketCountIsLeast(existing: real, minCredit: real, ev: real, n: int)
    requires ev > 0.0
    requires n >= 0 || existing < minCredit
    ensures existing + n as real * ev >= minCredit <==> n >= TicketCount(existing, minCredit, ev)
  {
    if existing >= minCredit {
      Nonnegative(n, ev);
      return;
    }
    var gap := minCredit - existing;
    QuotientBound(gap, ev, n as real);
    assert existing + n as real * ev >= minCredit <==> n as real * ev >= gap;
    var q := gap / ev;
    assert n as real >= q <==> n >= TicketCount(existing, minCredit, ev);
  }

  lemma Nonnegative(n: nat, ev: real)
    requires ev > 0.0
    ensures n as real * ev >= 0.0
  {}

  lemma TicketCountIsNatural(existing: real, minCredit: real, ev: real)
    requires ev > 0.0
    ensures TicketCount(existing, minCredit, ev) >= 0
    ensures existing < minCredit ==> TicketCount(existing, minCredit, ev) >= 1
  {
    if existing < minCredit {
      TicketCountIsLeast(existing, minCredit, ev, 0);
    }
  }

  /** The most credit a 64-bit number of tickets can stand for reaches the gap. */
  predicate GapFits(existing: real, minCredit: real, ev: real) {
    minCredit - existing <= MAX_INT64 as real * ev
  }

  lemma GapFitsIff(existing: real, minCredit: real, ev: real)
    requires ev > 0.0
    ensures GapFits(existing, minCredit, ev) <==> TicketCount(existing, minCredit, ev) < TWO_63
  {
    if existing < minCredit {
      TicketCountIsLeast(existing, minCredit, ev, MAX_INT64);
    }
  }

  /** The staged credit covers the requested minimum exactly when the missing credit is at most
      2^63 - 1 tickets; beyond, the count wraps to too few tickets. */
  lemma StagedCreditCovers(existing: real, minCredit: real, ev: real)
    requires ev > 0.0
    ensures existing + Int64(TicketCount(existing, minCredit, ev)) as real * ev >= minCredit <==>
              GapFits(existing, minCredit, ev)
  {
    GapFitsIff(existing, minCredit, ev);
    TicketCountIsNatural(existing, minCredit, ev);
    if existing < minCredit {
      TicketCountIsLeast(existing, minCredit, ev, Int64(TicketCount(existing, minCredit, ev)));
    }
  }

  /** A fee of 2^63 at one unit per ticket is staged as -2^63 tickets. */
  lemma WrappedCountDoesNotCover()
    ensures var n := TicketCount(0.0, TWO_63 as real, 1.0);
            n == TWO_63 && Int64(n) == -TWO_63 && Int64(n) as real * 1.0 < TWO_63 as real
  {
    TicketCountIsLeast(0.0, TWO_63 as real, 1.0, TWO_63);
    TicketCountIsLeast(0.0, TWO_63 as real, 1.0, TWO_63 - 1);
  }

  /** The staged credit overshoots the minimum by less than one ticket. */
  lemma StagedCreditIsTight(existing: real, minCredit: real, ev: real)
    requires ev > 0.0
    requires existing < minCredit
    requires GapFits(existing, minCredit, ev)
    ensures var n := TicketCount(existing, minCredit, ev);
            n >= 1 && existing + Int64(n) as real * ev < minCredit + ev
  {
    var n := TicketCount(existing, minCredit, ev);
    GapFitsIff(existing, minCredit, ev);
    TicketCountIsNatural(existing, minCredit, ev);
    TicketCountIsLeast(existing, minCredit, ev, n - 1);
  }

  /** The size of the batch of tickets and the credit it stands for. */
  function Batch(existing: real, minCredit: real, ev: real): (int, real)
    requires ev != 0.0 || existing >= minCredit
  {
    var size := Int64(TicketCount(existing, minCredit, ev));
    (size, size as real * ev)
  }

  lemma BatchIsLeast(existing: real, minCredit: real, ev: real)
    ensures ev > 0.0 && GapFits(existing, minCredit, ev) ==>
              forall n: nat :: Reaches(existing, n, ev, minCredit) <==> n >= Batch(existing, minCredit, ev).0
  {
    if ev > 0.0 && GapFits(existing, minCredit, ev) {
      GapFitsIff(existing, minCredit, ev);
      TicketCountIsNatural(existing, minCredit, ev);
      forall n: nat ensures Reaches(existing, n, ev, minCredit) <==> n >= Batch(existing, minCredit, ev).0 {
        TicketCountIsLeast(existing, minCredit, ev, n);
      }
    }
  }

  /** What staging reports: the batch and the reserved credit. */
  datatype Reservation = Reservation(size: int, newCredit: real, existing: real)

  /** The balance of one broadcast session: one stream of one address. */
  class Balance {
    const id: ManifestID
    const balances: Balances

    constructor (id: ManifestID, balances: Balances)
      ensures this.id == id && this.balances == balances
    {
      this.id := id;
      this.balances := balances;
    }

    method Credit(amount: real)
      modifies balances
      ensures balances.balances == old(balances.balances)[id := old(balances.Amount(id)) + amount]
    {
      balances.Credit(id, amount);
    }

    /** Reserves the current balance and says how many tickets the payment needs: none if the
        balance reaches the minimum, otherwise the fewest that reach it, as long as that number
        fits 64 bits. The source divides by the value of a ticket, and panics, exactly when that is zero and the
        reserved credit falls short; the balance is then already reserved. */
    method StageUpdate(minCredit: real, ev: real) returns (r: Option<Reservation>)
      modifies balances
      ensures balances.balances == old(balances.balances)[id := 0.0]
      ensures r.None? <==> ev == 0.0 && old(balances.Amount(id)) < minCredit
      ensures r.Some? ==>
                var existing := old(balances.Amount(id));
                && r.value.existing == existing
                && r.value.size == Batch(existing, minCredit, ev).0
                && r.value.newCredit == Batch(existing, minCredit, ev).1
                && (existing >= minCredit ==> r.value.size == 0 && r.value.newCredit == 0.0)
                && (ev > 0.0 && GapFits(existing, minCredit, ev) ==>
                      forall n: nat :: Reaches(existing, n, ev, minCredit) <==> n >= r.value.size)
    {
      var existing := balances.Reserve(id);
      BatchIsLeast(existing, minCredit, ev);
      if existing >= minCredit {
        return Some(Reservation(0, 0.0, existing));
      }
      if ev == 0.0 {
        return None;
      }
      var sizeRat := (minCredit - existing) / ev;
      var res := sizeRat.Floor;
      if sizeRat != res as real {
        res := res + 1;
      }
      assert res == TicketCount(existing, minCredit, ev);
      var size := Int64(res);
      r := Some(Reservation(size, size as real * ev, existing));
    }
  }
}
