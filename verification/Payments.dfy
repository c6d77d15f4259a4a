/** The orchestrator's side of a payment (core/orchestrator.go): tickets are credited, fees
    debited, and the balance checked before a segment is accepted. */
module Payments {
  import opened Accounting

  /** What `ReceiveTicket` reported for one ticket. */
  datatype Receipt = Accepted | Rejected | Fatal

  datatype Payment =
    | NoTickets
    | Unusable
    | Tickets(ev: real, receipts: seq<Receipt>)

  /** The tickets before the first one that was not accepted. */
  function AcceptedPrefix(rs: seq<Receipt>): (n: nat)
    ensures n <= |rs|
    ensures forall i :: 0 <= i < n ==> rs[i].Accepted?
    ensures n < |rs| ==> !rs[n].Accepted?
  {
    if rs != [] && rs[0].Accepted? then 1 + AcceptedPrefix(rs[1..]) else 0
  }

  lemma {:induction false} AcceptedPrefixIs(rs: seq<Receipt>, i: nat)
    requires i <= |rs| && (i < |rs| ==> !rs[i].Accepted?)
    requires forall k :: 0 <= k < i ==> rs[k].Accepted?
    ensures AcceptedPrefix(rs) == i
  {
    var n := AcceptedPrefix(rs);
    assert n <= i && i <= n;
  }

  /** The value of `n` tickets, added up one by one. */
  function Worth(n: nat, ev: real): real {
    if n == 0 then 0.0 else Worth(n - 1, ev) + ev
  }

  lemma {:induction false} WorthIsProduct(n: nat, ev: real)
    ensures Worth(n, ev) == n as real * ev
  {
    if n > 0 {
      WorthIsProduct(n - 1, ev);
    }
  }

  /** A payment succeeds without tickets, or when all of them are accepted. */
  predicate Processed(payment: Payment) {
    payment.NoTickets? || (payment.Tickets? && AcceptedPrefix(payment.receipts) == |payment.receipts|)
  }

  /** Every ticket is received, but only those before the first error are credited: after an
      error the payment fails and later tickets earn nothing, accepted or not. */
  method ProcessPayment(balances: Balances, id: ManifestID, payment: Payment) returns (ok: bool)
    modifies balances
    ensures !payment.Tickets? ==> balances.balances == old(balances.balances)
    ensures ok <==> Processed(payment)
    ensures payment.Tickets? ==>
              balances.Amount(id) ==
                old(balances.Amount(id)) + AcceptedPrefix(payment.receipts) as real * payment.ev
    ensures forall other :: other != id ==> balances.Amount(other) == old(balances.Amount(other))
  {
    if payment.NoTickets? {
      return true;
    }
    if payment.Unusable? {
      return false;
    }
    ghost var before := balances.Amount(id);
    var failed, i := false, 0;
    ghost var n := 0;
    while i < |payment.receipts|
      invariant 0 <= n <= i <= |payment.receipts| && (!failed ==> n == i)
      invariant forall k :: 0 <= k < n ==> payment.receipts[k].Accepted?
      invariant failed ==> n < i && !payment.receipts[n].Accepted?
      invariant balances.Amount(id) == before + Worth(n, payment.ev)
      invariant forall other :: other != id ==> balances.Amount(other) == old(balances.Amount(other))
    {
      var receipt := payment.receipts[i];
      i := i + 1;
      if !receipt.Accepted? {
        failed := true;
      }
      if receipt.Fatal? {
        break;
      }
      if !failed {
        balances.Credit(id, payment.ev);
        n := n + 1;
      }
    }
    WorthIsProduct(n, payment.ev);
    AcceptedPrefixIs(payment.receipts, n);
    ok := !failed;
  }

  /** A stream without any balance never suffices, not even when nothing is required. */
  method SufficientBalance(balances: Balances, id: ManifestID, required: real) returns (ok: bool)
    ensures ok <==> id in balances.balances && balances.Amount(id) >= required
  {
    var balance := balances.Balance(id);
    ok := balance.Some? && balance.value >= required;
  }

  // ---------------------------------------------------------------- the price a payment claims

  /** The price the payment claims to be for; without one both numbers read as 0. */
  datatype Price = Price(pricePerUnit: int, pixelsPerUnit: int)

  /** The balance is looked at only for a claimed price above 0. */
  predicate BalanceSuffices(price: Price, known: bool, amount: real, required: real) {
    price.pricePerUnit > 0 ==> known && amount >= required
  }

  /** Tickets are not looked at when the price cannot be read; without tickets the price is not
      looked at. */
  function Priced(payment: Payment, price: Price): Payment {
    if payment.Tickets? && price.pixelsPerUnit == 0 then Unusable else payment
  }

  /** Whether a segment goes on to transcoding: its payment is processed, and its price asks for
      no more than the balance holds. Only without tickets does it do so at an unreadable price. */
  method AdmitSegment(balances: Balances, id: ManifestID, payment: Payment, price: Price, required: real)
    returns (admitted: bool)
    modifies balances
    ensures admitted <==>
              && (|| payment.NoTickets?
                  || (payment.Tickets? && price.pixelsPerUnit != 0 &&
                      forall i :: 0 <= i < |payment.receipts| ==> payment.receipts[i].Accepted?))
              && (price.pricePerUnit > 0 ==> id in balances.balances && balances.Amount(id) >= required)
    ensures admitted <==>
              && Processed(Priced(payment, price))
              && BalanceSuffices(price, id in balances.balances, balances.Amount(id), required)
    ensures balances.Amount(id) == old(balances.Amount(id)) +
              if payment.Tickets? && price.pixelsPerUnit != 0
              then AcceptedPrefix(payment.receipts) as real * payment.ev else 0.0
    ensures forall other :: other != id ==> balances.Amount(other) == old(balances.Amount(other))
  {
    admitted := ProcessPayment(balances, id, Priced(payment, price));
    if admitted && price.pricePerUnit > 0 {
      admitted := SufficientBalance(balances, id, required);
    }
  }

  /** Admission means that the balance suffices, whatever it is, exactly for a claimed price
      above 0. A payment without tickets is processed whatever price it claims. */
  lemma AdmissionIffPriced(price: Price, required: real)
    ensures (forall known, amount :: BalanceSuffices(price, known, amount, required) ==> known && amount >= required)
              <==> price.pricePerUnit > 0
  {
    if price.pricePerUnit <= 0 {
      assert BalanceSuffices(price, false, required, required);
    }
  }

  function FeeFor(price: Price, pixels: int): real
    requires price.pixelsPerUnit != 0
  {
    price.pricePerUnit as real / price.pixelsPerUnit as real * pixels as real
  }

  /** Debits the fee for the pixels. The source divides by the claimed pixels per unit and
      panics, before it touches the balance, exactly when they are 0. */
  method DebitFees(balances: Balances, id: ManifestID, price: Price, pixels: int) returns (panicked: bool)
    modifies balances
    ensures panicked <==> price.pixelsPerUnit == 0
    ensures panicked ==> balances.balances == old(balances.balances)
    ensures !panicked ==>
              balances.Amount(id) * price.pixelsPerUnit as real ==
                old(balances.Amount(id)) * price.pixelsPerUnit as real - (price.pricePerUnit * pixels) as real
    ensures !panicked ==> balances.Amount(id) == old(balances.Amount(id)) - FeeFor(price, pixels)
    ensures forall other :: other != id ==> balances.Amount(other) == old(balances.Amount(other))
  {
    if price.pixelsPerUnit == 0 {
      return true;
    }
    panicked := false;
    FeeScaled(price.pricePerUnit, price.pixelsPerUnit, pixels);
    balances.Debit(id, FeeFor(price, pixels));
    Distribute(old(balances.Amount(id)), FeeFor(price, pixels), price.pixelsPerUnit as real);
  }

  /** A debit lowers the balance or leaves it exactly when price times pixels is not negative. */
  lemma FeeIsNotNegativeIff(price: Price, pixels: int)
    requires price.pixelsPerUnit != 0
    ensures FeeFor(price, pixels) >= 0.0 <==>
              (if price.pixelsPerUnit > 0 then price.pricePerUnit * pixels >= 0 else price.pricePerUnit * pixels <= 0)
  {
    FeeScaled(price.pricePerUnit, price.pixelsPerUnit, pixels);
    SignOfProduct(FeeFor(price, pixels), price.pixelsPerUnit as real);
  }

  lemma SignOfProduct(a: real, b: real)
    ensures b > 0.0 ==> (a * b >= 0.0 <==> a >= 0.0)
    ensures b < 0.0 ==> (a * b <= 0.0 <==> a >= 0.0)
  {}

  /** A payment without tickets and price is admitted over any balance, and its debit panics;
      with a negative price, the debit raises the balance. */
  lemma TicketlessPayments(known: bool, amount: real, required: real, pixels: nat)
    ensures var unpriced := Price(0, 0);
            && Processed(Priced(NoTickets, unpriced)) && BalanceSuffices(unpriced, known, amount, required)
            && unpriced.pixelsPerUnit == 0
    ensures var negative := Price(-1, 1);
            && Processed(Priced(NoTickets, negative)) && BalanceSuffices(negative, known, amount, required)
            && FeeFor(negative, pixels) == -(pixels as real)
  {}

  lemma FeeScaled(pricePerUnit: int, pixelsPerUnit: int, pixels: int)
    requires pixelsPerUnit != 0
    ensures pricePerUnit as real / pixelsPerUnit as real * pixels as real * pixelsPerUnit as real ==
              (pricePerUnit * pixels) as real
  {
    var price := pricePerUnit as real / pixelsPerUnit as real;
    assert price * pixelsPerUnit as real == pricePerUnit as real;
    assert price * pixels as real * pixelsPerUnit as real ==
           price * pixelsPerUnit as real * pixels as real;
  }

  lemma Distribute(a: real, b: real, c: real)
    ensures (a - b) * c == a * c - b * c
    ensures (b - a) * c == b * c - a * c
  {}
}
