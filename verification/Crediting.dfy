/** The ledgers and the nonce check together (core/orchestrator.go over pm/recipient.go): a ticket
    is credited when the recipient accepts it. */
module Crediting {
  import Ledger
  import Payments
  import Recipient

  /** `handed` are the recorded tickets whose outcome a payment has taken up, `credited` those of
      them that earned credit, by their place in the recipient's record. */
  datatype Joint = Joint(ledgers: Ledger.Ledgers, recipient: Recipient.System, handed: set<nat>, credited: seq<nat>)

  /** Steps of either part alone; a payment taking up the outcome of a recorded ticket; and a
      payment whose ticket was not recorded, as invalid or stale. */
  datatype Event =
    | OnLedgers(ledgerEvent: Ledger.Event)
    | OnRecipient(recipientEvent: Recipient.Event)
    | Hand(i: nat, k: nat)
    | Reject(i: nat, receipt: Payments.Receipt)

  function ReceiptOf(call: Recipient.Call): Payments.Receipt {
    if call.state.Accepted? then Payments.Accepted else Payments.Rejected
  }

  predicate Enabled(s: Joint, e: Event) {
    match e
    case OnLedgers(l) => !l.Receive? && Ledger.Enabled(s.ledgers, l)
    case OnRecipient(r) => Recipient.Enabled(s.recipient, r)
    case Hand(i, k) =>
      && k < |s.recipient.calls| && !s.recipient.calls[k].state.Pending? && k !in s.handed
      && Ledger.Enabled(s.ledgers, Ledger.Receive(i, ReceiptOf(s.recipient.calls[k])))
    case Reject(i, receipt) => !receipt.Accepted? && Ledger.Enabled(s.ledgers, Ledger.Receive(i, receipt))
  }

  /** What a step is for the ledgers, if anything. */
  function LedgerPart(s: Joint, e: Event): seq<Ledger.Event>
    requires Enabled(s, e)
  {
    match e
    case OnLedgers(l) => [l]
    case OnRecipient(_) => []
    case Hand(i, k) => [Ledger.Receive(i, ReceiptOf(s.recipient.calls[k]))]
    case Reject(i, receipt) => [Ledger.Receive(i, receipt)]
  }

  function RecipientPart(e: Event): seq<Recipient.Event> {
    if e.OnRecipient? then [e.recipientEvent] else []
  }

  function Step(expiry: Recipient.Rand -> Recipient.Block, s: Joint, e: Event): Joint
    requires Enabled(s, e)
  {
    match e
    case OnLedgers(l) => s.(ledgers := Ledger.Step(s.ledgers, l))
    case OnRecipient(r) => s.(recipient := Recipient.Step(expiry, s.recipient, r))
    case Hand(i, k) =>
      var receipt := ReceiptOf(s.recipient.calls[k]);
      s.(ledgers := Ledger.Step(s.ledgers, Ledger.Receive(i, receipt)),
         handed := s.handed + {k},
         credited := s.credited + if Ledger.Earns(s.ledgers.subs[i], receipt) then [k] else [])
    case Reject(i, receipt) => s.(ledgers := Ledger.Step(s.ledgers, Ledger.Receive(i, receipt)))
  }

  predicate Runs(expiry: Recipient.Rand -> Recipient.Block, s: Joint, run: seq<Event>)
    decreases |run|
  {
    run == [] || (Enabled(s, run[0]) && Runs(expiry, Step(expiry, s, run[0]), run[1..]))
  }

  function After(expiry: Recipient.Rand -> Recipient.Block, s: Joint, run: seq<Event>): Joint
    requires Runs(expiry, s, run)
    decreases |run|
  {
    if run == [] then s else After(expiry, Step(expiry, s, run[0]), run[1..])
  }

  function RecipientRun(run: seq<Event>): seq<Recipient.Event> {
    if run == [] then [] else RecipientPart(run[0]) + RecipientRun(run[1..])
  }

  function LedgerRun(expiry: Recipient.Rand -> Recipient.Block, s: Joint, run: seq<Event>): seq<Ledger.Event>
    requires Runs(expiry, s, run)
    decreases |run|
  {
    if run == [] then [] else LedgerPart(s, run[0]) + LedgerRun(expiry, Step(expiry, s, run[0]), run[1..])
  }

  /** A joint run is a run of the ledgers and a run of the recipient. */
  lemma {:induction false} JointRunProjects(expiry: Recipient.Rand -> Recipient.Block, s: Joint, run: seq<Event>)
    requires Runs(expiry, s, run)
    ensures Ledger.Runs(s.ledgers, LedgerRun(expiry, s, run))
    ensures After(expiry, s, run).ledgers == Ledger.After(s.ledgers, LedgerRun(expiry, s, run))
    ensures Recipient.Runs(expiry, s.recipient, RecipientRun(run))
    ensures After(expiry, s, run).recipient == Recipient.After(expiry, s.recipient, RecipientRun(run))
    decreases |run|
  {
    if run != [] {
      var s' := Step(expiry, s, run[0]);
      JointRunProjects(expiry, s', run[1..]);
      LedgerStepOrNone(expiry, s, run[0], LedgerRun(expiry, s', run[1..]));
      RecipientStepOrNone(expiry, s, run[0], RecipientRun(run[1..]));
    }
  }

  lemma LedgerStepOrNone(expiry: Recipient.Rand -> Recipient.Block, s: Joint, e: Event, rest: seq<Ledger.Event>)
    requires Enabled(s, e) && Ledger.Runs(Step(expiry, s, e).ledgers, rest)
    ensures Ledger.Runs(s.ledgers, LedgerPart(s, e) + rest)
    ensures Ledger.After(s.ledgers, LedgerPart(s, e) + rest) == Ledger.After(Step(expiry, s, e).ledgers, rest)
  {
    var part := LedgerPart(s, e);
    if part == [] {
      assert part + rest == rest;
    } else {
      assert (part + rest)[1..] == rest;
    }
  }

  lemma RecipientStepOrNone(expiry: Recipient.Rand -> Recipient.Block, s: Joint, e: Event, rest: seq<Recipient.Event>)
    requires Enabled(s, e) && Recipient.Runs(expiry, Step(expiry, s, e).recipient, rest)
    ensures Recipient.Runs(expiry, s.recipient, RecipientPart(e) + rest)
    ensures Recipient.After(expiry, s.recipient, RecipientPart(e) + rest) ==
              Recipient.After(expiry, Step(expiry, s, e).recipient, rest)
  {
    var part := RecipientPart(e);
    if part == [] {
      assert part + rest == rest;
    } else {
      assert (part + rest)[1..] == rest;
    }
  }

  // ---------------------------------------------------------------- what is credited

  /** Tickets for which a submission was credited. */
  function Tickets(sub: Ledger.Submission): real { Payments.AcceptedPrefix(sub.receipts) as real }

  /** Credited are different recorded tickets that were accepted and taken up. */
  ghost predicate Earned(s: Joint) {
    && (forall a :: 0 <= a < |s.credited| ==>
          var k := s.credited[a];
          k < |s.recipient.calls| && s.recipient.calls[k].state.Accepted? && k in s.handed)
    && (forall a, b :: 0 <= a < b < |s.credited| ==> s.credited[a] != s.credited[b])
  }

  lemma StepKeepsEarned(expiry: Recipient.Rand -> Recipient.Block, s: Joint, e: Event)
    requires Enabled(s, e) && Earned(s)
    ensures Earned(Step(expiry, s, e))
  {}

  ghost predicate Counted(s: Joint) { Ledger.Total(Tickets, s.ledgers.subs) == |s.credited| as real }

  lemma ReceiveCounts(ledgers: Ledger.Ledgers, i: nat, receipt: Payments.Receipt)
    requires Ledger.Enabled(ledgers, Ledger.Receive(i, receipt))
    ensures Ledger.Total(Tickets, Ledger.Step(ledgers, Ledger.Receive(i, receipt)).subs) ==
              Ledger.Total(Tickets, ledgers.subs) + if Ledger.Earns(ledgers.subs[i], receipt) then 1.0 else 0.0
  {
    Ledger.PrefixGrows(ledgers.subs[i].receipts, receipt);
    Ledger.TotalUpdate(Tickets, ledgers.subs, i, Ledger.Step(ledgers, Ledger.Receive(i, receipt)).subs[i]);
  }

  lemma OtherStepsCountNothing(ledgers: Ledger.Ledgers, e: Ledger.Event)
    requires Ledger.Enabled(ledgers, e) && !e.Receive?
    ensures Ledger.Total(Tickets, Ledger.Step(ledgers, e).subs) == Ledger.Total(Tickets, ledgers.subs)
  {
    if e.Stage? {
      Ledger.TotalAppend(Tickets, ledgers.subs, Ledger.Step(ledgers, e).subs[|ledgers.subs|]);
    } else {
      Ledger.TotalUpdate(Tickets, ledgers.subs, e.i, Ledger.Step(ledgers, e).subs[e.i]);
    }
  }

  lemma StepKeepsCounted(expiry: Recipient.Rand -> Recipient.Block, s: Joint, e: Event)
    requires Enabled(s, e) && Counted(s)
    ensures Counted(Step(expiry, s, e))
  {
    match e
    case OnLedgers(l) => OtherStepsCountNothing(s.ledgers, l);
    case OnRecipient(_) =>
    case Hand(i, k) => ReceiveCounts(s.ledgers, i, ReceiptOf(s.recipient.calls[k]));
    case Reject(i, receipt) => ReceiveCounts(s.ledgers, i, receipt);
  }

  lemma {:induction false} RunKeepsEarned(expiry: Recipient.Rand -> Recipient.Block, s: Joint, run: seq<Event>)
    requires Runs(expiry, s, run) && Earned(s) && Counted(s)
    ensures Earned(After(expiry, s, run)) && Counted(After(expiry, s, run))
    decreases |run|
  {
    if run != [] {
      StepKeepsEarned(expiry, s, run[0]);
      StepKeepsCounted(expiry, s, run[0]);
      RunKeepsEarned(expiry, Step(expiry, s, run[0]), run[1..]);
    }
  }

  function Start(ledgers: Ledger.Ledgers, block: Recipient.Block): Joint {
    Joint(ledgers, Recipient.Start(block), {}, [])
  }

  ghost predicate SameTicket(c: Recipient.Call, d: Recipient.Call) { c.rand == d.rand && c.nonce == d.nonce }

  /** In every joint run over a history of the chain without gaps, however payments interleave,
      the ledgers credit as many tickets as are listed, and no two of those are the same. */
  lemma NoTicketCreditedTwice(expiry: Recipient.Rand -> Recipient.Block, ledgers: Ledger.Ledgers,
                              block: Recipient.Block, run: seq<Event>, a: nat, b: nat)
    requires Ledger.Fresh(ledgers) && Runs(expiry, Start(ledgers, block), run)
    requires Recipient.GapFree(expiry, Recipient.Start(block), Recipient.HistoryOf(RecipientRun(run)))
    requires a < b < |After(expiry, Start(ledgers, block), run).credited|
    ensures var t := After(expiry, Start(ledgers, block), run);
            && Ledger.Total(Tickets, t.ledgers.subs) == |t.credited| as real
            && t.credited[a] < |t.recipient.calls| && t.credited[b] < |t.recipient.calls|
            && !SameTicket(t.recipient.calls[t.credited[a]], t.recipient.calls[t.credited[b]])
  {
    var s := Start(ledgers, block);
    RunKeepsEarned(expiry, s, run);
    JointRunProjects(expiry, s, run);
    var t := After(expiry, s, run);
    Recipient.ReplayProtectionIff(expiry, block, Recipient.HistoryOf(RecipientRun(run)));
    assert Recipient.NoReplay(t.recipient);
    var k, l := t.credited[a], t.credited[b];
    if k < l {
      assert !Recipient.Replayed(t.recipient, k, l);
    } else {
      assert !Recipient.Replayed(t.recipient, l, k);
    }
  }

  /** Taking up a ticket credits it exactly if it was accepted and all before it in the payment
      were; a ticket is taken up once, and only when its outcome is known. */
  lemma HandCredits(expiry: Recipient.Rand -> Recipient.Block, s: Joint, i: nat, k: nat)
    requires Enabled(s, Hand(i, k))
    ensures var t := Step(expiry, s, Hand(i, k));
            var earns := s.recipient.calls[k].state.Accepted? && Ledger.AllAccepted(s.ledgers.subs[i].receipts);
            && t.ledgers.orchestrator == s.ledgers.orchestrator + (if earns then s.ledgers.subs[i].ev else 0.0)
            && t.credited == (if earns then s.credited + [k] else s.credited)
            && !Enabled(t, Hand(i, k)) && !s.recipient.calls[k].state.Pending?
  {}

  /** The first payment of a stream: one ticket, recorded, checked and credited. */
  lemma FirstTicketIsCredited(expiry: Recipient.Rand -> Recipient.Block, rand: Recipient.Rand, block: Recipient.Block)
    requires block < expiry(rand)
    ensures var s := Start(Ledger.EMPTY_LEDGERS, block);
            var run := [OnLedgers(Ledger.Stage(1.0, 1.0, 1.0)), OnRecipient(Recipient.Update(rand, 1)),
                        OnRecipient(Recipient.Check(0)), Hand(0, 0)];
            && Runs(expiry, s, run)
            && After(expiry, s, run).credited == [0]
            && After(expiry, s, run).ledgers.orchestrator == 1.0
  {
    var s := Start(Ledger.EMPTY_LEDGERS, block);
    var e1 := OnLedgers(Ledger.Stage(1.0, 1.0, 1.0));
    var e2, e3 := OnRecipient(Recipient.Update(rand, 1)), OnRecipient(Recipient.Check(0));
    Ledger.OneTicket(1.0);
    var s1 := Step(expiry, s, e1);
    assert s1.ledgers.subs[0].update.numTickets == 1;
    var s2 := Step(expiry, s1, e2);
    assert s2.recipient.calls == [Recipient.Call(rand, 1, Recipient.Pending)];
    var s3 := Step(expiry, s2, e3);
    assert s3.recipient.calls == [Recipient.Call(rand, 1, Recipient.Accepted)];
    var s4 := Step(expiry, s3, Hand(0, 0));
    HandCredits(expiry, s3, 0, 0);
    assert Runs(expiry, s4, []) && [Hand(0, 0)] + [] == [Hand(0, 0)];
    PrependStep(expiry, s3, Hand(0, 0), []);
    PrependStep(expiry, s2, e3, [Hand(0, 0)]);
    PrependStep(expiry, s1, e2, [e3, Hand(0, 0)]);
    PrependStep(expiry, s, e1, [e2, e3, Hand(0, 0)]);
    assert [e3] + [Hand(0, 0)] == [e3, Hand(0, 0)];
    assert [e2] + [e3, Hand(0, 0)] == [e2, e3, Hand(0, 0)];
    assert [e1] + [e2, e3, Hand(0, 0)] == [e1, e2, e3, Hand(0, 0)];
  }

  lemma PrependStep(expiry: Recipient.Rand -> Recipient.Block, s: Joint, e: Event, rest: seq<Event>)
    requires Enabled(s, e) && Runs(expiry, Step(expiry, s, e), rest)
    ensures Runs(expiry, s, [e] + rest)
    ensures After(expiry, s, [e] + rest) == After(expiry, Step(expiry, s, e), rest)
  {
    assert ([e] + rest)[1..] == rest;
  }
}
