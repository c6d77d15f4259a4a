/** The two ledgers of one broadcast session, and everything that can happen to them. The
    broadcaster stages and settles updates; the orchestrator receives the tickets of a payment
    one by one, admits the segment, and charges for what it answers. Submissions run
    concurrently, so that these steps interleave, and a reply can be lost at any point. */
module Ledger {
  import opened Base
  import opened Accounting
  import opened Segments
  import Payments
  import TicketParams

  /** `receipts`, `admitted` and `service` say how far the orchestrator got with the segment,
      `reply` how the submission ended for the broadcaster; `credit` and `fee` are what the
      orchestrator booked on its account, `change` what the broadcaster booked at its end. */
  datatype Submission = Submission(
    update: BalanceUpdate, ev: real, price: real,
    receipts: seq<Payments.Receipt>, admitted: bool, service: Option<Service>, reply: Option<Reply>,
    credit: real, fee: real, change: real)

  /** `known` tells whether the orchestrator holds any balance for the stream. */
  datatype Ledgers = Ledgers(broadcaster: real, orchestrator: real, known: bool, subs: seq<Submission>)

  datatype Event =
    | Stage(fee: real, ev: real, price: real)
    | Receive(i: nat, receipt: Payments.Receipt)
    | Admit(i: nat, required: real)
    | Serve(i: nat, service: Service)
    | Settle(i: nat, reply: Reply)

  /** A count of tickets that is not positive sends none. */
  function Sent(u: BalanceUpdate): nat { if u.numTickets > 0 then u.numTickets else 0 }

  predicate AllAccepted(rs: seq<Payments.Receipt>) { Payments.AcceptedPrefix(rs) == |rs| }

  predicate FullyPaid(sub: Submission) {
    |sub.receipts| == Sent(sub.update) && AllAccepted(sub.receipts)
  }

  /** The orchestrator may still be at work on the segment: no reply yet, or one given up on. */
  predicate Handling(sub: Submission) {
    sub.reply.None? || sub.reply.value.SendFailed? || sub.reply.value.BodyUnread?
  }

  /** How a submission can end, given how far the orchestrator got with it. */
  predicate ReplyFits(sub: Submission, reply: Reply) {
    match reply
    case PaymentFailed => sub.receipts == [] && !sub.admitted && sub.service.None?
    case RequestFailed => sub.receipts == [] && !sub.admitted && sub.service.None?
    case SendFailed => true
    case Refused => sub.service.None?
    case BodyUnread => sub.admitted
    case Unparsed => sub.service.Some?
    case UnknownAnswer => sub.service.Some?
    case ErrorAnswer => sub.service.Some? && Answer(sub.service.value).None?
    case Results(pixels) => sub.service.Some? && Answer(sub.service.value) == Some(pixels)
  }

  predicate Enabled(s: Ledgers, e: Event) {
    match e
    case Stage(fee, ev, _) => !Panics(s.broadcaster, fee, ev)
    case Receive(i, _) =>
      && i < |s.subs| && Handling(s.subs[i]) && !s.subs[i].admitted
      && |s.subs[i].receipts| < Sent(s.subs[i].update) && Payments.Fatal !in s.subs[i].receipts
    case Admit(i, required) =>
      && i < |s.subs| && Handling(s.subs[i]) && !s.subs[i].admitted && FullyPaid(s.subs[i])
      && (s.subs[i].price > 0.0 ==> s.known && s.orchestrator >= required)
    case Serve(i, _) =>
      i < |s.subs| && Handling(s.subs[i]) && s.subs[i].admitted && s.subs[i].service.None?
    case Settle(i, reply) => i < |s.subs| && s.subs[i].reply.None? && ReplyFits(s.subs[i], reply)
  }

  /** A ticket earns credit only if all before it did. */
  predicate Earns(sub: Submission, receipt: Payments.Receipt) {
    AllAccepted(sub.receipts) && receipt.Accepted?
  }

  function SettledBy(sub: Submission, reply: Reply): real {
    Settlement(Finished(sub.update, Some(sub.price), reply))
  }

  function Step(s: Ledgers, e: Event): Ledgers
    requires Enabled(s, e)
  {
    match e
    case Stage(fee, ev, price) =>
      var u := StagedUpdate(s.broadcaster, fee, ev);
      s.(broadcaster := 0.0,
         subs := s.subs + [Submission(u, ev, price, [], false, None, None, 0.0, 0.0, 0.0)])
    case Receive(i, receipt) =>
      var sub := s.subs[i];
      var earned := if Earns(sub, receipt) then sub.ev else 0.0;
      s.(orchestrator := s.orchestrator + earned,
         known := s.known || Earns(sub, receipt),
         subs := s.subs[i := sub.(receipts := sub.receipts + [receipt], credit := sub.credit + earned)])
    case Admit(i, _) => s.(subs := s.subs[i := s.subs[i].(admitted := true)])
    case Serve(i, service) =>
      var sub := s.subs[i];
      var fee := Charge(service) as real * sub.price;
      s.(orchestrator := s.orchestrator - fee,
         known := true,
         subs := s.subs[i := sub.(service := Some(service), fee := sub.fee + fee)])
    case Settle(i, reply) =>
      var sub := s.subs[i];
      var change := SettledBy(sub, reply);
      s.(broadcaster := s.broadcaster + change,
         subs := s.subs[i := sub.(reply := Some(reply), change := sub.change + change)])
  }

  predicate Runs(s: Ledgers, run: seq<Event>)
    decreases |run|
  {
    run == [] || (Enabled(s, run[0]) && Runs(Step(s, run[0]), run[1..]))
  }

  function After(s: Ledgers, run: seq<Event>): Ledgers
    requires Runs(s, run)
    decreases |run|
  {
    if run == [] then s else After(Step(s, run[0]), run[1..])
  }

  // ---------------------------------------------------------------- conservation

  /** How much more the orchestrator holds than the broadcaster on account of one submission. */
  function Held(sub: Submission): real { sub.update.existingCredit + sub.credit - sub.fee - sub.change }

  function Total(f: Submission -> real, subs: seq<Submission>): real {
    if subs == [] then 0.0 else f(subs[0]) + Total(f, subs[1..])
  }

  lemma {:induction false} TotalUpdate(f: Submission -> real, subs: seq<Submission>, i: nat, sub: Submission)
    requires i < |subs|
    ensures Total(f, subs[i := sub]) == Total(f, subs) - f(subs[i]) + f(sub)
  {
    if i > 0 {
      TotalUpdate(f, subs[1..], i - 1, sub);
    }
  }

  lemma {:induction false} TotalAppend(f: Submission -> real, subs: seq<Submission>, sub: Submission)
    ensures Total(f, subs + [sub]) == Total(f, subs) + f(sub)
  {
    if subs != [] {
      assert (subs + [sub])[1..] == subs[1..] + [sub];
      TotalAppend(f, subs[1..], sub);
    }
  }

  lemma {:induction false} TotalSame(f: Submission -> real, g: Submission -> real, subs: seq<Submission>)
    requires forall i :: 0 <= i < |subs| ==> f(subs[i]) == g(subs[i])
    ensures Total(f, subs) == Total(g, subs)
  {
    if subs != [] {
      TotalSame(f, g, subs[1..]);
    }
  }

  /** The ledgers differ by what the submissions account for, beyond what they differed by
      when there were none. */
  ghost predicate Conserved(s: Ledgers, gap: real) {
    s.orchestrator == s.broadcaster + gap + Total(Held, s.subs)
  }

  /** A step that changes one submission conserves if it moves the balances by as much as it
      moves what that submission accounts for. */
  lemma ReplaceConserves(s: Ledgers, gap: real, i: nat, sub: Submission, b: real, o: real, known: bool)
    requires i < |s.subs| && Conserved(s, gap)
    requires o - b == s.orchestrator - s.broadcaster + Held(sub) - Held(s.subs[i])
    ensures Conserved(Ledgers(b, o, known, s.subs[i := sub]), gap)
  {
    TotalUpdate(Held, s.subs, i, sub);
  }

  lemma StepConserves(s: Ledgers, gap: real, e: Event)
    requires Enabled(s, e) && Conserved(s, gap)
    ensures Conserved(Step(s, e), gap)
  {
    var s' := Step(s, e);
    if e.Stage? {
      TotalAppend(Held, s.subs, s'.subs[|s.subs|]);
    } else {
      ReplaceConserves(s, gap, e.i, s'.subs[e.i], s'.broadcaster, s'.orchestrator, s'.known);
    }
  }

  /** A fully paid segment is admitted whatever the balance if its price is not positive, and
      otherwise exactly over a known and sufficient balance. */
  lemma AdmissionDepends(s: Ledgers, i: nat, required: real)
    requires i < |s.subs| && Handling(s.subs[i]) && !s.subs[i].admitted && FullyPaid(s.subs[i])
    ensures s.subs[i].price <= 0.0 ==> Enabled(s, Admit(i, required))
    ensures s.subs[i].price > 0.0 ==> (Enabled(s, Admit(i, required)) <==> s.known && s.orchestrator >= required)
  {}

  /** Nothing is created or lost in any run, whatever fails: the ledgers always differ by what
      the single submissions account for, settled or not. */
  lemma {:induction false} EveryRunConserves(s: Ledgers, gap: real, run: seq<Event>)
    requires Runs(s, run) && Conserved(s, gap)
    ensures Conserved(After(s, run), gap)
    decreases |run|
  {
    if run != [] {
      StepConserves(s, gap, run[0]);
      EveryRunConserves(Step(s, run[0]), gap, run[1..]);
    }
  }

  // ---------------------------------------------------------------- what a reply says

  function Credited(sub: Submission): real { Payments.Worth(Payments.AcceptedPrefix(sub.receipts), sub.ev) }

  function Fee(sub: Submission): real {
    if sub.service.None? then 0.0 else Charge(sub.service.value) as real * sub.price
  }

  function Change(sub: Submission): real {
    if sub.reply.None? then 0.0 else SettledBy(sub, sub.reply.value)
  }

  /** The bookings are those of the tickets accepted, the pixels charged and the reply. */
  ghost predicate Booked(sub: Submission) {
    sub.credit == Credited(sub) && sub.fee == Fee(sub) && sub.change == Change(sub)
  }

  /** What control flow guarantees of a submission: segments are admitted only when all tickets
      were accepted, only admitted segments are served, and a reply reports what was served. */
  ghost predicate Ordered(sub: Submission) {
    && sub.update.status == Staged && sub.update.debit == 0.0
    && sub.update.newCredit == sub.update.numTickets as real * sub.ev
    && |sub.receipts| <= Sent(sub.update)
    && (sub.admitted ==> FullyPaid(sub))
    && (sub.service.Some? ==> sub.admitted)
    && (sub.reply.Some? ==> ReplyFits(sub, sub.reply.value))
  }

  ghost predicate Consistent(sub: Submission) { Booked(sub) && Ordered(sub) }

  /** A stream without a balance counts as zero. */
  predicate Opened(s: Ledgers) { !s.known ==> s.orchestrator == 0.0 }

  ghost predicate AllConsistent(s: Ledgers) {
    (forall i :: 0 <= i < |s.subs| ==> Consistent(s.subs[i])) && Opened(s)
  }

  lemma {:induction false} PrefixGrows(rs: seq<Payments.Receipt>, r: Payments.Receipt)
    ensures Payments.AcceptedPrefix(rs + [r]) ==
              Payments.AcceptedPrefix(rs) + if AllAccepted(rs) && r.Accepted? then 1 else 0
  {
    var n := Payments.AcceptedPrefix(rs);
    Payments.AcceptedPrefixIs(rs + [r], n + if AllAccepted(rs) && r.Accepted? then 1 else 0);
  }

  lemma CreditGrows(sub: Submission, receipt: Payments.Receipt)
    ensures Payments.Worth(Payments.AcceptedPrefix(sub.receipts + [receipt]), sub.ev) ==
              Credited(sub) + if Earns(sub, receipt) then sub.ev else 0.0
  {
    PrefixGrows(sub.receipts, receipt);
  }

  lemma StageKeepsConsistent(existing: real, fee: real, ev: real, price: real)
    requires !Panics(existing, fee, ev)
    ensures Consistent(Submission(StagedUpdate(existing, fee, ev), ev, price, [], false, None, None, 0.0, 0.0, 0.0))
  {}

  lemma ReceiveKeepsBooked(sub: Submission, receipt: Payments.Receipt)
    requires Booked(sub)
    ensures Booked(sub.(receipts := sub.receipts + [receipt],
                        credit := sub.credit + if Earns(sub, receipt) then sub.ev else 0.0))
  {
    CreditGrows(sub, receipt);
  }

  lemma ReceiveKeepsConsistent(s: Ledgers, i: nat, receipt: Payments.Receipt)
    requires Enabled(s, Receive(i, receipt)) && Consistent(s.subs[i])
    ensures Consistent(Step(s, Receive(i, receipt)).subs[i])
  {
    ReceiveKeepsBooked(s.subs[i], receipt);
    assert Ordered(Step(s, Receive(i, receipt)).subs[i]);
  }

  lemma ServeKeepsConsistent(s: Ledgers, i: nat, service: Service)
    requires Enabled(s, Serve(i, service)) && Consistent(s.subs[i])
    ensures Consistent(Step(s, Serve(i, service)).subs[i])
  {}

  lemma SettleKeepsConsistent(s: Ledgers, i: nat, reply: Reply)
    requires Enabled(s, Settle(i, reply)) && Consistent(s.subs[i])
    ensures Consistent(Step(s, Settle(i, reply)).subs[i])
  {}

  lemma StepKeepsConsistent(s: Ledgers, e: Event)
    requires Enabled(s, e) && AllConsistent(s)
    ensures AllConsistent(Step(s, e))
  {
    match e
    case Stage(fee, ev, price) => StageKeepsConsistent(s.broadcaster, fee, ev, price);
    case Receive(i, receipt) => ReceiveKeepsConsistent(s, i, receipt);
    case Admit(i, _) => assert Consistent(Step(s, e).subs[i]);
    case Serve(i, service) => ServeKeepsConsistent(s, i, service);
    case Settle(i, reply) => SettleKeepsConsistent(s, i, reply);
  }

  lemma {:induction false} RunKeepsConsistent(s: Ledgers, run: seq<Event>)
    requires Runs(s, run) && AllConsistent(s)
    ensures AllConsistent(After(s, run))
    decreases |run|
  {
    if run != [] {
      StepKeepsConsistent(s, run[0]);
      RunKeepsConsistent(Step(s, run[0]), run[1..]);
    }
  }

  /** Tickets booked as credit without being sent: none, unless the count wrapped below 0. */
  function Unsent(u: BalanceUpdate): int { u.numTickets - Sent(u) }

  /** What an answered submission costs the orchestrator's side of the ledger: pixels charged
      but not answered, and credit the broadcaster took back for tickets it never booked. */
  function Loss(sub: Submission): real
    requires sub.service.Some? && Answer(sub.service.value).Some?
  {
    LostPixels(sub.service.value) as real * sub.price + Unsent(sub.update) as real * sub.ev
  }

  /** What a settled submission leaves behind in the orchestrator's ledger, reply by reply. */
  function LeftBehind(sub: Submission): real
    requires sub.reply.Some? && ReplyFits(sub, sub.reply.value)
  {
    match sub.reply.value
    case PaymentFailed => 0.0
    case RequestFailed => 0.0
    case SendFailed => Credited(sub) - Fee(sub)
    case Refused => sub.update.existingCredit + Credited(sub)
    case BodyUnread => sub.update.existingCredit + Sent(sub.update) as real * sub.ev - Fee(sub)
    case Unparsed => sub.update.existingCredit + Sent(sub.update) as real * sub.ev - Fee(sub)
    case UnknownAnswer => sub.update.existingCredit + Sent(sub.update) as real * sub.ev - Fee(sub)
    case ErrorAnswer => sub.update.existingCredit + Sent(sub.update) as real * sub.ev - Fee(sub)
    case Results(_) => -Loss(sub)
  }

  lemma ResultsLeave(sub: Submission)
    requires Consistent(sub) && sub.reply.Some? && sub.reply.value.Results?
    ensures Held(sub) == -Loss(sub)
  {
    var service, u := sub.service.value, sub.update;
    var counted := Int64(Sum(Answer(service).value));
    assert sub.change == u.existingCredit + u.newCredit - counted as real * sub.price;
    Payments.WorthIsProduct(Sent(u), sub.ev);
    Payments.Distribute(Sent(u) as real, u.numTickets as real, sub.ev);
    Payments.Distribute(Charge(service) as real, counted as real, sub.price);
  }

  lemma HeldIsLeftBehind(sub: Submission)
    requires Consistent(sub) && sub.reply.Some?
    ensures Held(sub) == LeftBehind(sub)
  {
    if sub.reply.value.Results? {
      ResultsLeave(sub);
    } else {
      Payments.WorthIsProduct(Sent(sub.update), sub.ev);
    }
  }

  /** In flight: reserved credit, plus the credit delivered so far, less the fee if charged. */
  function Account(sub: Submission): real {
    if sub.reply.None? then sub.update.existingCredit + Credited(sub) - Fee(sub)
    else if ReplyFits(sub, sub.reply.value) then LeftBehind(sub)
    else 0.0
  }

  ghost predicate Fresh(s: Ledgers) {
    s.subs == [] && s.orchestrator == s.broadcaster && Opened(s)
  }

  /** Over every run from equal ledgers, whatever is refused, lost or failed, the difference of
      the ledgers is what is in flight plus what each reply leaves behind. */
  lemma EveryDifferenceIsExplained(s: Ledgers, run: seq<Event>)
    requires Fresh(s) && Runs(s, run)
    ensures var t := After(s, run); t.orchestrator == t.broadcaster + Total(Account, t.subs)
    ensures AllConsistent(After(s, run))
  {
    EveryRunConserves(s, 0.0, run);
    RunKeepsConsistent(s, run);
    var t := After(s, run);
    forall i | 0 <= i < |t.subs| ensures Held(t.subs[i]) == Account(t.subs[i]) {
      if t.subs[i].reply.Some? {
        HeldIsLeftBehind(t.subs[i]);
      }
    }
    TotalSame(Held, Account, t.subs);
  }

  /** After one submission the ledgers agree again exactly when its reply leaves nothing: an
      error answer or a lost reply does only if its fee used up all credit, a refusal only over
      no credit, and a failed send only if the orchestrator booked as much credit as fees behind
      its back. */
  lemma DriftOfOneSubmission(s: Ledgers, run: seq<Event>)
    requires Fresh(s) && Runs(s, run)
    requires |After(s, run).subs| == 1 && After(s, run).subs[0].reply.Some?
    ensures AllConsistent(After(s, run))
    ensures var t := After(s, run); t.orchestrator == t.broadcaster <==> LeftBehind(t.subs[0]) == 0.0
  {
    EveryDifferenceIsExplained(s, run);
    var t := After(s, run);
    assert Total(Account, t.subs) == Account(t.subs[0]) + Total(Account, []);
  }

  // ---------------------------------------------------------------- agreement

  /** Ended before the orchestrator saw anything of it. */
  predicate Dropped(sub: Submission) {
    sub.reply.Some? && NeverSent(sub.reply.value) && sub.receipts == [] && sub.service.None?
  }

  predicate Answered(sub: Submission) { sub.reply.Some? && sub.reply.value.Results? }

  /** Which submissions are meant: those answered with results, and those of which no ticket was
      received before they were given up. */
  lemma Classified(sub: Submission, pixels: seq<int>)
    ensures sub.reply == Some(Results(pixels)) ==> Answered(sub)
    ensures sub.reply.Some? && NeverSent(sub.reply.value) && sub.receipts == [] && sub.service.None? ==> Dropped(sub)
  {}

  ghost predicate DroppedOrAnswered(subs: seq<Submission>) {
    forall i :: 0 <= i < |subs| && subs[i].reply.Some? ==> Dropped(subs[i]) || Answered(subs[i])
  }

  function InFlight(sub: Submission): real {
    if sub.reply.None? then sub.update.existingCredit + Credited(sub) - Fee(sub) else 0.0
  }

  function Lost(sub: Submission): real {
    if Answered(sub) && sub.service.Some? && Answer(sub.service.value).Some? then Loss(sub) else 0.0
  }

  lemma {:induction false} AccountsSplit(subs: seq<Submission>)
    requires DroppedOrAnswered(subs)
    requires forall i :: 0 <= i < |subs| ==> Consistent(subs[i])
    ensures Total(Account, subs) == Total(InFlight, subs) - Total(Lost, subs)
  {
    if subs != [] {
      var sub := subs[0];
      assert Consistent(sub);
      assert Account(sub) == InFlight(sub) - Lost(sub);
      AccountsSplit(subs[1..]);
    }
  }

  lemma {:induction false} NothingInFlight(subs: seq<Submission>)
    requires forall i :: 0 <= i < |subs| ==> subs[i].reply.Some?
    ensures Total(InFlight, subs) == 0.0
  {
    if subs != [] {
      NothingInFlight(subs[1..]);
    }
  }

  /** In every interleaving of submissions that are dropped before delivery or answered with
      results, the ledgers differ by exactly what is in flight, less what was lost on the
      answers. With nothing in flight they agree if and only if nothing was lost. */
  lemma LedgersAgree(s: Ledgers, run: seq<Event>)
    requires Fresh(s) && Runs(s, run) && DroppedOrAnswered(After(s, run).subs)
    ensures var t := After(s, run);
            && t.orchestrator == t.broadcaster + Total(InFlight, t.subs) - Total(Lost, t.subs)
            && ((forall i :: 0 <= i < |t.subs| ==> t.subs[i].reply.Some?) ==>
                  (t.orchestrator == t.broadcaster <==> Total(Lost, t.subs) == 0.0))
  {
    EveryDifferenceIsExplained(s, run);
    var t := After(s, run);
    AccountsSplit(t.subs);
    if forall i :: 0 <= i < |t.subs| ==> t.subs[i].reply.Some? {
      NothingInFlight(t.subs);
    }
  }

  /** Nothing overflowed: the count of tickets did not wrap, and the pixels charged are not
      fewer than those answered. */
  predicate Ordinary(sub: Submission) {
    && sub.update.numTickets >= 0 && sub.price >= 0.0
    && (sub.service.Some? && Answer(sub.service.value).Some? ==> LostPixels(sub.service.value) >= 0)
  }

  /** So it is for prices that are not negative, with pixels that 64 bits can count. */
  lemma OrdinaryWhen(sub: Submission)
    requires sub.update.numTickets >= 0 && sub.price >= 0.0
    requires sub.service.Some? && sub.service.value.Renditions? ==>
               var rs := sub.service.value.rs;
               var sum := Sum(AnsweredPixels(rs));
               0 <= sum && (if HashLost(rs) then sum <= sum + rs[CleanPrefix(rs)].pixels < TWO_63 else sum < TWO_63)
    ensures Ordinary(sub)
  {}

  /** The answer lacks a rendition that was charged. */
  predicate Shorted(sub: Submission) {
    Answered(sub) && sub.service.Some? && LosesHash(sub.service.value) && sub.price > 0.0
  }

  lemma LostIff(sub: Submission)
    requires Consistent(sub) && Ordinary(sub)
    ensures Lost(sub) >= 0.0
    ensures Lost(sub) == 0.0 <==> !Shorted(sub)
  {
    if Answered(sub) {
      LostPixelsIff(sub.service.value);
      ProductPositive(LostPixels(sub.service.value), sub.price);
    }
  }

  lemma ProductPositive(n: nat, p: real)
    requires p >= 0.0
    ensures n as real * p >= 0.0
    ensures n as real * p == 0.0 <==> n == 0 || p == 0.0
  {}

  lemma {:induction false} LostTotals(subs: seq<Submission>)
    requires forall i :: 0 <= i < |subs| ==> Consistent(subs[i]) && Ordinary(subs[i])
    ensures Total(Lost, subs) >= 0.0
    ensures Total(Lost, subs) == 0.0 <==> forall i :: 0 <= i < |subs| ==> !Shorted(subs[i])
  {
    if subs != [] {
      LostIff(subs[0]);
      LostTotals(subs[1..]);
      assert forall i :: 0 <= i < |subs| ==> subs[i] == if i == 0 then subs[0] else subs[1..][i - 1];
    }
  }

  /** Without overflows the ledgers agree after any number of dropped or answered submissions
      exactly when no answer lacks a paid rendition because its hash was not saved. */
  lemma AgreementIsNoLostHash(s: Ledgers, run: seq<Event>)
    requires Fresh(s) && Runs(s, run) && DroppedOrAnswered(After(s, run).subs)
    requires forall i :: 0 <= i < |After(s, run).subs| ==>
               After(s, run).subs[i].reply.Some? && Ordinary(After(s, run).subs[i])
    ensures var t := After(s, run);
            t.orchestrator == t.broadcaster <==> forall i :: 0 <= i < |t.subs| ==> !Shorted(t.subs[i])
  {
    LedgersAgree(s, run);
    EveryDifferenceIsExplained(s, run);
    LostTotals(After(s, run).subs);
  }

  // ---------------------------------------------------------------- keeping service going

  function Delivery(i: nat, rs: seq<Payments.Receipt>): seq<Event> {
    if rs == [] then [] else [Receive(i, rs[0])] + Delivery(i, rs[1..])
  }

  /** Delivering tickets one by one credits those before the first error, as processing the
      payment in one go does, and nothing else. */
  lemma {:induction false} PaymentCredits(s: Ledgers, i: nat, rs: seq<Payments.Receipt>)
    requires i < |s.subs| && Handling(s.subs[i]) && !s.subs[i].admitted
    requires s.subs[i].credit == Credited(s.subs[i])
    requires |s.subs[i].receipts| + |rs| <= Sent(s.subs[i].update)
    requires rs != [] ==> Payments.Fatal !in s.subs[i].receipts
    requires forall k :: 0 <= k < |rs| - 1 ==> !rs[k].Fatal?
    ensures Runs(s, Delivery(i, rs))
    ensures var sub := s.subs[i];
            var credit := Payments.Worth(Payments.AcceptedPrefix(sub.receipts + rs), sub.ev);
            var t := After(s, Delivery(i, rs));
            && t.broadcaster == s.broadcaster
            && t.orchestrator == s.orchestrator + credit - sub.credit
            && t.subs == s.subs[i := sub.(receipts := sub.receipts + rs, credit := credit)]
            && t.known == (s.known || Payments.AcceptedPrefix(sub.receipts + rs) > Payments.AcceptedPrefix(sub.receipts))
    decreases |rs|
  {
    if rs == [] {
      assert s.subs[i].receipts + rs == s.subs[i].receipts;
    } else {
      var s' := Step(s, Receive(i, rs[0]));
      assert s'.subs[i].receipts + rs[1..] == s.subs[i].receipts + rs;
      CreditGrows(s.subs[i], rs[0]);
      PrefixGrows(s.subs[i].receipts, rs[0]);
      PrefixMonotone(s'.subs[i].receipts, rs[1..]);
      PaymentCredits(s', i, rs[1..]);
    }
  }

  lemma {:induction false} PrefixMonotone(rs: seq<Payments.Receipt>, more: seq<Payments.Receipt>)
    ensures Payments.AcceptedPrefix(rs + more) >= Payments.AcceptedPrefix(rs)
  {
    assert forall k :: 0 <= k < |rs| ==> (rs + more)[k] == rs[k];
  }

  /** One segment submitted while nothing else is in flight, answered with results. */
  datatype Job = Job(fee: real, ev: real, price: real, service: Service)

  /** Staging works out: no division by zero, and a number of tickets that fits 64 bits. */
  predicate Payable(s: Ledgers, job: Job) {
    && job.ev >= 0.0
    && !Panics(s.broadcaster, job.fee, job.ev)
    && GapFits(s.broadcaster, Max(job.fee, job.ev), job.ev)
  }

  function Accepts(n: nat): seq<Payments.Receipt> { seq(n, _ => Payments.Accepted) }

  lemma {:induction false} AcceptsAll(n: nat)
    ensures |Accepts(n)| == n && AllAccepted(Accepts(n))
  {
    Payments.AcceptedPrefixIs(Accepts(n), n);
  }

  /** The state after staging `u` for a job and delivering its tickets. */
  function PaidWith(s: Ledgers, job: Job, u: BalanceUpdate): Ledgers {
    var credit := Payments.Worth(Sent(u), job.ev);
    Ledgers(0.0, s.orchestrator + credit, s.known || Sent(u) > 0,
            s.subs + [Submission(u, job.ev, job.price, Accepts(Sent(u)), false, None, None, credit, 0.0, 0.0)])
  }

  lemma DeliveryReaches(s: Ledgers, job: Job, u: BalanceUpdate)
    ensures var sub := Submission(u, job.ev, job.price, [], false, None, None, 0.0, 0.0, 0.0);
            var staged := s.(broadcaster := 0.0, subs := s.subs + [sub]);
            && Runs(staged, Delivery(|s.subs|, Accepts(Sent(u))))
            && After(staged, Delivery(|s.subs|, Accepts(Sent(u)))) == PaidWith(s, job, u)
  {
    var sub := Submission(u, job.ev, job.price, [], false, None, None, 0.0, 0.0, 0.0);
    AcceptsAll(Sent(u));
    assert sub.receipts + Accepts(Sent(u)) == Accepts(Sent(u));
    PaymentCredits(s.(broadcaster := 0.0, subs := s.subs + [sub]), |s.subs|, Accepts(Sent(u)));
  }

  function Payment(s: Ledgers, job: Job, u: BalanceUpdate): seq<Event> {
    [Stage(job.fee, job.ev, job.price)] + Delivery(|s.subs|, Accepts(Sent(u)))
  }

  /** Staging a job and having every ticket accepted leads to that state. */
  lemma PaymentReaches(s: Ledgers, job: Job)
    requires Payable(s, job)
    ensures var u := StagedUpdate(s.broadcaster, job.fee, job.ev);
            Runs(s, Payment(s, job, u)) && After(s, Payment(s, job, u)) == AfterPayment(s, job)
  {
    var u := StagedUpdate(s.broadcaster, job.fee, job.ev);
    assert Payment(s, job, u)[1..] == Delivery(|s.subs|, Accepts(Sent(u)));
    DeliveryReaches(s, job, u);
  }

  /** The batch that pays for a job is sent whole and lifts the balance to fee and ticket value. */
  lemma BatchCovers(existing: real, minCredit: real, ev: real)
    requires ev > 0.0 || (ev == 0.0 && existing >= minCredit)
    requires GapFits(existing, minCredit, ev)
    ensures var batch := Batch(existing, minCredit, ev);
            batch.0 >= 0 && existing + batch.1 >= minCredit
  {
    if ev > 0.0 {
      GapFitsIff(existing, minCredit, ev);
      TicketCountIsNatural(existing, minCredit, ev);
      StagedCreditCovers(existing, minCredit, ev);
    }
  }

  ghost function AfterPayment(s: Ledgers, job: Job): Ledgers
    requires Payable(s, job)
  {
    PaidWith(s, job, StagedUpdate(s.broadcaster, job.fee, job.ev))
  }

  /** What staging for a payable job yields. */
  ghost predicate Covers(u: BalanceUpdate, existing: real, job: Job) {
    && u.existingCredit == existing && u.status == Staged && u.debit == 0.0
    && u.numTickets >= 0 && u.newCredit == Payments.Worth(u.numTickets, job.ev)
    && existing + u.newCredit >= Max(job.fee, job.ev)
  }

  lemma StagedCovers(s: Ledgers, job: Job)
    requires Payable(s, job)
    ensures Covers(StagedUpdate(s.broadcaster, job.fee, job.ev), s.broadcaster, job)
  {
    BatchCovers(s.broadcaster, Max(job.fee, job.ev), job.ev);
    Payments.WorthIsProduct(Batch(s.broadcaster, Max(job.fee, job.ev), job.ev).0, job.ev);
  }

  /** Right after the payment the orchestrator holds fee and ticket value, even when the balance
      was negative before, provided it held no less than the broadcaster. */
  lemma PaymentCovers(s: Ledgers, job: Job)
    requires Payable(s, job) && s.orchestrator >= s.broadcaster
    ensures AfterPayment(s, job).orchestrator >= Max(job.fee, job.ev)
  {
    StagedCovers(s, job);
  }

  predicate Admissible(p: Ledgers, required: real) {
    p.subs != [] && Enabled(p, Admit(|p.subs| - 1, required))
  }

  /** Admitting a paid segment, serving it, and settling it by the answer. */
  function Answering(p: Ledgers, service: Service, required: real): Ledgers
    requires Admissible(p, required) && Answer(service).Some?
    requires p.subs[|p.subs| - 1].reply.None? && p.subs[|p.subs| - 1].service.None?
  {
    var i := |p.subs| - 1;
    var admitted := Step(p, Admit(i, required));
    var served := Step(admitted, Serve(i, service));
    Step(served, Settle(i, Results(Answer(service).value)))
  }

  ghost function AfterJob(s: Ledgers, job: Job, required: real): Ledgers
    requires Payable(s, job) && Answer(job.service).Some? && Admissible(AfterPayment(s, job), required)
  {
    Answering(AfterPayment(s, job), job.service, required)
  }

  lemma AnsweringMoves(s: Ledgers, job: Job, u: BalanceUpdate, required: real)
    requires Covers(u, s.broadcaster, job) && Answer(job.service).Some?
    requires Admissible(PaidWith(s, job, u), required)
    ensures var t := Answering(PaidWith(s, job, u), job.service, required);
            && t.known
            && t.orchestrator == s.orchestrator + u.newCredit - Charge(job.service) as real * job.price
            && t.broadcaster == s.broadcaster + u.newCredit - Debit(Some(job.price), Answer(job.service).value)
  {}

  lemma AnsweringKeepsAgreement(s: Ledgers, job: Job, u: BalanceUpdate, required: real)
    requires Covers(u, s.broadcaster, job) && Answer(job.service).Some?
    requires Admissible(PaidWith(s, job, u), required)
    ensures var t := Answering(PaidWith(s, job, u), job.service, required);
            && Opened(t)
            && t.orchestrator - t.broadcaster ==
                 s.orchestrator - s.broadcaster - LostPixels(job.service) as real * job.price
  {
    AnsweringMoves(s, job, u, required);
    Payments.Distribute(Charge(job.service) as real, Int64(Sum(Answer(job.service).value)) as real, job.price);
  }

  /** A job keeps the difference of the ledgers, but for the pixels charged and not answered. */
  lemma JobKeepsAgreement(s: Ledgers, job: Job, required: real)
    requires Payable(s, job) && Answer(job.service).Some? && Admissible(AfterPayment(s, job), required)
    ensures var t := AfterJob(s, job, required);
            && Opened(t)
            && t.orchestrator - t.broadcaster ==
                 s.orchestrator - s.broadcaster - LostPixels(job.service) as real * job.price
  {
    StagedCovers(s, job);
    AnsweringKeepsAgreement(s, job, StagedUpdate(s.broadcaster, job.fee, job.ev), required);
  }

  /** The orchestrator admits every segment of the series. The series counts up to a segment
      that cannot be staged. */
  ghost predicate Served(s: Ledgers, jobs: seq<Job>, required: real)
    decreases |jobs|
  {
    jobs == [] || (Payable(s, jobs[0]) ==>
      && Admissible(AfterPayment(s, jobs[0]), required)
      && (Answer(jobs[0].service).Some? ==> Served(AfterJob(s, jobs[0], required), jobs[1..], required)))
  }

  /** A job at tickets worth at least `required` whose answer lacks nothing that is charged. */
  predicate Fair(job: Job, required: real) {
    && job.ev >= required && job.ev > 0.0
    && Answer(job.service).Some?
    && LostPixels(job.service) as real * job.price <= 0.0
  }

  lemma CoveredIsAdmitted(s: Ledgers, job: Job, u: BalanceUpdate, required: real)
    requires Opened(s) && s.orchestrator >= s.broadcaster
    requires Covers(u, s.broadcaster, job) && job.ev >= required && job.ev > 0.0
    ensures Admissible(PaidWith(s, job, u), required)
  {
    AcceptsAll(Sent(u));
  }

  lemma FairJobIsAdmitted(s: Ledgers, job: Job, required: real)
    requires Opened(s) && s.orchestrator >= s.broadcaster
    requires Payable(s, job) && job.ev >= required && job.ev > 0.0
    ensures Admissible(AfterPayment(s, job), required)
  {
    StagedCovers(s, job);
    CoveredIsAdmitted(s, job, StagedUpdate(s.broadcaster, job.fee, job.ev), required);
  }

  lemma FairJobIsServed(s: Ledgers, job: Job, required: real)
    requires Opened(s) && s.orchestrator >= s.broadcaster
    requires Payable(s, job) && Fair(job, required)
    ensures Admissible(AfterPayment(s, job), required)
    ensures var t := AfterJob(s, job, required); Opened(t) && t.orchestrator >= t.broadcaster
  {
    FairJobIsAdmitted(s, job, required);
    JobKeepsAgreement(s, job, required);
  }

  /** Service never stops for lack of credit in a sequential run, whatever the segments cost:
      each payment lifts the balance to at least the value of a ticket, also for a stream of
      which the orchestrator holds no balance yet. */
  lemma {:induction false} EverySegmentIsServed(s: Ledgers, jobs: seq<Job>, required: real)
    requires Opened(s) && s.orchestrator >= s.broadcaster
    requires forall i :: 0 <= i < |jobs| ==>
               && jobs[i].ev >= required && jobs[i].ev > 0.0 && Answer(jobs[i].service).Some?
               && LostPixels(jobs[i].service) as real * jobs[i].price <= 0.0
    ensures Served(s, jobs, required)
    decreases |jobs|
  {
    if jobs != [] && Payable(s, jobs[0]) {
      FairJobIsServed(s, jobs[0], required);
      EverySegmentIsServed(AfterJob(s, jobs[0], required), jobs[1..], required);
    }
  }

  const EMPTY_LEDGERS := Ledgers(0.0, 0.0, false, [])

  /** Jobs paid with tickets of value `ev`, answered in full. */
  ghost predicate AllAt(jobs: seq<Job>, ev: real) {
    forall i :: 0 <= i < |jobs| ==>
      jobs[i].ev == ev && Answer(jobs[i].service).Some? && LostPixels(jobs[i].service) == 0
  }

  lemma OneTicket(ev: real)
    requires ev >= 0.0
    ensures GapFits(0.0, ev, ev) && Batch(0.0, ev, ev) == (if ev > 0.0 then 1 else 0, ev)
  {
    if ev > 0.0 {
      TicketCountIsLeast(0.0, ev, ev, 1);
      TicketCountIsNatural(0.0, ev, ev);
    }
  }

  /** A new stream whose tickets are worth less than the orchestrator requires is not served. */
  lemma CheapTicketsFail(ev: real, required: real)
    requires 0.0 <= ev < required
    ensures !Served(EMPTY_LEDGERS, [Job(0.0, ev, 1.0, Renditions([]))], required)
  {
    var job := Job(0.0, ev, 1.0, Renditions([]));
    OneTicket(ev);
    var u := StagedUpdate(0.0, 0.0, ev);
    assert u == BalanceUpdate(if ev > 0.0 then 1 else 0, 0.0, ev, 0.0, Staged);
    assert Payments.Worth(Sent(u), ev) == ev;
  }

  /** With the recipient's own ticket parameters every series from empty ledgers is served if
      and only if the recipient's division is not exact in its low 64 bits only. */
  lemma {:induction false} OfferedTicketsServe(max: TicketParams.Denominator, ev: nat, faceValue: nat)
    requires 1 <= ev <= faceValue
    ensures var value := TicketParams.TicketEV(max, faceValue, TicketParams.WinProb(max, ev, faceValue));
            (forall jobs: seq<Job> | AllAt(jobs, value) :: Served(EMPTY_LEDGERS, jobs, ev as real)) <==>
              ev == faceValue || TicketParams.RemainderVisible(max, faceValue)
  {
    var value := TicketParams.TicketEV(max, faceValue, TicketParams.WinProb(max, ev, faceValue));
    TicketParams.TicketEVReachesRequirement(max, ev, faceValue);
    if ev == faceValue || TicketParams.RemainderVisible(max, faceValue) {
      forall jobs: seq<Job> | AllAt(jobs, value) ensures Served(EMPTY_LEDGERS, jobs, ev as real) {
        EverySegmentIsServed(EMPTY_LEDGERS, jobs, ev as real);
      }
    } else {
      var jobs := [Job(0.0, value, 1.0, Renditions([]))];
      assert AllAt(jobs, value);
      CheapTicketsFail(value, ev as real);
    }
  }

  /** One rendition of two pixels, where the fee was estimated for one. */
  const DENSE := Job(1.0, 1.0, 1.0, Renditions([Rendition(2, true, true, NoHash)]))

  /** A job whose answer costs more than the batch staged for it ends in debt. */
  lemma DenseJobEndsInDebt()
    ensures Payable(EMPTY_LEDGERS, DENSE) && Admissible(AfterPayment(EMPTY_LEDGERS, DENSE), 1.0)
    ensures Answer(DENSE.service).Some? && AfterJob(EMPTY_LEDGERS, DENSE, 1.0).broadcaster == -1.0
  {
    var rs := DENSE.service.rs;
    OneTicket(1.0);
    assert StagedUpdate(0.0, 1.0, 1.0) == BalanceUpdate(1, 0.0, 1.0, 0.0, Staged);
    assert CleanPrefix(rs) == 1 && rs[..1] == rs;
    assert AnsweredPixels(rs) == [2];
    assert Sum([2][..0]) == 0 && Sum([2]) == 2;
    FairJobIsAdmitted(EMPTY_LEDGERS, DENSE, 1.0);
    StagedCovers(EMPTY_LEDGERS, DENSE);
    AnsweringMoves(EMPTY_LEDGERS, DENSE, StagedUpdate(0.0, 1.0, 1.0), 1.0);
  }

  /** Offered price 0 and hence tickets of value 0, a session in debt makes the broadcaster divide
      by zero; the session of `DenseJobEndsInDebt` does so after its first segment. */
  lemma FreeOfferPanics(max: TicketParams.Denominator, cfg: TicketParams.Config,
                        gasPrice: nat, maxFloat: int, lastBlock: int)
    ensures var offer := TicketParams.Offer(max, cfg, gasPrice, maxFloat, 0.0, lastBlock);
            && offer.Ok?
            && var value := TicketParams.TicketEV(max, offer.value.faceValue, offer.value.winProb);
               && (forall balance :: Panics(balance, 0.0, value) <==> balance < 0.0)
               && (DenseJobEndsInDebt(); Panics(AfterJob(EMPTY_LEDGERS, DENSE, 1.0).broadcaster, 0.0, value))
  {
    DenseJobEndsInDebt();
  }
}
