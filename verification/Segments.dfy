/** Paying for one segment: the broadcaster's balance update and the orchestrator's pixel
    count (server/segment_rpc.go). */
module Segments {
  import opened Base
  import opened Accounting

  datatype Status = Staged | CreditSpent | ReceivedChange

  datatype BalanceUpdate = BalanceUpdate(
    numTickets: int, existingCredit: real, newCredit: real, debit: real, status: Status)

  const EMPTY_UPDATE := BalanceUpdate(0, 0.0, 0.0, 0.0, Staged)

  function Max(x: real, y: real): (r: real)
    ensures r >= x && r >= y && (r == x || r == y)
  {
    if x < y then y else x
  }

  /** Staging divides a gap in the credit by a ticket value of zero. */
  predicate Panics(existing: real, fee: real, ev: real) { ev == 0.0 && existing < Max(fee, ev) }

  /** The update a balance of `existing` is turned into when a segment is expected to cost `fee`. */
  function StagedUpdate(existing: real, fee: real, ev: real): BalanceUpdate
    requires !Panics(existing, fee, ev)
  {
    var batch := Batch(existing, Max(fee, ev), ev);
    BalanceUpdate(batch.0, existing, batch.1, 0.0, Staged)
  }

  /** What finishing an update adds to the broadcaster's balance, from which `existingCredit`
      was taken when the update was staged. */
  function Settlement(u: BalanceUpdate): real {
    match u.status
    case Staged => u.existingCredit
    case CreditSpent => 0.0
    case ReceivedChange => u.existingCredit + u.newCredit - u.debit
  }

  /** What a session knows of its sender: none, one that does not know the payment session,
      or one that quotes the expected value of its tickets. */
  datatype Quote = NoSender | UnknownSession | TicketValue(ev: real)

  /** An update involves the ledger only when there is a sender, a balance and a fee. */
  predicate Charges(quote: Quote, balance: Balance?, fee: Option<real>) {
    !quote.NoSender? && balance != null && fee.Some?
  }

  /** What staging comes to: an update, the sender's error, or the failed division. */
  datatype Staging = Update(update: BalanceUpdate) | SessionError | DivisionByZero

  method NewBalanceUpdate(balance: Balance?, quote: Quote, fee: Option<real>) returns (r: Staging)
    modifies if balance == null then {} else {balance.balances}
    ensures quote.NoSender? || balance == null || fee.None? ==> r == Update(BalanceUpdate(0, 0.0, 0.0, 0.0, Staged))
    ensures r.SessionError? <==> quote.UnknownSession? && balance != null && fee.Some?
    ensures r.DivisionByZero? <==>
              && Charges(quote, balance, fee) && quote.TicketValue?
              && Panics(old(balance.balances.Amount(balance.id)), fee.value, quote.ev)
    ensures balance != null && !(Charges(quote, balance, fee) && quote.TicketValue?) ==>
              balance.balances.balances == old(balance.balances.balances)
    ensures !Charges(quote, balance, fee) ==> r == Update(EMPTY_UPDATE)
    ensures Charges(quote, balance, fee) && quote.TicketValue? ==>
              balance.balances.balances == old(balance.balances.balances)[balance.id := 0.0]
    ensures r.Update? && Charges(quote, balance, fee) ==>
              r.update == StagedUpdate(old(balance.balances.Amount(balance.id)), fee.value, quote.ev)
  {
    if quote.NoSender? || balance == null || fee.None? {
      return Update(EMPTY_UPDATE);
    }
    if quote.UnknownSession? {
      return SessionError;
    }
    var safeMinCredit := fee.value;
    if quote.ev > safeMinCredit {
      safeMinCredit := quote.ev;
    }
    var stage := balance.StageUpdate(safeMinCredit, quote.ev);
    if stage.None? {
      return DivisionByZero;
    }
    r := Update(BalanceUpdate(stage.value.size, stage.value.existing, stage.value.newCredit, 0.0, Staged));
  }

  method CompleteBalanceUpdate(balance: Balance?, u: BalanceUpdate)
    modifies if balance == null then {} else {balance.balances}
    ensures balance != null ==>
              balance.balances.Amount(balance.id) == old(balance.balances.Amount(balance.id)) + Settlement(u)
    ensures balance != null ==> forall id :: id != balance.id ==>
              balance.balances.Amount(id) == old(balance.balances.Amount(id))
  {
    if balance == null {
      return;
    }
    if u.status == Staged {
      balance.Credit(u.existingCredit);
      return;
    }
    if u.status != ReceivedChange {
      return;
    }
    var credit := u.existingCredit + u.newCredit;
    var change := credit - u.debit;
    balance.Credit(change);
  }

  /** How a submission ended, in the order in which the source can leave `SubmitSegment`. */
  datatype Reply =
    | PaymentFailed | RequestFailed | SendFailed
    | Refused | BodyUnread | Unparsed | ErrorAnswer | UnknownAnswer
    | Results(pixels: seq<int>)

  predicate NeverSent(reply: Reply) {
    reply.PaymentFailed? || reply.RequestFailed? || reply.SendFailed?
  }

  function Sum(xs: seq<int>): int {
    if xs == [] then 0 else Sum(xs[..|xs| - 1]) + xs[|xs| - 1]
  }

  /** It is the sum of its entries. */
  lemma {:induction false} SumJoins(a: seq<int>, b: seq<int>)
    ensures Sum(a + b) == Sum(a) + Sum(b)
    ensures forall x :: Sum([x]) == x
  {
    if b == [] {
      assert a + b == a;
    } else {
      assert (a + b)[..|a + b| - 1] == a + b[..|b| - 1];
      SumJoins(a, b[..|b| - 1]);
    }
  }

  /** What the answered pixels cost, counted in a 64-bit integer; nothing without a price. */
  function Debit(price: Option<real>, pixels: seq<int>): real {
    if price.None? then 0.0 else Int64(Sum(pixels)) as real * price.value
  }

  /** Without a price nothing is debited. */
  lemma NoPriceNoDebit(pixels: seq<int>)
    ensures Debit(None, pixels) == 0.0
  {}

  /** Otherwise it is the pixels at their price, as long as 64 bits hold their number. */
  lemma DebitIs(price: real, pixels: seq<int>)
    requires -TWO_63 <= Sum(pixels) < TWO_63
    ensures Debit(Some(price), pixels) == Sum(pixels) as real * price
  {}

  method CountPixels(pixels: seq<int>) returns (count: int)
    ensures count == Int64(Sum(pixels))
  {
    count := 0;
    for i := 0 to |pixels|
      invariant count == Int64(Sum(pixels[..i]))
    {
      assert pixels[..i + 1][..i] == pixels[..i];
      Int64Add(Sum(pixels[..i]), pixels[i]);
      count := Int64(count + pixels[i]);
    }
    assert pixels[..|pixels|] == pixels;
  }

  /** The update as it stands when `SubmitSegment` returns. */
  function Finished(u: BalanceUpdate, price: Option<real>, reply: Reply): BalanceUpdate {
    if NeverSent(reply) then u
    else if !reply.Results? then u.(status := CreditSpent)
    else u.(status := ReceivedChange, debit := Debit(price, reply.pixels))
  }

  /** Settling the finished update leaves the balance that `SubmitSegment` promises. */
  lemma FinishedSettles(before: real, fee: real, ev: real, price: Option<real>, reply: Reply)
    requires !Panics(before, fee, ev)
    ensures var u := StagedUpdate(before, fee, ev);
            Settlement(Finished(u, price, reply)) ==
              if NeverSent(reply) then before
              else if !reply.Results? then 0.0
              else before + u.newCredit - Debit(price, reply.pixels)
  {}

  /** The status changes of a submission, from sending it to counting the pixels of its answer. */
  method FinishUpdate(update: BalanceUpdate, price: Option<real>, reply: Reply) returns (u: BalanceUpdate)
    requires update.debit == 0.0
    ensures u == Finished(update, price, reply)
  {
    u := update;
    if !NeverSent(reply) {
      u := u.(status := CreditSpent);
      if reply.Results? {
        u := u.(status := ReceivedChange);
        if price.Some? {
          var pixelCount := CountPixels(reply.pixels);
          u := u.(debit := pixelCount as real * price.value);
        }
      }
    }
  }

  datatype Outcome = Transcoded | Failed | Panicked

  /** One submission, seen from the broadcaster's balance. A submission that was not sent leaves
      the balance as it was; one sent in vain forfeits all that was staged; one that brought
      results pays for the pixels in them out of the old balance and the new tickets; one that
      panics leaves the balance reserved. */
  method SubmitSegment(balance: Balance?, quote: Quote, fee: Option<real>, price: Option<real>, reply: Reply)
    returns (r: Outcome)
    modifies if balance == null then {} else {balance.balances}
    ensures r.Panicked? <==>
              && Charges(quote, balance, fee) && quote.TicketValue?
              && Panics(old(balance.balances.Amount(balance.id)), fee.value, quote.ev)
    ensures r.Transcoded? <==>
              reply.Results? && !r.Panicked? && !(Charges(quote, balance, fee) && quote.UnknownSession?)
    ensures balance != null ==> forall id :: id != balance.id ==>
              balance.balances.Amount(id) == old(balance.balances.Amount(id))
    ensures balance != null ==>
              var before := old(balance.balances.Amount(balance.id));
              var charged := Charges(quote, balance, fee);
              balance.balances.Amount(balance.id) ==
                if r.Panicked? then 0.0
                else if NeverSent(reply) || (charged && quote.UnknownSession?) then before
                else if !reply.Results? then if charged then 0.0 else before
                else if !charged then before - Debit(price, reply.pixels)
                else before + StagedUpdate(before, fee.value, quote.ev).newCredit - Debit(price, reply.pixels)
  {
    r := Failed;
    var staged := NewBalanceUpdate(balance, quote, fee);
    if !staged.Update? {
      return if staged.DivisionByZero? then Panicked else Failed;
    }
    var u := FinishUpdate(staged.update, price, reply);
    if reply.Results? {
      r := Transcoded;
    }
    CompleteBalanceUpdate(balance, u);
  }

  // ---------------------------------------------------------------- the orchestrator's answer

  /** What happens to one rendition on its way into the orchestrator's answer. */
  datatype Rendition = Rendition(pixels: int, formatKnown: bool, saved: bool, hash: HashUpload)
  datatype HashUpload = NoHash | HashSaved | HashFailed

  /** The upload stops at the first rendition that fails in any way. */
  predicate Uploaded(r: Rendition) { r.formatKnown && r.saved && !r.hash.HashFailed? }

  function CleanPrefix(rs: seq<Rendition>): nat
    ensures CleanPrefix(rs) <= |rs|
  {
    if rs != [] && Uploaded(rs[0]) then 1 + CleanPrefix(rs[1..]) else 0
  }

  function Pixels(rs: seq<Rendition>): (ps: seq<int>)
    ensures |ps| == |rs| && forall i :: 0 <= i < |rs| ==> ps[i] == rs[i].pixels
  {
    seq(|rs|, i requires 0 <= i < |rs| => rs[i].pixels)
  }

  lemma {:induction false} CleanPrefixEnds(rs: seq<Rendition>, i: nat)
    requires i <= |rs|
    requires forall k :: 0 <= k < i ==> Uploaded(rs[k])
    ensures i < |rs| && !Uploaded(rs[i]) ==> CleanPrefix(rs) == i
    ensures i == |rs| ==> CleanPrefix(rs) == i
  {
    if i > 0 {
      CleanPrefixEnds(rs[1..], i - 1);
    }
  }

  /** The rendition at which the upload stopped had its pixels counted but not answered. */
  predicate HashLost(rs: seq<Rendition>) {
    var n := CleanPrefix(rs);
    n < |rs| && rs[n].formatKnown && rs[n].saved
  }

  predicate FormatUnknown(rs: seq<Rendition>) {
    var n := CleanPrefix(rs);
    n < |rs| && !rs[n].formatKnown
  }

  function AnsweredPixels(rs: seq<Rendition>): seq<int> { Pixels(rs[..CleanPrefix(rs)]) }

  /** The charge counts one rendition more than the answer when the save of a perceptual hash
      fails. Both parties count in 64 bits. */
  function ChargedPixels(rs: seq<Rendition>): int {
    Int64(Sum(AnsweredPixels(rs)) + if HashLost(rs) then rs[CleanPrefix(rs)].pixels else 0)
  }

  /** What transcoding came to: an error, or renditions to upload. */
  datatype Service = TranscodeFailed | Renditions(rs: seq<Rendition>)

  /** The pixels for which the orchestrator debits the sender. */
  function Charge(service: Service): int {
    if service.TranscodeFailed? then 0 else ChargedPixels(service.rs)
  }

  /** The pixels in the orchestrator's answer, or an error answer. */
  function Answer(service: Service): Option<seq<int>> {
    if service.TranscodeFailed? || FormatUnknown(service.rs) then None
    else Some(AnsweredPixels(service.rs))
  }

  lemma CleanPrefixOf(rs: seq<Rendition>, more: seq<Rendition>)
    requires forall k :: 0 <= k < |rs| ==> Uploaded(rs[k])
    requires more != [] && !Uploaded(more[0])
    ensures CleanPrefix(rs + more) == |rs| && (rs + more)[..|rs|] == rs && (rs + more)[|rs|] == more[0]
  {
    CleanPrefixEnds(rs + more, |rs|);
  }

  lemma AllUploaded(rs: seq<Rendition>)
    requires forall k :: 0 <= k < |rs| ==> Uploaded(rs[k])
    ensures Charge(Renditions(rs)) == Int64(Sum(Pixels(rs))) && Answer(Renditions(rs)) == Some(Pixels(rs))
  {
    CleanPrefixEnds(rs, |rs|);
    assert rs[..|rs|] == rs;
  }

  lemma PixelsJoin(rs: seq<Rendition>, r: Rendition)
    ensures Pixels(rs + [r]) == Pixels(rs) + [r.pixels]
    ensures Int64(Sum(Pixels(rs + [r]))) == Int64(Int64(Sum(Pixels(rs))) + r.pixels)
  {
    SumJoins(Pixels(rs), [r.pixels]);
    assert Sum([r.pixels]) == r.pixels;
    Int64Add(Sum(Pixels(rs)), r.pixels);
  }

  /** As long as renditions are uploaded, each adds its pixels to the charge, in 64 bits, and to
      the answer. */
  lemma UploadedAdds(rs: seq<Rendition>, r: Rendition)
    requires forall k :: 0 <= k < |rs| ==> Uploaded(rs[k])
    requires r.formatKnown && r.saved && !r.hash.HashFailed?
    ensures Charge(Renditions(rs + [r])) == Int64(Charge(Renditions(rs)) + r.pixels)
    ensures Answer(Renditions(rs)).Some?
    ensures Answer(Renditions(rs + [r])) == Some(Answer(Renditions(rs)).value + [r.pixels])
  {
    AllUploaded(rs);
    AllUploaded(rs + [r]);
    PixelsJoin(rs, r);
  }

  /** The first rendition that fails ends the upload, whatever follows: an unknown format turns
      the answer into an error, and a rendition saved without its hash is still charged. */
  lemma FailureEnds(rs: seq<Rendition>, r: Rendition, more: seq<Rendition>)
    requires forall k :: 0 <= k < |rs| ==> Uploaded(rs[k])
    requires !r.formatKnown || !r.saved || r.hash.HashFailed?
    ensures Charge(Renditions(rs + ([r] + more))) ==
              if r.formatKnown && r.saved then Int64(Charge(Renditions(rs)) + r.pixels) else Charge(Renditions(rs))
    ensures Answer(Renditions(rs + ([r] + more))) == if r.formatKnown then Answer(Renditions(rs)) else None
    ensures Charge(TranscodeFailed) == 0 && Answer(TranscodeFailed) == None
  {
    CleanPrefixOf(rs, [r] + more);
    AllUploaded(rs);
    Int64Add(Sum(Pixels(rs)), r.pixels);
  }

  /** Pixels charged beyond those the broadcaster counts in the answer. */
  function LostPixels(service: Service): int
    requires Answer(service).Some?
  {
    Charge(service) - Int64(Sum(Answer(service).value))
  }

  /** The save of a perceptual hash failed for a rendition whose pixels count. */
  predicate LosesHash(service: Service) {
    service.Renditions? && HashLost(service.rs) && Int64(service.rs[CleanPrefix(service.rs)].pixels) != 0
  }

  lemma Int64Shift(x: int, d: int)
    ensures Int64(x + d) == Int64(x) <==> Int64(d) == 0
  {
    Int64Same(x + d, x);
    Int64Same(d, 0);
  }

  /** Both parties count the same pixels exactly when no hash upload failed for a rendition
      with pixels. */
  lemma LostPixelsIff(service: Service)
    requires Answer(service).Some?
    ensures LostPixels(service) == 0 <==> !LosesHash(service)
  {
    var rs := service.rs;
    if HashLost(rs) {
      Int64Shift(Sum(AnsweredPixels(rs)), rs[CleanPrefix(rs)].pixels);
    }
  }

  /** Short of an overflow, the loss is the rendition at which the upload stopped. */
  lemma LossIsOneRendition(rs: seq<Rendition>)
    requires !FormatUnknown(rs) && HashLost(rs)
    requires var sum := Sum(AnsweredPixels(rs)); 0 <= sum <= sum + rs[CleanPrefix(rs)].pixels < TWO_63
    ensures LostPixels(Renditions(rs)) == rs[CleanPrefix(rs)].pixels
  {}

  lemma OneMore(rs: seq<Rendition>, i: nat)
    requires i < |rs|
    ensures Pixels(rs[..i + 1]) == Pixels(rs[..i]) + [rs[i].pixels]
    ensures Int64(Sum(Pixels(rs[..i + 1]))) == Int64(Int64(Sum(Pixels(rs[..i]))) + rs[i].pixels)
  {
    assert rs[..i + 1] == rs[..i] + [rs[i]];
    PixelsJoin(rs[..i], rs[i]);
  }

  lemma UploadStops(rs: seq<Rendition>, i: nat)
    requires i <= |rs| && (forall k :: 0 <= k < i ==> Uploaded(rs[k])) && (i < |rs| ==> !Uploaded(rs[i]))
    ensures Answer(Renditions(rs)) == if i < |rs| && !rs[i].formatKnown then None else Some(Pixels(rs[..i]))
    ensures Charge(Renditions(rs)) ==
              if i < |rs| && rs[i].formatKnown && rs[i].saved then Int64(Int64(Sum(Pixels(rs[..i]))) + rs[i].pixels)
              else Int64(Sum(Pixels(rs[..i])))
  {
    CleanPrefixEnds(rs, i);
    if i < |rs| {
      Int64Add(Sum(Pixels(rs[..i])), rs[i].pixels);
    }
  }

  /** Uploads the renditions and counts the pixels to charge. A failed save ends the loop
      without an error, because the source assigns it to a shadowing variable: the renditions
      before it are answered. */
  method UploadRenditions(service: Service) returns (charged: int, answer: Option<seq<int>>)
    ensures charged == Charge(service) && answer == Answer(service)
    ensures answer.Some? ==> (charged == Int64(Sum(answer.value)) <==> !LosesHash(service))
  {
    charged := 0;
    if service.TranscodeFailed? {
      return 0, None;
    }
    var rs := service.rs;
    var segments: seq<int> := [];
    var i := 0;
    var failed := false;
    while !failed && i < |rs|
      invariant 0 <= i <= |rs|
      invariant !failed
      invariant forall k :: 0 <= k < i ==> Uploaded(rs[k])
      invariant segments == Pixels(rs[..i]) && charged == Int64(Sum(segments))
    {
      if !rs[i].formatKnown {
        failed := true;
        break;
      }
      if !rs[i].saved {
        break;
      }
      OneMore(rs, i);
      charged := Int64(charged + rs[i].pixels);
      if rs[i].hash.HashFailed? {
        break;
      }
      segments := segments + [rs[i].pixels];
      i := i + 1;
    }
    UploadStops(rs, i);
    answer := if failed then None else Some(segments);
    if !failed {
      LostPixelsIff(service);
    }
  }

  /** One rendition of 100 pixels whose hash is not saved: 100 pixels charged, none answered. */
  lemma HashFailureChargesUnansweredPixels()
    ensures var service := Renditions([Rendition(100, true, true, HashFailed)]);
            Charge(service) == 100 && Answer(service) == Some([]) && LostPixels(service) == 100
  {
    var rs := [Rendition(100, true, true, HashFailed)];
    assert AnsweredPixels(rs) == [];
  }
}
