/** The terms of a lottery ticket: the recipient sets face value and winning probability
    (pm/recipient.go), the ticket has an expected value (pm/ticket.go), and the sender checks
    what it is offered (pm/sender.go). */
module TicketParams {
  import opened Base

  /** A winning probability is a numerator over a fixed denominator. What follows holds for
      every denominator; the one in use is 2^256 - 1. */
  type Denominator = d: nat | d > 0 witness 1

  const MAX_WIN_PROB: Denominator :=
    0xFFFF_FFFF_FFFF_FFFF_FFFF_FFFF_FFFF_FFFF_FFFF_FFFF_FFFF_FFFF_FFFF_FFFF_FFFF_FFFF

  const PARAMS_EXPIRATION_BLOCK := 10
  const PARAMS_EXPIRY_BUFFER := 1
  const EV_MULTIPLIER := 100
  const AVG_GAS_PRICE := 200_000_000_000

  datatype Result<+T, +E> = Ok(value: T) | Err(error: E)

  datatype Config = Config(ev: nat, redeemGas: nat, txCostMultiplier: nat)

  // ---------------------------------------------------------------- face value

  datatype FaceValueError = InsufficientSenderReserve

  /** `gasPrice` is the cached price, 0 when there is none; `maxFloat` may be negative. */
  function FaceValue(cfg: Config, gasPrice: nat, maxFloat: int): Result<int, FaceValueError> {
    var txCost := cfg.redeemGas * gasPrice;
    var desired := txCost * cfg.txCostMultiplier;
    var wanted := if desired < cfg.ev then cfg.ev * EV_MULTIPLIER else desired;
    var faceValue := if wanted > maxFloat then maxFloat else wanted;
    if faceValue < cfg.ev then Err(InsufficientSenderReserve)
    else if !(faceValue >= txCost || faceValue >= cfg.redeemGas * AVG_GAS_PRICE) then
      Err(InsufficientSenderReserve)
    else Ok(faceValue)
  }

  /** A face value is offered exactly when the sender's float carries both the required
      expected value and a redemption at the cheaper of the two gas prices (the multiplier
      being at least 1). The offer is the multiple of the transaction cost, or of the
      expected value if that is more than the former, as far as the float goes. */
  lemma FaceValueOffered(cfg: Config, gasPrice: nat, maxFloat: int)
    requires cfg.txCostMultiplier >= 1
    ensures var r := FaceValue(cfg, gasPrice, maxFloat);
            var txCost := cfg.redeemGas * gasPrice;
            var avgCost := cfg.redeemGas * 200_000_000_000;
            && (r.Ok? <==> maxFloat >= cfg.ev && (maxFloat >= txCost || maxFloat >= avgCost))
            && (r.Ok? ==> cfg.ev <= r.value <= maxFloat && (r.value >= txCost || r.value >= avgCost))
            && (r.Ok? ==>
                  var wanted := if cfg.ev <= txCost * cfg.txCostMultiplier then txCost * cfg.txCostMultiplier
                                else 100 * cfg.ev;
                  r.value == if wanted <= maxFloat then wanted else maxFloat)
  {
    var txCost := cfg.redeemGas * gasPrice;
    assert txCost * cfg.txCostMultiplier >= txCost by { MulMonotone(txCost, 1, cfg.txCostMultiplier); }
  }

  lemma MulMonotone(a: nat, b: int, c: int)
    requires b <= c
    ensures a * b <= a * c
  {}

  lemma QuotientIsNatural(n: nat, d: nat)
    requires d > 0
    ensures n / d >= 0
  {}

  // ---------------------------------------------------------------- winning probability

  /** As written, the remainder is tested through its low 64 bits only. */
  function WinProb(max: Denominator, ev: nat, faceValue: nat): nat {
    if faceValue == 0 then 0
    else if faceValue == ev then max
    else
      var x := max / faceValue;
      var m := max % faceValue;
      QuotientIsNatural(max, faceValue);
      MulMonotone(ev, 0, x);
      MulMonotone(ev, 0, x + 1);
      if Int64(m) != 0 then ev * (x + 1) else ev * x
  }

  function TicketEV(max: Denominator, faceValue: nat, winProb: nat): real {
    faceValue as real * (winProb as real / max as real)
  }

  /** The test of the low bits answers whether the division is exact. */
  predicate RemainderVisible(max: Denominator, faceValue: nat)
    requires faceValue > 0
  {
    max % faceValue == 0 || (max % faceValue) % TWO_64 != 0
  }

  lemma LowBitsOfRemainder(max: Denominator, faceValue: nat)
    requires faceValue > 0
    ensures RemainderVisible(max, faceValue) <==>
              (Int64(max % faceValue) != 0 <==> max % faceValue != 0)
  {}

  /** Face value times winning probability, as an integer. */
  lemma ScaledProduct(max: nat, ev: nat, f: nat)
    requires f > 0
    ensures var x := max / f; var m := max % f;
            && f * (ev * x) == ev * (max - m)
            && f * (ev * (x + 1)) == ev * (max + (f - m))
  {
    var x := max / f; var m := max % f;
    assert max == f * x + m;
    calc { f * (ev * x); ev * (f * x); ev * (max - m); }
    calc { f * (ev * (x + 1)); ev * (f * x + f); ev * (max + (f - m)); }
  }

  lemma Associate(a: real, b: real, c: real)
    requires c > 0.0
    ensures a * (b / c) == (a * b) / c
  {}

  lemma CompareFraction(n: int, d: nat, bound: int)
    requires d > 0
    ensures n as real / d as real >= bound as real <==> n >= bound * d
    ensures n as real / d as real < bound as real <==> n < bound * d
  {
    var q := n as real / d as real;
    assert q * d as real == n as real;
    assert (q - bound as real) * d as real == n as real - (bound * d) as real;
  }

  /** The expected value of a ticket compares with an integer as the scaled product does. */
  lemma CompareTicketEV(max: Denominator, f: nat, w: nat, bound: int)
    ensures TicketEV(max, f, w) >= bound as real <==> f * w >= bound * max
    ensures TicketEV(max, f, w) < bound as real <==> f * w < bound * max
  {
    Associate(f as real, w as real, max as real);
    CompareFraction(f * w, max, bound);
  }

  /** Rounding up reaches the product; rounding down does so only without a remainder. */
  lemma RoundedReaches(max: nat, ev: nat, f: nat)
    requires ev >= 1 && f > 0
    ensures f * (ev * (max / f + 1)) >= ev * max
    ensures f * (ev * (max / f)) >= ev * max <==> max % f == 0
  {
    var m := max % f;
    ScaledProduct(max, ev, f);
    MulMonotone(ev, max, max + (f - m));
    assert ev * (max - m) == ev * max - ev * m;
    if m != 0 {
      MulMonotone(ev, 1, m);
    }
  }

  /** The expected value of the recipient's tickets reaches the required one exactly when the
      low-bits test sees the remainder. */
  lemma TicketEVReachesRequirement(max: Denominator, ev: nat, f: nat)
    requires 1 <= ev <= f
    ensures TicketEV(max, f, WinProb(max, ev, f)) >= ev as real <==> f == ev || RemainderVisible(max, f)
  {
    CompareTicketEV(max, f, WinProb(max, ev, f), ev);
    RoundedReaches(max, ev, f);
    LowBitsOfRemainder(max, f);
  }

  /** Rounding up is tight: less than one base unit is given away, the probability stays a
      probability, and a face value above the required expected value stays above the
      expected value of the ticket. */
  lemma WinProbIsTight(max: Denominator, ev: nat, f: nat)
    requires 1 <= ev <= f && ev * f <= max
    ensures WinProb(max, ev, f) <= max
    ensures TicketEV(max, f, WinProb(max, ev, f)) < (ev + 1) as real
    ensures f > ev ==> TicketEV(max, f, WinProb(max, ev, f)) < f as real
  {
    var w := WinProb(max, ev, f);
    CompareTicketEV(max, f, w, ev + 1);
    CompareTicketEV(max, f, w, f);
    if f == ev {
      assert f * w < (ev + 1) * max;
    } else {
      RoundedUpProduct(max, ev, f, w);
      MulMonotone(max, ev + 1, f);
      SmallFactor(f, w, max);
    }
  }

  lemma RoundedUpProduct(max: nat, ev: nat, f: nat, w: nat)
    requires 1 <= ev < f && ev * f <= max
    requires w == ev * (max / f) || (w == ev * (max / f + 1) && max % f != 0)
    ensures f * w < (ev + 1) * max
  {
    var m := max % f;
    ScaledProduct(max, ev, f);
    assert (ev + 1) * max == ev * max + max;
    if w == ev * (max / f) {
      MulMonotone(ev, max - m, max);
      assert max >= 1 by { MulMonotone(ev, 1, f); }
    } else {
      assert ev * (max + (f - m)) == ev * max + ev * f - ev * m;
      MulMonotone(ev, 1, m);
    }
  }

  lemma SmallFactor(f: nat, w: nat, max: nat)
    requires f * w < f * max
    ensures w < max
  {
    if w >= max {
      MulMonotone(f, max, w);
    }
  }

  /** The low-bits test is not the remainder test: for this face value the remainder is 2^64,
      the test reads 0, and a ticket is worth less than the required expected value of 1. */
  lemma WinProbRoundsDownOnHiddenRemainder(max: Denominator)
    requires max > 2 * TWO_64
    ensures var f := max - TWO_64;
            && max % f == TWO_64
            && !RemainderVisible(max, f)
            && WinProb(max, 1, f) == 1
            && TicketEV(max, f, WinProb(max, 1, f)) < 1.0
  {
    var f := max - TWO_64;
    DivisionIs(max, f, 1, TWO_64);
    TicketEVReachesRequirement(max, 1, f);
  }

  /** In particular for the denominator in use. */
  lemma HiddenRemainderInUse()
    ensures var f := MAX_WIN_PROB - TWO_64;
            !RemainderVisible(MAX_WIN_PROB, f) && TicketEV(MAX_WIN_PROB, f, WinProb(MAX_WIN_PROB, 1, f)) < 1.0
  {
    WinProbRoundsDownOnHiddenRemainder(MAX_WIN_PROB);
  }

  lemma DivisionIs(n: nat, d: nat, q: nat, m: nat)
    requires n == q * d + m && m < d
    ensures n / d == q && n % d == m
  {
    var q', m' := n / d, n % d;
    assert n == q' * d + m';
    if q' < q {
      MulMonotone(d, q' + 1, q);
    } else if q < q' {
      MulMonotone(d, q + 1, q');
    }
  }

  // ---------------------------------------------------------------- offering and accepting

  datatype Params = Params(faceValue: nat, winProb: nat, expirationBlock: int)

  /** The recipient's offer at L1 block `lastBlock`. At price 0 no payment is required and the
      ticket is worth nothing. */
  function Offer(max: Denominator, cfg: Config, gasPrice: nat, maxFloat: int, price: real, lastBlock: int)
    : Result<Params, FaceValueError>
  {
    if price > 0.0 then
      match FaceValue(cfg, gasPrice, maxFloat)
      case Err(e) => Err(e)
      case Ok(f) => Ok(Params(f, WinProb(max, cfg.ev, f), lastBlock + PARAMS_EXPIRATION_BLOCK))
    else
      Ok(Params(0, WinProb(max, cfg.ev, 0), lastBlock + PARAMS_EXPIRATION_BLOCK))
  }

  datatype SenderInfo = SenderInfo(deposit: nat, reserve: nat, withdrawRound: int)
  datatype Limits = Limits(maxEV: real, depositMultiplier: nat, info: Option<SenderInfo>, round: int)

  datatype ParamsError =
    | ParamsNil | ParamsExpired | FaceValueTooLow | NoSenderInfo
    | UnlockingSoon | NoReserve | NoDeposit | TotalEVTooHigh | FaceValueTooHigh

  function ValidateSender(info: SenderInfo, round: int): Option<ParamsError> {
    if Int64(info.withdrawRound) != 0 && info.withdrawRound <= round + 1 then Some(UnlockingSoon)
    else if info.reserve == 0 then Some(NoReserve)
    else if info.deposit == 0 then Some(NoDeposit)
    else None
  }

  /** The part of the check that weighs the expected value `ev` of a ticket. */
  function ValidateValue(ev: real, faceValue: nat, numTickets: int, limits: Limits): Option<ParamsError>
    requires limits.depositMultiplier > 0
  {
    if ev <= 0.0 then None
    else if ev >= faceValue as real then Some(FaceValueTooLow)
    else if limits.info.None? then Some(NoSenderInfo)
    else if ValidateSender(limits.info.value, limits.round).Some? then
      ValidateSender(limits.info.value, limits.round)
    else if ev * numTickets as real > limits.maxEV then Some(TotalEVTooHigh)
    else if faceValue > limits.info.value.deposit / limits.depositMultiplier then Some(FaceValueTooHigh)
    else None
  }

  /** The sender's check before it signs `numTickets` tickets, in the source's order. */
  function ValidateTicketParams(max: Denominator, params: Option<Params>, numTickets: int, latestBlock: int,
                                limits: Limits)
    : Option<ParamsError>
    requires limits.depositMultiplier > 0
  {
    if params.None? then Some(ParamsNil)
    else if Int64(params.value.expirationBlock) == 0 then None
    else if Int64(params.value.expirationBlock - latestBlock) <= PARAMS_EXPIRY_BUFFER then Some(ParamsExpired)
    else
      var ev := TicketEV(max, params.value.faceValue, params.value.winProb);
      ValidateValue(ev, params.value.faceValue, numTickets, limits)
  }

  lemma TicketEVPositive(max: Denominator, f: nat, w: nat)
    requires f > 0 && w > 0
    ensures TicketEV(max, f, w) > 0.0
  {
    Associate(f as real, w as real, max as real);
    MulMonotone(f, 1, w);
    assert (f * w) as real / max as real > 0.0;
  }

  lemma WinProbPositive(max: Denominator, ev: nat, f: nat)
    requires 1 <= ev <= f && ev * f <= max
    ensures WinProb(max, ev, f) > 0
  {
    if f != ev {
      var x := max / f;
      MulMonotone(f, 1, ev);
      assert f <= max;
      QuotientAtLeastOne(max, f);
      MulMonotone(ev, 1, x);
      MulMonotone(ev, 1, x + 1);
    }
  }

  lemma QuotientAtLeastOne(n: nat, d: nat)
    requires 0 < d <= n
    ensures n / d >= 1
  {}

  lemma DivisionBound(a: nat, b: nat, c: nat)
    requires c > 0
    ensures a <= b / c <==> a * c <= b
  {
    var q, m := b / c, b % c;
    assert b == q * c + m;
    if a <= q {
      MulMonotone(c, a, q);
    } else {
      MulMonotone(c, q + 1, a);
    }
  }

  /** The sender is known, not about to withdraw, has a reserve, and a deposit that covers the
      face value as often as required. */
  predicate Solvent(limits: Limits, faceValue: nat) {
    && limits.info.Some?
    && var info := limits.info.value;
       && (Int64(info.withdrawRound) == 0 || info.withdrawRound > limits.round + 1)
       && info.reserve > 0
       && faceValue * limits.depositMultiplier <= info.deposit
  }

  lemma ValueAcceptedIff(ev: real, f: nat, n: int, limits: Limits)
    requires limits.depositMultiplier > 0 && 0.0 < ev && f > 0
    ensures ValidateValue(ev, f, n, limits) == None <==>
              ev < f as real && Solvent(limits, f) && n as real * ev <= limits.maxEV
  {
    if limits.info.Some? {
      DivisionBound(f, limits.info.value.deposit, limits.depositMultiplier);
      MulMonotone(f, 1, limits.depositMultiplier);
    }
  }

  /** What a ticket on the recipient's terms is worth, as far as the sender cares. */
  lemma TermsWorth(max: Denominator, ev: nat, f: nat)
    requires 1 <= ev <= f && ev * f <= max
    ensures var value := TicketEV(max, f, WinProb(max, ev, f));
            0.0 < value < (ev + 1) as real && (value < f as real <==> f > ev)
  {
    WinProbPositive(max, ev, f);
    TicketEVPositive(max, f, WinProb(max, ev, f));
    WinProbIsTight(max, ev, f);
    TicketEVReachesRequirement(max, ev, f);
  }

  /** The sender weighs the recipient's terms: a face value equal to the expected value is
      refused whoever the sender is; a larger one is accepted exactly by solvent senders within
      their limit. */
  lemma TermsAccepted(max: Denominator, ev: nat, f: nat, n: int, limits: Limits)
    requires 1 <= ev <= f && ev * f <= max && limits.depositMultiplier > 0
    ensures var value := TicketEV(max, f, WinProb(max, ev, f));
            var verdict := ValidateValue(value, f, n, limits);
            && (f == ev ==> verdict == Some(FaceValueTooLow))
            && (verdict == None <==> f > ev && Solvent(limits, f) && n as real * value <= limits.maxEV)
  {
    TermsWorth(max, ev, f);
    ValueAcceptedIff(TicketEV(max, f, WinProb(max, ev, f)), f, n, limits);
  }

  lemma ExpiresIff(expiration: nat, latestBlock: nat)
    requires 0 < expiration < TWO_63 && latestBlock < TWO_63
    ensures Int64(expiration) != 0
    ensures Int64(expiration - latestBlock) <= PARAMS_EXPIRY_BUFFER <==> expiration <= latestBlock + PARAMS_EXPIRY_BUFFER
  {}

  lemma OfferVerdict(max: Denominator, cfg: Config, gasPrice: nat, maxFloat: int, price: real,
                     lastBlock: nat, latestBlock: nat, n: int, limits: Limits)
    requires price > 0.0 && cfg.ev >= 1 && limits.depositMultiplier > 0
    requires FaceValue(cfg, gasPrice, maxFloat).Ok?
    requires cfg.ev * FaceValue(cfg, gasPrice, maxFloat).value <= max
    requires lastBlock + PARAMS_EXPIRATION_BLOCK < TWO_63 && latestBlock < TWO_63
    ensures var offer := Offer(max, cfg, gasPrice, maxFloat, price, lastBlock);
            && offer.Ok?
            && var f := offer.value.faceValue;
               var value := TicketEV(max, f, offer.value.winProb);
               var verdict := ValidateTicketParams(max, Some(offer.value), n, latestBlock, limits);
               var inTime := latestBlock + 1 < lastBlock + 10;
               && (verdict == None <==>
                     inTime && f > cfg.ev && Solvent(limits, f) && n as real * value <= limits.maxEV)
               && (inTime && f == cfg.ev ==> verdict == Some(FaceValueTooLow))
               && value < (cfg.ev + 1) as real
  {
    var f := FaceValue(cfg, gasPrice, maxFloat).value;
    ExpiresIff(lastBlock + PARAMS_EXPIRATION_BLOCK, latestBlock);
    TermsWorth(max, cfg.ev, f);
    TermsAccepted(max, cfg.ev, f, n, limits);
  }

  /** Offer and acceptance fit: a sender accepts the recipient's offer if and only if it sees it
      at least two blocks before it expires, is solvent and within its limit, and the recipient
      did not have to set the face value to the expected value itself. Such an offer, with
      probability 1, is refused by every sender. */
  lemma OfferIsAccepted(max: Denominator, cfg: Config, gasPrice: nat, maxFloat: int, price: real,
                        lastBlock: nat, latestBlock: nat, n: int, limits: Limits)
    requires price > 0.0 && cfg.ev >= 1 && limits.depositMultiplier > 0
    requires FaceValue(cfg, gasPrice, maxFloat).Ok?
    requires cfg.ev * FaceValue(cfg, gasPrice, maxFloat).value <= max
    requires lastBlock + PARAMS_EXPIRATION_BLOCK < TWO_63 && latestBlock < TWO_63
    ensures var offer := Offer(max, cfg, gasPrice, maxFloat, price, lastBlock);
            && offer.Ok?
            && var f := offer.value.faceValue;
               var value := TicketEV(max, f, offer.value.winProb);
               var verdict := ValidateTicketParams(max, Some(offer.value), n, latestBlock, limits);
               var inTime := latestBlock + 1 < lastBlock + 10;
               && (verdict == None <==>
                     && inTime && f > cfg.ev && n as real * value <= limits.maxEV
                     && limits.info.Some?
                     && limits.info.value.reserve > 0
                     && f * limits.depositMultiplier <= limits.info.value.deposit
                     && (Int64(limits.info.value.withdrawRound) == 0 ||
                         limits.info.value.withdrawRound > limits.round + 1))
               && (inTime && f == cfg.ev ==> verdict == Some(FaceValueTooLow))
               && value < (cfg.ev + 1) as real
  {
    OfferVerdict(max, cfg, gasPrice, maxFloat, price, lastBlock, latestBlock, n, limits);
  }

  /** A float of just the expected value: the face value is set to it, and whoever the sender is,
      the offer is refused. */
  lemma BareFloatIsRefused(max: Denominator, price: real, lastBlock: nat, n: int, limits: Limits)
    requires price > 0.0 && max >= 100 && lastBlock + PARAMS_EXPIRATION_BLOCK < TWO_63
    requires limits.depositMultiplier > 0
    ensures var offer := Offer(max, Config(10, 1, 1), 0, 10, price, lastBlock);
            && offer.Ok?
            && ValidateTicketParams(max, Some(offer.value), n, lastBlock, limits) == Some(FaceValueTooLow)
  {
    OfferIsAccepted(max, Config(10, 1, 1), 0, 10, price, lastBlock, lastBlock, n, limits);
  }

  /** The part of the check that concerns the sender alone. */
  lemma SenderIsSoundIff(info: SenderInfo, round: int)
    ensures ValidateSender(info, round) == None <==>
              && info.reserve > 0 && info.deposit > 0
              && (Int64(info.withdrawRound) == 0 || info.withdrawRound > round + 1)
    ensures Int64(info.withdrawRound) != 0 && info.withdrawRound <= round + 1 ==>
              ValidateSender(info, round) == Some(UnlockingSoon)
  {}

  /** What is accepted from anyone, whoever the sender and whatever its limits: terms that never
      expire, and in time also terms under which a ticket is worth nothing. */
  lemma AcceptedByAll(max: Denominator, params: Params, n: int, latestBlock: int, limits: Limits)
    requires limits.depositMultiplier > 0
    ensures ValidateTicketParams(max, None, n, latestBlock, limits) == Some(ParamsNil)
    ensures Int64(params.expirationBlock) == 0 ==>
              ValidateTicketParams(max, Some(params), n, latestBlock, limits) == None
    ensures Int64(params.expirationBlock) != 0 && Int64(params.expirationBlock - latestBlock) > 1 &&
            TicketEV(max, params.faceValue, params.winProb) == 0.0 ==>
              ValidateTicketParams(max, Some(params), n, latestBlock, limits) == None
  {}

  /** Without a price the offer is a ticket of no value, which every sender accepts in time. */
  lemma FreeOffer(max: Denominator, cfg: Config, gasPrice: nat, maxFloat: int, price: real,
                  lastBlock: nat, latestBlock: nat, n: int, limits: Limits)
    requires price <= 0.0 && limits.depositMultiplier > 0
    requires lastBlock + PARAMS_EXPIRATION_BLOCK < TWO_63 && latestBlock < TWO_63
    ensures var offer := Offer(max, cfg, gasPrice, maxFloat, price, lastBlock);
            && offer == Ok(Params(0, 0, lastBlock + 10))
            && (ValidateTicketParams(max, Some(offer.value), n, latestBlock, limits) == None <==>
                  latestBlock + 1 < lastBlock + 10)
  {
    ExpiresIff(lastBlock + PARAMS_EXPIRATION_BLOCK, latestBlock);
  }
}
