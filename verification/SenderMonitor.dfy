/** Funds of remote senders while their tickets are redeemed (pm/sendermonitor.go). */
module SenderMonitor {
  import TicketParams

  type Address = nat

  /** Pending amount per cached sender. */
  type Pending = map<Address, int>

  function EnsureCache(m: Pending, addr: Address): Pending {
    if addr in m then m else m[addr := 0]
  }

  class LocalSenderMonitor {
    var senders: Pending

    constructor ()
      ensures senders == map[]
    {
      senders := map[];
    }

    method Cache(addr: Address)
      modifies this
      ensures senders == EnsureCache(old(senders), addr)
      ensures senders == if addr in old(senders) then old(senders) else old(senders)[addr := 0]
    {
      if addr !in senders {
        senders := senders[addr := 0];
      }
    }

    /** Puts an amount back into the float; refused when less than that is pending. */
    method AddFloat(addr: Address, amount: int) returns (ok: bool)
      modifies this
      ensures ok <==> (if addr in old(senders) then old(senders)[addr] else 0) >= amount
      ensures senders == if ok then Released(old(senders), addr, amount) else EnsureCache(old(senders), addr)
      ensures addr in senders &&
              senders[addr] == (if addr in old(senders) then old(senders)[addr] else 0) - if ok then amount else 0
      ensures senders - {addr} == old(senders) - {addr}
    {
      Cache(addr);
      if senders[addr] < amount {
        return false;
      }
      senders := senders[addr := senders[addr] - amount];
      ok := true;
    }

    method SubFloat(addr: Address, amount: int)
      modifies this
      ensures senders == Reserved(old(senders), addr, amount)
      ensures addr in senders &&
              senders[addr] == (if addr in old(senders) then old(senders)[addr] else 0) + amount
      ensures senders - {addr} == old(senders) - {addr}
    {
      Cache(addr);
      senders := senders[addr := senders[addr] + amount];
    }
  }

  function Reserved(m: Pending, addr: Address, amount: int): Pending {
    var c := EnsureCache(m, addr);
    c[addr := c[addr] + amount]
  }

  function Released(m: Pending, addr: Address, amount: int): Pending {
    var c := EnsureCache(m, addr);
    c[addr := c[addr] - amount]
  }

  // ---------------------------------------------------------------- concurrent runs

  /** A consumer goroutine serves the queue of one sender. `Checking` is the time between
      taking a ticket and `subFloat`, `Redeeming` the time until `addFloat`. */
  datatype Phase = Idle | Checking(faceValue: nat) | Redeeming(faceValue: nat) | Exited
  datatype Consumer = Consumer(addr: Address, phase: Phase)

  /** `owner` is the consumer started together with the cache entry of a sender. */
  datatype System = System(pending: Pending, owner: map<Address, nat>, consumers: seq<Consumer>, errors: nat)

  const INITIAL := System(map[], map[], [], 0)

  datatype Event =
    | Touch(addr: Address)
    | Take(c: nat, faceValue: nat)
    | GiveUp(c: nat)
    | SubFloat(c: nat)
    | AddFloat(c: nat)
    | Cleanup(addr: Address)
    | Quit(c: nat)

  predicate Busy(s: System, c: nat, checking: bool) {
    c < |s.consumers| && if checking then s.consumers[c].phase.Checking? else s.consumers[c].phase.Redeeming?
  }

  predicate IsIdle(s: System, c: nat) {
    c < |s.consumers| && s.consumers[c].phase.Idle?
  }

  /** Cleanup sends on an unbuffered channel that only an idle consumer receives from. */
  predicate Enabled(s: System, e: Event) {
    match e
    case Touch(_) => true
    case Take(c, _) => IsIdle(s, c)
    case GiveUp(c) => Busy(s, c, true)
    case SubFloat(c) => Busy(s, c, true)
    case AddFloat(c) => Busy(s, c, false)
    case Cleanup(addr) => addr in s.pending && addr in s.owner && IsIdle(s, s.owner[addr])
    case Quit(c) => IsIdle(s, c)
  }

  /** Caching a sender starts a consumer for it. */
  function Cached(s: System, addr: Address): System {
    if addr in s.pending then s
    else s.(pending := EnsureCache(s.pending, addr),
            owner := s.owner[addr := |s.consumers|],
            consumers := s.consumers + [Consumer(addr, Idle)])
  }

  function Moved(s: System, c: nat, phase: Phase): System
    requires c < |s.consumers|
  {
    s.(consumers := s.consumers[c := s.consumers[c].(phase := phase)])
  }

  function Step(s: System, e: Event): System
    requires Enabled(s, e)
  {
    match e
    case Touch(addr) => Cached(s, addr)
    case Take(c, faceValue) => Moved(Cached(s, s.consumers[c].addr), c, Checking(faceValue))
    case GiveUp(c) => Moved(s, c, Idle)
    case SubFloat(c) =>
      var addr := s.consumers[c].addr;
      var fv := s.consumers[c].phase.faceValue;
      var s1 := Cached(s, addr);
      Moved(s1.(pending := Reserved(s1.pending, addr, fv)), c, Redeeming(fv))
    case AddFloat(c) =>
      var addr := s.consumers[c].addr;
      var fv := s.consumers[c].phase.faceValue;
      var s1 := Cached(s, addr);
      if s1.pending[addr] < fv then Moved(s1.(errors := s1.errors + 1), c, Idle)
      else Moved(s1.(pending := Released(s1.pending, addr, fv)), c, Idle)
    case Cleanup(addr) =>
      Moved(s, s.owner[addr], Exited).(pending := s.pending - {addr}, owner := s.owner - {addr})
    case Quit(c) => Moved(s, c, Exited)
  }

  predicate Runs(s: System, run: seq<Event>)
    decreases |run|
  {
    run == [] || (Enabled(s, run[0]) && Runs(Step(s, run[0]), run[1..]))
  }

  function After(s: System, run: seq<Event>): System
    requires Runs(s, run)
    decreases |run|
  {
    if run == [] then s else After(Step(s, run[0]), run[1..])
  }

  /** The face value a consumer holds between `subFloat` and `addFloat` for `addr`. */
  function Holds(c: Consumer, addr: Address): nat {
    if c.addr == addr && c.phase.Redeeming? then c.phase.faceValue else 0
  }

  function InRedemption(cs: seq<Consumer>, addr: Address): nat {
    if cs == [] then 0 else InRedemption(cs[..|cs| - 1], addr) + Holds(cs[|cs| - 1], addr)
  }

  lemma {:induction false} InRedemptionUpdate(cs: seq<Consumer>, i: nat, c: Consumer, addr: Address)
    requires i < |cs|
    ensures InRedemption(cs[i := c], addr) == InRedemption(cs, addr) - Holds(cs[i], addr) + Holds(c, addr)
    ensures InRedemption(cs, addr) >= Holds(cs[i], addr)
  {
    var n := |cs| - 1;
    if i == n {
    } else {
      InRedemptionUpdate(cs[..n], i, c, addr);
    }
  }

  lemma {:induction false} NobodyRedeems(cs: seq<Consumer>, addr: Address)
    requires forall i :: 0 <= i < |cs| ==> Holds(cs[i], addr) == 0
    ensures InRedemption(cs, addr) == 0
  {
    if cs != [] {
      NobodyRedeems(cs[..|cs| - 1], addr);
    }
  }

  /** A running consumer is the one of the cache entry of its sender. */
  ghost predicate Owned(s: System) {
    && s.owner.Keys == s.pending.Keys
    && (forall a :: a in s.owner ==> s.owner[a] < |s.consumers| && s.consumers[s.owner[a]].addr == a)
    && (forall i :: 0 <= i < |s.consumers| && !s.consumers[i].phase.Exited? ==>
          s.consumers[i].addr in s.owner && s.owner[s.consumers[i].addr] == i)
  }

  ghost predicate Accounted(s: System) {
    forall a :: a in s.pending ==> s.pending[a] == InRedemption(s.consumers, a)
  }

  ghost predicate Inv(s: System) { Owned(s) && Accounted(s) && s.errors == 0 }

  lemma OnlyOwnerHolds(s: System, addr: Address)
    requires Owned(s)
    ensures addr !in s.owner ==> InRedemption(s.consumers, addr) == 0
    ensures addr in s.owner && !s.consumers[s.owner[addr]].phase.Redeeming? ==> InRedemption(s.consumers, addr) == 0
  {
    if addr !in s.owner || !s.consumers[s.owner[addr]].phase.Redeeming? {
      NobodyRedeems(s.consumers, addr);
    }
  }

  lemma CachedKeepsInv(s: System, addr: Address)
    requires Inv(s)
    ensures Inv(Cached(s, addr)) && addr in Cached(s, addr).pending
  {
    var s' := Cached(s, addr);
    if addr !in s.pending {
      forall a | a in s'.pending ensures s'.pending[a] == InRedemption(s'.consumers, a) {
        if a == addr { OnlyOwnerHolds(s, addr); }
      }
    }
  }

  /** Moving one consumer and its sender's pending amount by the same sum. */
  lemma MovedKeepsAccounts(s: System, c: nat, phase: Phase, pending: Pending)
    requires Inv(s) && c < |s.consumers|
    requires !s.consumers[c].phase.Exited? && !phase.Exited?
    requires pending.Keys == s.pending.Keys
    requires forall a :: a in pending ==>
               pending[a] == s.pending[a] - Holds(s.consumers[c], a) + Holds(s.consumers[c].(phase := phase), a)
    ensures Inv(Moved(s, c, phase).(pending := pending))
  {
    var s' := Moved(s, c, phase).(pending := pending);
    forall a | a in s'.pending ensures s'.pending[a] == InRedemption(s'.consumers, a) {
      InRedemptionUpdate(s.consumers, c, s.consumers[c].(phase := phase), a);
    }
  }

  lemma ExitKeepsAccounts(s: System, c: nat)
    requires Inv(s) && IsIdle(s, c)
    ensures Accounted(Moved(s, c, Exited))
  {
    var s' := Moved(s, c, Exited);
    forall a | a in s'.pending ensures s'.pending[a] == InRedemption(s'.consumers, a) {
      InRedemptionUpdate(s.consumers, c, s.consumers[c].(phase := Exited), a);
    }
  }

  lemma AddFloatKeepsInv(s: System, c: nat)
    requires Inv(s) && Enabled(s, AddFloat(c))
    ensures Inv(Step(s, AddFloat(c)))
  {
    var addr := s.consumers[c].addr;
    MovedKeepsAccounts(s, c, Idle, Released(s.pending, addr, s.consumers[c].phase.faceValue));
  }

  lemma StepKeepsInv(s: System, e: Event)
    requires Inv(s) && Enabled(s, e)
    ensures Inv(Step(s, e))
  {
    match e
    case Touch(addr) => CachedKeepsInv(s, addr);
    case Take(c, fv) => MovedKeepsAccounts(s, c, Checking(fv), s.pending);
    case GiveUp(c) => MovedKeepsAccounts(s, c, Idle, s.pending);
    case SubFloat(c) =>
      var fv := s.consumers[c].phase.faceValue;
      MovedKeepsAccounts(s, c, Redeeming(fv), Reserved(s.pending, s.consumers[c].addr, fv));
    case AddFloat(c) => AddFloatKeepsInv(s, c);
    case Cleanup(addr) => ExitKeepsAccounts(s, s.owner[addr]);
    case Quit(c) => ExitKeepsAccounts(s, c);
  }

  lemma {:induction false} RunKeepsInv(s: System, run: seq<Event>)
    requires Inv(s) && Runs(s, run)
    ensures Inv(After(s, run))
    decreases |run|
  {
    if run != [] {
      StepKeepsInv(s, run[0]);
      RunKeepsInv(Step(s, run[0]), run[1..]);
    }
  }

  /** In every interleaving of redemptions and cleanups a sender's pending amount is the sum of
      the face values in redemption, and putting an amount back is never refused. */
  lemma PendingIsAccountedFor(run: seq<Event>)
    requires Runs(INITIAL, run)
    ensures var s := After(INITIAL, run);
            && s.errors == 0
            && (forall a :: a in s.pending ==> s.pending[a] == InRedemption(s.consumers, a))
            && (forall c: nat :: Enabled(s, AddFloat(c)) ==> Covers(s, c))
  {
    RunKeepsInv(INITIAL, run);
    var s := After(INITIAL, run);
    forall c: nat | Enabled(s, AddFloat(c)) ensures Covers(s, c) {
      InRedemptionUpdate(s.consumers, c, s.consumers[c], s.consumers[c].addr);
    }
  }

  /** What the consumer is about to put back is pending. */
  predicate Covers(s: System, c: nat)
    requires Busy(s, c, false)
  {
    var consumer := s.consumers[c];
    consumer.addr in s.pending && s.pending[consumer.addr] >= consumer.phase.faceValue
  }

  /** Otherwise it would be refused and counted as an error. */
  lemma UncoveredIsRefused(s: System, c: nat)
    requires Enabled(s, AddFloat(c)) && s.consumers[c].addr in s.pending
    ensures Step(s, AddFloat(c)).errors == s.errors + if Covers(s, c) then 0 else 1
    ensures !Covers(s, c) ==> Step(s, AddFloat(c)).pending == s.pending
  {}

  /** A sender is cached, has a ticket redeemed and is cleaned up. */
  lemma RedemptionRuns(addr: Address, faceValue: nat)
    ensures var run := [Touch(addr), Take(0, faceValue), SubFloat(0)];
            && Runs(INITIAL, run)
            && After(INITIAL, run).pending == map[addr := faceValue]
            && var rest := [AddFloat(0), Cleanup(addr)];
               && Runs(After(INITIAL, run), rest)
               && After(After(INITIAL, run), rest).pending == map[]
  {
    var s1 := Step(INITIAL, Touch(addr));
    var s2 := Step(s1, Take(0, faceValue));
    var s3 := Step(s2, SubFloat(0));
    var s4 := Step(s3, AddFloat(0));
    var s5 := Step(s4, Cleanup(addr));
    ThreeSteps(INITIAL, Touch(addr), Take(0, faceValue), SubFloat(0));
    TwoSteps(s3, AddFloat(0), Cleanup(addr));
    assert s5.pending == map[];
  }

  lemma TwoSteps(s: System, d: Event, e: Event)
    requires Enabled(s, d) && Enabled(Step(s, d), e)
    ensures Runs(s, [d, e]) && After(s, [d, e]) == Step(Step(s, d), e)
  {
    assert [d, e][1..] == [e];
    OneStep(Step(s, d), e);
  }

  lemma OneStep(s: System, e: Event)
    requires Enabled(s, e)
    ensures Runs(s, [e]) && After(s, [e]) == Step(s, e)
  {
    assert [e][1..] == [];
    assert Runs(Step(s, e), []) && After(Step(s, e), []) == Step(s, e);
  }

  lemma ThreeSteps(s: System, c: Event, d: Event, e: Event)
    requires Enabled(s, c) && Enabled(Step(s, c), d) && Enabled(Step(Step(s, c), d), e)
    ensures Runs(s, [c, d, e]) && After(s, [c, d, e]) == Step(Step(Step(s, c), d), e)
  {
    assert [c, d, e][1..] == [d, e];
    TwoSteps(Step(s, c), d, e);
  }

  /** A cleanup forgets only senders of whom nothing is pending, so no amount is lost. */
  lemma CleanupForgetsNothing(run: seq<Event>, addr: Address)
    requires Runs(INITIAL, run) && Enabled(After(INITIAL, run), Cleanup(addr))
    ensures After(INITIAL, run).pending[addr] == 0
  {
    RunKeepsInv(INITIAL, run);
    OnlyOwnerHolds(After(INITIAL, run), addr);
  }

  // ---------------------------------------------------------------- funds

  datatype Funds = Funds(deposit: nat, fundsRemaining: nat, claimedInRound: nat, claimed: nat)

  const MIN_DEPOSIT_PENDING_RATIO := 3

  /** This claimant's share of the sender's reserve. */
  function ReserveAlloc(f: Funds, poolSize: nat): int {
    if poolSize == 0 then 0 else (f.fundsRemaining + f.claimedInRound) / poolSize - f.claimed
  }

  /** Claimed and allocated together are the largest share that the reserve holds for every
      member of the pool. */
  lemma AllocIsLargestShare(f: Funds, poolSize: nat, share: int)
    requires poolSize > 0
    ensures share * poolSize <= f.fundsRemaining + f.claimedInRound <==>
              share <= ReserveAlloc(f, poolSize) + f.claimed
    ensures ReserveAlloc(f, 0) == 0
  {
    var reserve := f.fundsRemaining + f.claimedInRound;
    var q, m := reserve / poolSize, reserve % poolSize;
    assert reserve == q * poolSize + m;
    if share <= q {
      TicketParams.MulMonotone(poolSize, share, q);
    } else {
      TicketParams.MulMonotone(poolSize, q + 1, share);
    }
  }

  /** The pending amount is ignored while the deposit is at least three times as large. */
  function MaxFloat(f: Funds, poolSize: nat, pending: nat): int {
    if pending > 0 && f.deposit >= MIN_DEPOSIT_PENDING_RATIO * pending then ReserveAlloc(f, poolSize)
    else ReserveAlloc(f, poolSize) - pending
  }

  function AvailableFunds(f: Funds, poolSize: nat, pending: nat): int {
    ReserveAlloc(f, poolSize) + f.deposit - pending
  }

  /** A ticket within the float can be redeemed from the available funds, even when pending
      tickets are ignored, and stays redeemable after it becomes pending itself. */
  lemma FloatIsFunded(f: Funds, poolSize: nat, pending: nat, faceValue: nat)
    requires faceValue <= MaxFloat(f, poolSize, pending)
    ensures faceValue <= AvailableFunds(f, poolSize, pending)
    ensures AvailableFunds(f, poolSize, pending + faceValue) >= 0
  {}

  /** The float is the allocation exactly while nothing is pending or the deposit covers what is
      pending three times, and lower by what is pending otherwise. */
  lemma FloatIsAlloc(f: Funds, poolSize: nat, pending: nat)
    ensures MaxFloat(f, poolSize, pending) == ReserveAlloc(f, poolSize) <==>
              pending == 0 || f.deposit >= 3 * pending
    ensures pending > 0 && f.deposit < 3 * pending ==>
              MaxFloat(f, poolSize, pending) + pending == ReserveAlloc(f, poolSize)
  {}

  /** What is available covers allocation and deposit, less what is pending. */
  lemma PendingLowersFunds(f: Funds, poolSize: nat, pending: nat, amount: nat)
    ensures AvailableFunds(f, poolSize, 0) - f.deposit == ReserveAlloc(f, poolSize)
    ensures AvailableFunds(f, poolSize, pending + amount) + amount == AvailableFunds(f, poolSize, pending)
  {}

  /** Every ticket the recipient offers at a price can be redeemed from the sender's funds, as
      they stand when the offer is made. */
  lemma OfferIsFunded(max: TicketParams.Denominator, cfg: TicketParams.Config, gasPrice: nat,
                      f: Funds, poolSize: nat, pending: nat, price: real, lastBlock: int)
    requires price > 0.0 && cfg.txCostMultiplier >= 1
    ensures var offer := TicketParams.Offer(max, cfg, gasPrice, MaxFloat(f, poolSize, pending), price, lastBlock);
            offer.Ok? ==> offer.value.faceValue <= AvailableFunds(f, poolSize, pending)
  {
    TicketParams.FaceValueOffered(cfg, gasPrice, MaxFloat(f, poolSize, pending));
  }
}
