/** Replay protection of the recipient (pm/recipient.go) and the nonces of the sender
    (pm/sender.go). A `Rand` is the recipient's secret number behind a set of ticket
    parameters; it is taken to commit to them, in particular to their expiration block. */
module Recipient {
  import opened Base

  type Rand(==,!new) = nat
  type Block = int

  datatype Nonce = Nonce(nonce: nat, expirationBlock: Block)

  /** A nonce is fresh when it exceeds the highest one recorded under the same number. */
  predicate Fresh(nonces: map<Rand, Nonce>, rand: Rand, nonce: nat) {
    rand in nonces ==> nonce > nonces[rand].nonce
  }

  function Expire(nonces: map<Rand, Nonce>, latest: Block): map<Rand, Nonce> {
    map r | r in nonces && nonces[r].expirationBlock > latest :: nonces[r]
  }

  /** Outcome of the checks that precede the nonce: the sender, the ticket, the lottery. */
  datatype Verdict = BadSender | BadTicket | BadSignature | Plain | Winning

  datatype Error = FatalReceiveErr | InvalidSignature | InvalidNonce | ParamsExpired

  class Recipient {
    var senderNonces: map<Rand, Nonce>

    constructor ()
      ensures senderNonces == map[]
    {
      senderNonces := map[];
    }

    method UpdateSenderNonce(rand: Rand, nonce: nat, expirationBlock: Block) returns (ok: bool)
      modifies this
      ensures ok <==> Fresh(old(senderNonces), rand, nonce)
      ensures senderNonces == if ok then old(senderNonces)[rand := Nonce(nonce, expirationBlock)]
                              else old(senderNonces)
    {
      if rand in senderNonces && nonce <= senderNonces[rand].nonce {
        return false;
      }
      senderNonces := senderNonces[rand := Nonce(nonce, expirationBlock)];
      ok := true;
    }

    /** The body of the cleanup loop for one L1 block: deletes while iterating over the map. */
    method CleanupNonces(latest: Block)
      modifies this
      ensures senderNonces == Expire(old(senderNonces), latest)
    {
      var rest := senderNonces.Keys;
      while rest != {}
        invariant rest <= old(senderNonces).Keys
        invariant forall r :: r in senderNonces ==> r in old(senderNonces) && senderNonces[r] == old(senderNonces)[r]
        invariant forall r :: r in rest ==> r in senderNonces
        invariant forall r :: r in old(senderNonces) && r !in rest ==>
                    (r in senderNonces <==> old(senderNonces)[r].expirationBlock > latest)
        decreases |rest|
      {
        var r :| r in rest;
        if senderNonces[r].expirationBlock <= latest {
          senderNonces := senderNonces - {r};
        }
        rest := rest - {r};
      }
    }

    /** `latest` is the L1 block seen when the expiration is checked, which happens after the
        nonce was recorded. A winning ticket is reported as won whatever the later checks say. */
    method ReceiveTicket(verdict: Verdict, rand: Rand, nonce: nat, expirationBlock: Block, latest: Block)
      returns (won: bool, error: Option<Error>)
      modifies this
      ensures won <==> verdict.Winning?
      ensures error.None? <==> (verdict.Plain? || verdict.Winning?) &&
                               Fresh(old(senderNonces), rand, nonce) && expirationBlock > latest
      ensures error == Some(FatalReceiveErr) <==> verdict.BadSender? || verdict.BadTicket?
      ensures error == Some(InvalidNonce) ==> !Fresh(old(senderNonces), rand, nonce)
      ensures senderNonces ==
                if (verdict.Plain? || verdict.Winning?) && Fresh(old(senderNonces), rand, nonce)
                then old(senderNonces)[rand := Nonce(nonce, expirationBlock)]
                else old(senderNonces)
    {
      won := false;
      if verdict.BadSender? {
        return false, Some(FatalReceiveErr);
      }
      if verdict.BadSignature? {
        return false, Some(InvalidSignature);
      }
      if verdict.BadTicket? {
        return false, Some(FatalReceiveErr);
      }
      won := verdict.Winning?;
      var ok := UpdateSenderNonce(rand, nonce, expirationBlock);
      if !ok {
        return won, Some(InvalidNonce);
      }
      if expirationBlock <= latest {
        return won, Some(ParamsExpired);
      }
      error := None;
    }
  }

  // ---------------------------------------------------------------- concurrent runs

  /** One ticket between its nonce update and its expiration check, or after it. */
  datatype State = Pending | Accepted | Refused
  datatype Call = Call(rand: Rand, nonce: nat, state: State)

  /** `calls` holds, in the order of their nonce updates, the tickets whose nonce was recorded;
      `cleaned` is the highest block for which nonces were deleted. */
  datatype System = System(nonces: map<Rand, Nonce>, block: Block, cleaned: Option<Block>, calls: seq<Call>)

  datatype Event =
    | Update(rand: Rand, nonce: nat)
    | Check(i: nat)
    | NewBlock(block: Block)
    | Cleanup(block: Block)

  /** The L1 height may rise and fall, and blocks may be cleaned up in any order. */
  predicate Enabled(s: System, e: Event) {
    e.Check? ==> e.i < |s.calls| && s.calls[e.i].state.Pending?
  }

  function Highest(cleaned: Option<Block>, b: Block): Option<Block> {
    if cleaned.Some? && cleaned.value >= b then cleaned else Some(b)
  }

  /** `expiry` is what the secret numbers commit to. The nonce update is atomic; the expiration
      check of the same ticket is a separate, later step. */
  function Step(expiry: Rand -> Block, s: System, e: Event): System
    requires Enabled(s, e)
  {
    match e
    case Update(rand, nonce) =>
      if Fresh(s.nonces, rand, nonce) then
        s.(nonces := s.nonces[rand := Nonce(nonce, expiry(rand))],
           calls := s.calls + [Call(rand, nonce, Pending)])
      else s
    case Check(i) =>
      var call := s.calls[i];
      s.(calls := s.calls[i := call.(state := if expiry(call.rand) <= s.block then Refused else Accepted)])
    case NewBlock(b) => s.(block := b)
    case Cleanup(b) => s.(nonces := Expire(s.nonces, b), cleaned := Highest(s.cleaned, b))
  }

  predicate Runs(expiry: Rand -> Block, s: System, run: seq<Event>)
    decreases |run|
  {
    run == [] || (Enabled(s, run[0]) && Runs(expiry, Step(expiry, s, run[0]), run[1..]))
  }

  function After(expiry: Rand -> Block, s: System, run: seq<Event>): System
    requires Runs(expiry, s, run)
    decreases |run|
  {
    if run == [] then s else After(expiry, Step(expiry, s, run[0]), run[1..])
  }

  predicate CleanedUp(s: System, b: Block) { s.cleaned.Some? && b <= s.cleaned.value }

  /** Nonces expiring at `b` were deleted, yet by the height last seen they have not expired. */
  predicate Gap(s: System, b: Block) { s.block < b && CleanedUp(s, b) }

  /** No ticket is checked in such a gap. */
  predicate Sound(expiry: Rand -> Block, s: System, e: Event)
    requires Enabled(s, e)
  {
    e.Check? ==> !Gap(s, expiry(s.calls[e.i].rand))
  }

  predicate SoundRun(expiry: Rand -> Block, s: System, run: seq<Event>)
    requires Runs(expiry, s, run)
    decreases |run|
  {
    run == [] || (Sound(expiry, s, run[0]) && SoundRun(expiry, Step(expiry, s, run[0]), run[1..]))
  }

  /** Every recorded nonce is still covered by an entry, unless its block was cleaned up. */
  ghost predicate Covered(expiry: Rand -> Block, s: System) {
    && (forall r :: r in s.nonces ==> s.nonces[r].expirationBlock == expiry(r))
    && (forall i :: 0 <= i < |s.calls| ==>
          var c := s.calls[i];
          CleanedUp(s, expiry(c.rand)) || (c.rand in s.nonces && s.nonces[c.rand].nonce >= c.nonce))
  }

  ghost predicate Replayed(s: System, i: int, j: int)
    requires 0 <= i < j < |s.calls|
  {
    s.calls[i].rand == s.calls[j].rand && s.calls[j].nonce <= s.calls[i].nonce
  }

  /** A replay can only get past the nonce check when its block was cleaned up. */
  ghost predicate ReplaysDoomed(expiry: Rand -> Block, s: System) {
    forall i, j :: 0 <= i < j < |s.calls| && Replayed(s, i, j) ==>
      CleanedUp(s, expiry(s.calls[j].rand)) && !s.calls[j].state.Accepted?
  }

  ghost predicate Safe(expiry: Rand -> Block, s: System) {
    Covered(expiry, s) && ReplaysDoomed(expiry, s)
  }

  lemma UpdateKeepsSafe(expiry: Rand -> Block, s: System, rand: Rand, nonce: nat)
    requires Safe(expiry, s) && Fresh(s.nonces, rand, nonce)
    ensures Safe(expiry, Step(expiry, s, Update(rand, nonce)))
  {
    var s' := Step(expiry, s, Update(rand, nonce));
    forall i, j | 0 <= i < j < |s'.calls| && Replayed(s', i, j)
      ensures CleanedUp(s', expiry(s'.calls[j].rand)) && !s'.calls[j].state.Accepted?
    {
      if j < |s.calls| {
        assert Replayed(s, i, j);
      }
    }
  }

  lemma CheckKeepsSafe(expiry: Rand -> Block, s: System, k: nat)
    requires Safe(expiry, s) && Enabled(s, Check(k)) && Sound(expiry, s, Check(k))
    ensures Safe(expiry, Step(expiry, s, Check(k)))
  {
    var s' := Step(expiry, s, Check(k));
    forall i, j | 0 <= i < j < |s'.calls| && Replayed(s', i, j)
      ensures CleanedUp(s', expiry(s'.calls[j].rand)) && !s'.calls[j].state.Accepted?
    {
      assert Replayed(s, i, j);
    }
  }

  lemma StepKeepsSafe(expiry: Rand -> Block, s: System, e: Event)
    requires Safe(expiry, s) && Enabled(s, e) && Sound(expiry, s, e)
    ensures Safe(expiry, Step(expiry, s, e))
  {
    match e
    case Update(rand, nonce) =>
      if Fresh(s.nonces, rand, nonce) { UpdateKeepsSafe(expiry, s, rand, nonce); }
    case Check(k) => CheckKeepsSafe(expiry, s, k);
    case NewBlock(b) =>
      var s' := Step(expiry, s, e);
      assert forall i, j :: 0 <= i < j < |s.calls| ==> Replayed(s', i, j) == Replayed(s, i, j);
    case Cleanup(b) =>
      var s' := Step(expiry, s, e);
      assert forall i, j :: 0 <= i < j < |s.calls| ==> Replayed(s', i, j) == Replayed(s, i, j);
  }

  lemma {:induction false} RunKeepsSafe(expiry: Rand -> Block, s: System, run: seq<Event>)
    requires Runs(expiry, s, run) && SoundRun(expiry, s, run) && Safe(expiry, s)
    ensures Safe(expiry, After(expiry, s, run))
    decreases |run|
  {
    if run != [] {
      StepKeepsSafe(expiry, s, run[0]);
      RunKeepsSafe(expiry, Step(expiry, s, run[0]), run[1..]);
    }
  }

  function Start(block: Block): System { System(map[], block, None, []) }

  /** Over every run without a check in a gap, the accepted nonces under one secret number
      strictly increase in the order in which they were recorded; hence no ticket is accepted
      twice, although entries are deleted and the expiration check runs outside the lock. */
  lemma AcceptedNoncesIncrease(expiry: Rand -> Block, block: Block, run: seq<Event>, i: nat, j: nat)
    requires Runs(expiry, Start(block), run) && SoundRun(expiry, Start(block), run)
    requires var s := After(expiry, Start(block), run);
             && i < j < |s.calls|
             && s.calls[i].rand == s.calls[j].rand
             && s.calls[i].state.Accepted? && s.calls[j].state.Accepted?
    ensures var s := After(expiry, Start(block), run);
            s.calls[i].nonce < s.calls[j].nonce
  {
    RunKeepsSafe(expiry, Start(block), run);
    var s := After(expiry, Start(block), run);
    if s.calls[j].nonce <= s.calls[i].nonce {
      assert Replayed(s, i, j);
      assert false;
    }
  }

  // ---------------------------------------------------------------- L1 histories

  /** What the chain does: blocks seen and blocks cleaned up. */
  predicate OnL1(e: Event) { e.NewBlock? || e.Cleanup? }

  predicate IsHistory(h: seq<Event>) { forall k :: 0 <= k < |h| ==> OnL1(h[k]) }

  function HistoryOf(run: seq<Event>): (h: seq<Event>)
    ensures IsHistory(h)
  {
    if run == [] then []
    else (if OnL1(run[0]) then [run[0]] else []) + HistoryOf(run[1..])
  }

  /** At no point of the history is there a gap for the tickets of any secret number. */
  ghost predicate GapFree(expiry: Rand -> Block, s: System, h: seq<Event>)
    requires IsHistory(h)
    decreases |h|
  {
    && (forall r: Rand :: !Gap(s, expiry(r)))
    && (h == [] || GapFree(expiry, Step(expiry, s, h[0]), h[1..]))
  }

  predicate SameL1(s: System, t: System) { s.block == t.block && s.cleaned == t.cleaned }

  /** Gaps do not depend on the tickets received. */
  lemma {:induction false} GapFreeIsOfL1(expiry: Rand -> Block, s: System, t: System, h: seq<Event>)
    requires IsHistory(h) && SameL1(s, t) && GapFree(expiry, s, h)
    ensures GapFree(expiry, t, h)
    decreases |h|
  {
    forall r: Rand ensures !Gap(t, expiry(r)) { assert !Gap(s, expiry(r)); }
    if h != [] {
      GapFreeIsOfL1(expiry, Step(expiry, s, h[0]), Step(expiry, t, h[0]), h[1..]);
    }
  }

  lemma {:induction false} GapFreeIsSound(expiry: Rand -> Block, s: System, run: seq<Event>)
    requires Runs(expiry, s, run) && GapFree(expiry, s, HistoryOf(run))
    ensures SoundRun(expiry, s, run)
    decreases |run|
  {
    if run != [] {
      var s' := Step(expiry, s, run[0]);
      if OnL1(run[0]) {
        assert HistoryOf(run)[1..] == HistoryOf(run[1..]);
      } else {
        assert HistoryOf(run) == HistoryOf(run[1..]);
        GapFreeIsOfL1(expiry, s, s', HistoryOf(run[1..]));
      }
      GapFreeIsSound(expiry, s', run[1..]);
    }
  }

  /** No accepted ticket has a nonce that an earlier accepted one had reached. */
  ghost predicate NoReplay(s: System) {
    forall i, j :: 0 <= i < j < |s.calls| && s.calls[i].state.Accepted? && s.calls[j].state.Accepted? ==>
      !Replayed(s, i, j)
  }

  lemma OneStep(expiry: Rand -> Block, s: System, e: Event)
    requires Enabled(s, e)
    ensures Runs(expiry, s, [e]) && After(expiry, s, [e]) == Step(expiry, s, e)
  {
    assert [e][1..] == [];
    assert Runs(expiry, Step(expiry, s, e), []);
  }

  lemma {:induction false} RunsJoin(expiry: Rand -> Block, s: System, a: seq<Event>, b: seq<Event>)
    requires Runs(expiry, s, a) && Runs(expiry, After(expiry, s, a), b)
    ensures Runs(expiry, s, a + b)
    ensures After(expiry, s, a + b) == After(expiry, After(expiry, s, a), b)
    decreases |a|
  {
    if a == [] {
      assert a + b == b;
    } else {
      assert (a + b)[1..] == a[1..] + b;
      RunsJoin(expiry, Step(expiry, s, a[0]), a[1..], b);
    }
  }

  lemma {:induction false} HistoryJoin(a: seq<Event>, b: seq<Event>)
    ensures HistoryOf(a + b) == HistoryOf(a) + HistoryOf(b)
  {
    if a == [] {
      assert a + b == b;
    } else {
      var first := if OnL1(a[0]) then [a[0]] else [];
      assert (a + b)[1..] == a[1..] + b;
      assert HistoryOf(a + b) == first + HistoryOf(a[1..] + b);
      HistoryJoin(a[1..], b);
      Regroup(first, HistoryOf(a[1..]), HistoryOf(b));
    }
  }

  lemma Regroup(a: seq<Event>, b: seq<Event>, c: seq<Event>)
    ensures a + (b + c) == (a + b) + c
  {}

  lemma {:induction false} HistoryOfHistory(h: seq<Event>)
    requires IsHistory(h)
    ensures HistoryOf(h) == h
  {
    if h != [] {
      HistoryOfHistory(h[1..]);
    }
  }

  /** A gap somewhere in a history, as a point of it and a secret number. */
  lemma {:induction false} FindGap(expiry: Rand -> Block, s: System, h: seq<Event>) returns (p: nat, r: Rand)
    requires IsHistory(h) && !GapFree(expiry, s, h)
    ensures p <= |h| && IsHistory(h[..p]) && Runs(expiry, s, h[..p])
    ensures Gap(After(expiry, s, h[..p]), expiry(r))
    decreases |h|
  {
    if r0: Rand :| Gap(s, expiry(r0)) {
      p, r := 0, r0;
    } else {
      var p', r' := FindGap(expiry, Step(expiry, s, h[0]), h[1..]);
      p, r := p' + 1, r';
      assert h[..p][1..] == h[1..][..p'];
    }
  }

  /** One ticket is recorded, under a block not cleaned up; nothing else is. */
  ghost predicate OnlyEntry(expiry: Rand -> Block, s: System, r: Rand) {
    && (forall x :: x in s.nonces ==> x == r && s.nonces[x].expirationBlock == expiry(r))
    && (r in s.nonces ==> !CleanedUp(s, expiry(r)))
  }

  lemma {:induction false} HistoryKeeps(expiry: Rand -> Block, s: System, h: seq<Event>, r: Rand)
    requires IsHistory(h)
    ensures Runs(expiry, s, h) && After(expiry, s, h).calls == s.calls
    ensures OnlyEntry(expiry, s, r) ==> OnlyEntry(expiry, After(expiry, s, h), r)
    decreases |h|
  {
    if h != [] {
      HistoryKeeps(expiry, Step(expiry, s, h[0]), h[1..], r);
    }
  }

  /** The chain moves alike whatever tickets were received. */
  lemma {:induction false} HistoryMoves(expiry: Rand -> Block, s: System, t: System, h: seq<Event>)
    requires IsHistory(h) && SameL1(s, t) && Runs(expiry, s, h) && Runs(expiry, t, h)
    ensures SameL1(After(expiry, s, h), After(expiry, t, h))
    decreases |h|
  {
    if h != [] {
      HistoryMoves(expiry, Step(expiry, s, h[0]), Step(expiry, t, h[0]), h[1..]);
    }
  }

  const FIRST: nat := 0

  /** Receiving the same ticket again in a gap, then checking both. */
  function Again(r: Rand): seq<Event> { [Update(r, FIRST), Check(0), Check(1)] }

  function Twice(r: Rand): seq<Call> { [Call(r, FIRST, Accepted), Call(r, FIRST, Accepted)] }

  lemma AgainIsAccepted(expiry: Rand -> Block, s: System, r: Rand)
    requires s.calls == [Call(r, FIRST, Pending)] && OnlyEntry(expiry, s, r) && Gap(s, expiry(r))
    ensures Runs(expiry, s, Again(r)) && After(expiry, s, Again(r)).calls == Twice(r)
  {
    var s1 := Step(expiry, s, Update(r, FIRST));
    var s2 := Step(expiry, s1, Check(0));
    assert s1.calls == [Call(r, FIRST, Pending), Call(r, FIRST, Pending)];
    assert s2.calls == [Call(r, FIRST, Accepted), Call(r, FIRST, Pending)];
    assert Again(r)[1..] == [Check(0), Check(1)] && Again(r)[1..][1..] == [Check(1)];
    OneStep(expiry, s2, Check(1));
  }

  /** A run over the history in which a ticket is received before anything happens, and again
      at point `p`. */
  function ReplayRun(h: seq<Event>, p: nat, r: Rand): seq<Event>
    requires p <= |h|
  {
    [Update(r, FIRST)] + h[..p] + Again(r) + h[p..]
  }

  lemma NoHistory(e: Event)
    requires !OnL1(e)
    ensures HistoryOf([e]) == []
  {
    assert [e][1..] == [];
  }

  lemma AgainIsNoHistory(r: Rand)
    ensures HistoryOf(Again(r)) == []
  {
    assert Again(r) == [Update(r, FIRST)] + ([Check(0)] + [Check(1)]);
    HistoryJoin([Update(r, FIRST)], [Check(0)] + [Check(1)]);
    HistoryJoin([Check(0)], [Check(1)]);
    NoHistory(Update(r, FIRST));
    NoHistory(Check(0));
    NoHistory(Check(1));
  }

  lemma ReplayRunIsOver(h: seq<Event>, p: nat, r: Rand)
    requires IsHistory(h) && p <= |h|
    ensures HistoryOf(ReplayRun(h, p, r)) == h
  {
    var update, before, after := [Update(r, FIRST)], h[..p], h[p..];
    NoHistory(Update(r, FIRST));
    AgainIsNoHistory(r);
    HistoryOfHistory(before);
    HistoryOfHistory(after);
    HistoryJoin(update, before);
    assert HistoryOf(update + before) == before;
    HistoryJoin(update + before, Again(r));
    assert HistoryOf(update + before + Again(r)) == before;
    HistoryJoin(update + before + Again(r), after);
    assert before + after == h;
  }

  /** A ticket recorded at the start is pending and no longer covered when a gap opens for it. */
  lemma EntryIsGone(expiry: Rand -> Block, block: Block, h: seq<Event>, r: Rand)
    requires IsHistory(h) && Runs(expiry, Start(block), h) && Gap(After(expiry, Start(block), h), expiry(r))
    ensures Runs(expiry, Start(block), [Update(r, FIRST)] + h)
    ensures var s := After(expiry, Start(block), [Update(r, FIRST)] + h);
            s.calls == [Call(r, FIRST, Pending)] && OnlyEntry(expiry, s, r) && Gap(s, expiry(r))
  {
    var s0 := Start(block);
    var s1 := Step(expiry, s0, Update(r, FIRST));
    OneStep(expiry, s0, Update(r, FIRST));
    HistoryKeeps(expiry, s1, h, r);
    HistoryMoves(expiry, s0, s1, h);
    RunsJoin(expiry, s0, [Update(r, FIRST)], h);
  }

  lemma GapAdmitsReplay(expiry: Rand -> Block, block: Block, h: seq<Event>, p: nat, r: Rand)
    requires IsHistory(h) && p <= |h| && Runs(expiry, Start(block), h[..p])
    requires Gap(After(expiry, Start(block), h[..p]), expiry(r))
    ensures Runs(expiry, Start(block), ReplayRun(h, p, r))
    ensures After(expiry, Start(block), ReplayRun(h, p, r)).calls == Twice(r)
  {
    var s0, first := Start(block), [Update(r, FIRST)] + h[..p];
    EntryIsGone(expiry, block, h[..p], r);
    AgainIsAccepted(expiry, After(expiry, s0, first), r);
    RunsJoin(expiry, s0, first, Again(r));
    HistoryKeeps(expiry, After(expiry, s0, first + Again(r)), h[p..], r);
    RunsJoin(expiry, s0, first + Again(r), h[p..]);
  }

  /** Replay protection, exactly: a history of the chain lets no ticket be accepted twice, in
      any run over it, if and only if at no point of it a block last seen lies below the
      expiration block of tickets whose nonces were already cleaned up. */
  lemma ReplayProtectionIff(expiry: Rand -> Block, block: Block, h: seq<Event>)
    requires IsHistory(h)
    ensures (forall run: seq<Event> | HistoryOf(run) == h && Runs(expiry, Start(block), run) ::
               NoReplay(After(expiry, Start(block), run))) <==>
            GapFree(expiry, Start(block), h)
  {
    if GapFree(expiry, Start(block), h) {
      forall run: seq<Event> | HistoryOf(run) == h && Runs(expiry, Start(block), run)
        ensures NoReplay(After(expiry, Start(block), run))
      {
        GapFreeIsSound(expiry, Start(block), run);
        RunKeepsSafe(expiry, Start(block), run);
      }
    } else {
      var p, r := FindGap(expiry, Start(block), h);
      var run := ReplayRun(h, p, r);
      ReplayRunIsOver(h, p, r);
      GapAdmitsReplay(expiry, block, h, p, r);
      var s := After(expiry, Start(block), run);
      assert Replayed(s, 0, 1);
      assert !NoReplay(s);
    }
  }

  /** The height does not fall, and a block is cleaned up only once it was seen. */
  predicate Rising(s: System, e: Event) {
    (e.NewBlock? ==> e.block >= s.block) && (e.Cleanup? ==> e.block <= s.block)
  }

  predicate RisingHistory(expiry: Rand -> Block, s: System, h: seq<Event>)
    requires IsHistory(h)
    decreases |h|
  {
    h == [] || (Rising(s, h[0]) && RisingHistory(expiry, Step(expiry, s, h[0]), h[1..]))
  }

  /** Histories whose heights do not fall have no gap. */
  lemma {:induction false} RisingIsGapFree(expiry: Rand -> Block, s: System, h: seq<Event>)
    requires IsHistory(h) && RisingHistory(expiry, s, h)
    requires s.cleaned.Some? ==> s.cleaned.value <= s.block
    ensures GapFree(expiry, s, h)
    decreases |h|
  {
    if h != [] {
      RisingIsGapFree(expiry, Step(expiry, s, h[0]), h[1..]);
    }
  }

  /** Such is a height that rises or stays and is then cleaned up. */
  lemma RisesAndCleansUp(expiry: Rand -> Block, low: Block, high: Block)
    requires low <= high
    ensures RisingHistory(expiry, Start(low), [NewBlock(high), Cleanup(high)])
  {
    var h := [NewBlock(high), Cleanup(high)];
    assert h[1..] == [Cleanup(high)] && h[1..][1..] == [];
    var s1 := Step(expiry, Start(low), NewBlock(high));
    assert RisingHistory(expiry, Step(expiry, s1, Cleanup(high)), []);
    assert RisingHistory(expiry, s1, [Cleanup(high)]);
  }

  function Fall(low: Block, high: Block): seq<Event> { [NewBlock(high), Cleanup(high), NewBlock(low)] }

  /** When the height rises to `high`, is cleaned up and falls back, tickets can be accepted
      twice exactly if some expire in between. */
  lemma FallingHeightAdmitsReplay(expiry: Rand -> Block, low: Block, high: Block)
    requires low <= high
    ensures (forall run: seq<Event> | HistoryOf(run) == Fall(low, high) && Runs(expiry, Start(low), run) ::
               NoReplay(After(expiry, Start(low), run))) <==>
            forall r: Rand :: !(low < expiry(r) <= high)
  {
    var s1 := Step(expiry, Start(low), NewBlock(high));
    var s2 := Step(expiry, s1, Cleanup(high));
    var s3 := Step(expiry, s2, NewBlock(low));
    assert Fall(low, high)[1..] == [Cleanup(high), NewBlock(low)];
    assert Fall(low, high)[1..][1..] == [NewBlock(low)];
    assert forall r: Rand :: Gap(s3, expiry(r)) <==> low < expiry(r) <= high;
    assert GapFree(expiry, s3, []) <==> forall r: Rand :: !Gap(s3, expiry(r));
    assert GapFree(expiry, s2, [NewBlock(low)]) <==> GapFree(expiry, s3, []);
    ReplayProtectionIff(expiry, low, Fall(low, high));
  }

  // ---------------------------------------------------------------- the sender's nonces

  const TWO_32 := 0x1_0000_0000

  /** A payment session of the sender; the counter is a 32-bit integer that wraps. */
  class PaymentSession {
    var senderNonce: nat

    ghost predicate Valid() reads this { senderNonce < TWO_32 }

    constructor ()
      ensures Valid() && senderNonce == 0
    {
      senderNonce := 0;
    }

    /** `failsAt` is the ticket at which signing fails, if it is among the first `size`. Nonces
        drawn up to a failure are used up. */
    method CreateTicketBatch(size: nat, failsAt: nat) returns (nonces: Option<seq<nat>>)
      requires Valid()
      modifies this
      ensures Valid()
      ensures nonces == if failsAt < size then None else Some(BatchNonces(old(senderNonce), size))
      ensures senderNonce == (old(senderNonce) + if failsAt < size then failsAt + 1 else size) % TWO_32
    {
      var drawn: seq<nat> := [];
      for i := 0 to size
        invariant Valid() && i <= failsAt
        invariant drawn == BatchNonces(old(senderNonce), i)
        invariant senderNonce == (old(senderNonce) + i) % TWO_32
      {
        NextNonce(old(senderNonce) + i);
        senderNonce := (senderNonce + 1) % TWO_32;
        if i == failsAt {
          return None;
        }
        drawn := drawn + [senderNonce];
      }
      nonces := Some(drawn);
    }
  }

  lemma NextNonce(x: nat)
    ensures (x % TWO_32 + 1) % TWO_32 == (x + 1) % TWO_32
  {}

  function BatchNonces(last: nat, size: nat): (nonces: seq<nat>)
    ensures |nonces| == size
    ensures forall i :: 0 <= i < size ==> nonces[i] == (last + 1 + i) % TWO_32
  {
    seq(size, i requires 0 <= i => (last + 1 + i) % TWO_32)
  }

  /** Every nonce of the batch passes the recipient's check, one after the other. */
  predicate TakesAll(nonces: map<Rand, Nonce>, rand: Rand, expirationBlock: Block, batch: seq<nat>)
    decreases |batch|
  {
    batch == [] ||
    (&& Fresh(nonces, rand, batch[0])
     && TakesAll(nonces[rand := Nonce(batch[0], expirationBlock)], rand, expirationBlock, batch[1..]))
  }

  predicate Increasing(xs: seq<nat>) {
    forall i, j :: 0 <= i < j < |xs| ==> xs[i] < xs[j]
  }

  /** The recipient takes tickets in whatever order they come exactly when their nonces increase
      from the one recorded. */
  lemma {:induction false} TakenIffIncreasing(nonces: map<Rand, Nonce>, rand: Rand, block: Block, batch: seq<nat>)
    ensures TakesAll(nonces, rand, block, batch) <==>
              Increasing(batch) && forall i :: 0 <= i < |batch| ==> Fresh(nonces, rand, batch[i])
    decreases |batch|
  {
    if batch != [] {
      var nonces' := nonces[rand := Nonce(batch[0], block)];
      TakenIffIncreasing(nonces', rand, block, batch[1..]);
      assert forall i :: 1 <= i < |batch| ==> batch[i] == batch[1..][i - 1];
      if TakesAll(nonces, rand, block, batch) {
        assert forall i :: 1 <= i < |batch| ==> Fresh(nonces', rand, batch[i]);
      }
    }
  }

  lemma BatchIncreases(last: nat, size: nat)
    requires last + size < TWO_32
    ensures Increasing(BatchNonces(last, size))
    ensures forall i :: 0 <= i < size ==> BatchNonces(last, size)[i] > last
  {
    forall i | 0 <= i < size ensures BatchNonces(last, size)[i] == last + 1 + i { NotWrapped(last + 1 + i); }
  }

  lemma NotWrapped(x: nat)
    requires x < TWO_32
    ensures x % TWO_32 == x
  {}

  lemma BatchWraps(last: nat, size: nat)
    requires last < TWO_32 <= last + size
    ensures BatchNonces(last, size)[TWO_32 - last - 1] == 0
  {}

  /** The recipient takes all tickets of an honest sender's next batch exactly when the 32-bit
      counter does not wrap within it. `last` is the last nonce the sender used and the
      recipient recorded; 0 stands for none. */
  lemma BatchIsTaken(nonces: map<Rand, Nonce>, rand: Rand, block: Block, last: nat, size: nat)
    requires last < TWO_32
    requires if rand in nonces then nonces[rand].nonce == last else last == 0
    ensures TakesAll(nonces, rand, block, BatchNonces(last, size)) <==> size == 0 || last + size < TWO_32
  {
    var batch := BatchNonces(last, size);
    TakenIffIncreasing(nonces, rand, block, batch);
    if last + size < TWO_32 {
      BatchIncreases(last, size);
    } else {
      BatchWraps(last, size);
      var i := TWO_32 - last - 1;
      assert i > 0 ==> !(batch[0] < batch[i]);
      assert i == 0 ==> !Fresh(nonces, rand, batch[i]);
    }
  }

  lemma HeadIsLeast(a: seq<nat>, x: nat)
    requires Increasing(a) && x in multiset(a)
    ensures a != [] && a[0] <= x
  {
    assert x in a;
  }

  lemma TailOf(a: seq<nat>)
    requires Increasing(a) && a != []
    ensures Increasing(a[1..]) && multiset(a[1..]) == multiset(a) - multiset{a[0]}
  {
    assert a == [a[0]] + a[1..];
  }

  lemma SameHead(a: seq<nat>, b: seq<nat>)
    requires Increasing(a) && Increasing(b) && multiset(a) == multiset(b) && a != []
    ensures b != [] && a[0] == b[0]
  {
    assert a[0] in multiset(a);
    HeadIsLeast(b, a[0]);
    assert b[0] in multiset(b);
    HeadIsLeast(a, b[0]);
  }

  lemma {:induction false} SameIncreasing(a: seq<nat>, b: seq<nat>)
    requires Increasing(a) && Increasing(b) && multiset(a) == multiset(b)
    ensures a == b
  {
    if a == [] {
      assert |multiset(b)| == |b|;
    } else {
      SameHead(a, b);
      TailOf(a);
      TailOf(b);
      SameIncreasing(a[1..], b[1..]);
      assert a == [a[0]] + a[1..] && b == [b[0]] + b[1..];
    }
  }

  /** Batches of one session that are delivered concurrently: short of a wrap, all tickets are
      taken exactly when they arrive in the order in which their nonces were drawn. */
  lemma InterleavingIsTaken(nonces: map<Rand, Nonce>, rand: Rand, block: Block, last: nat, size: nat,
                            delivered: seq<nat>)
    requires last + size < TWO_32
    requires if rand in nonces then nonces[rand].nonce == last else last == 0
    requires multiset(delivered) == multiset(BatchNonces(last, size))
    ensures TakesAll(nonces, rand, block, delivered) <==> delivered == BatchNonces(last, size)
  {
    if TakesAll(nonces, rand, block, delivered) {
      TakenIffIncreasing(nonces, rand, block, delivered);
      BatchIncreases(last, size);
      SameIncreasing(delivered, BatchNonces(last, size));
    } else {
      BatchIsTaken(nonces, rand, block, last, size);
    }
  }

  /** Two batches of one ticket each, delivered in the wrong order: the first one is refused. */
  lemma OvertakenTicketIsRefused(rand: Rand, block: Block)
    ensures multiset([2, 1]) == multiset(BatchNonces(0, 2)) && !TakesAll(map[], rand, block, [2, 1])
  {
    assert BatchNonces(0, 2) == [1, 2];
    TakenIffIncreasing(map[], rand, block, [2, 1]);
  }
}
