/** The queue of winning tickets of one sender (pm/queue.go) over the ticket store
    (common/db.go). The store lists its records in the order of their creation; the
    signature is the primary key. */
module TicketQueue {
  import opened Base

  type Address = nat
  type Signature = nat

  const TICKET_VALIDITY_PERIOD := 2

  datatype Record = Record(sig: Signature, sender: Address, recipient: Address,
                           creationRound: int, expirationBlock: int, redeemed: bool)

  predicate Eligible(r: Record, sender: Address, minRound: int) {
    r.sender == sender && r.creationRound >= minRound && !r.redeemed
  }

  /** The tickets still to be redeemed for a sender, oldest first. */
  function Queue(rs: seq<Record>, sender: Address, minRound: int): (q: seq<Record>)
    ensures |q| <= |rs|
    ensures forall r :: r in q ==> r in rs && Eligible(r, sender, minRound)
  {
    if rs == [] then []
    else (if Eligible(rs[0], sender, minRound) then [rs[0]] else []) + Queue(rs[1..], sender, minRound)
  }

  /** Marks the first `k` tickets of the queue as redeemed. */
  function MarkFirst(rs: seq<Record>, sender: Address, minRound: int, k: nat): (m: seq<Record>)
    ensures |m| == |rs|
    decreases |rs|
  {
    if rs == [] || k == 0 then rs
    else if Eligible(rs[0], sender, minRound) then
      [rs[0].(redeemed := true)] + MarkFirst(rs[1..], sender, minRound, k - 1)
    else [rs[0]] + MarkFirst(rs[1..], sender, minRound, k)
  }

  predicate UniqueSigs(rs: seq<Record>) {
    forall i, j :: 0 <= i < j < |rs| ==> rs[i].sig != rs[j].sig
  }

  function MarkSig(rs: seq<Record>, sig: Signature): (m: seq<Record>)
    ensures |m| == |rs|
    ensures forall i :: 0 <= i < |rs| ==> m[i] == if rs[i].sig == sig then rs[i].(redeemed := true) else rs[i]
  {
    seq(|rs|, i requires 0 <= i < |rs| => if rs[i].sig == sig then rs[i].(redeemed := true) else rs[i])
  }

  // ---------------------------------------------------------------- facts about the queue

  lemma {:induction false} QueueAppend(a: seq<Record>, b: seq<Record>, sender: Address, minRound: int)
    ensures Queue(a + b, sender, minRound) == Queue(a, sender, minRound) + Queue(b, sender, minRound)
  {
    if a == [] {
      assert a + b == b;
    } else {
      assert (a + b)[1..] == a[1..] + b;
      QueueAppend(a[1..], b, sender, minRound);
    }
  }

  lemma {:induction false} MarkFirstAppend(a: seq<Record>, b: seq<Record>, sender: Address, minRound: int, k: nat)
    requires k <= |Queue(a, sender, minRound)|
    ensures MarkFirst(a + b, sender, minRound, k) == MarkFirst(a, sender, minRound, k) + b
    decreases |a|
  {
    if a != [] && k > 0 {
      assert (a + b)[1..] == a[1..] + b;
      MarkFirstAppend(a[1..], b, sender, minRound, if Eligible(a[0], sender, minRound) then k - 1 else k);
    }
  }

  /** What is marked leaves the front of the queue, and nothing else does. */
  lemma {:induction false} MarkFirstDrops(rs: seq<Record>, sender: Address, minRound: int, k: nat)
    requires k <= |Queue(rs, sender, minRound)|
    ensures Queue(MarkFirst(rs, sender, minRound, k), sender, minRound) == Queue(rs, sender, minRound)[k..]
    decreases |rs|
  {
    if rs != [] && k > 0 {
      var m := MarkFirst(rs, sender, minRound, k);
      var k' := if Eligible(rs[0], sender, minRound) then k - 1 else k;
      MarkFirstDrops(rs[1..], sender, minRound, k');
      assert m[1..] == MarkFirst(rs[1..], sender, minRound, k');
    }
  }

  lemma {:induction false} MarkFirstOnce(rs: seq<Record>, sender: Address, minRound: int, i: nat)
    requires i < |rs| && Eligible(rs[i], sender, minRound)
    requires forall j :: 0 <= j < i ==> !Eligible(rs[j], sender, minRound)
    ensures MarkFirst(rs, sender, minRound, 1) == rs[i := rs[i].(redeemed := true)]
    ensures Queue(rs, sender, minRound) != [] && Queue(rs, sender, minRound)[0] == rs[i]
  {
    if i == 0 {
    } else {
      MarkFirstOnce(rs[1..], sender, minRound, i - 1);
    }
  }

  lemma {:induction false} MarkFirstTwice(rs: seq<Record>, sender: Address, minRound: int, k: nat)
    requires k < |Queue(rs, sender, minRound)|
    ensures MarkFirst(MarkFirst(rs, sender, minRound, k), sender, minRound, 1) == MarkFirst(rs, sender, minRound, k + 1)
    decreases |rs|
  {
    if rs != [] && k > 0 {
      var m := MarkFirst(rs, sender, minRound, k);
      var k' := if Eligible(rs[0], sender, minRound) then k - 1 else k;
      MarkFirstTwice(rs[1..], sender, minRound, k');
      assert m[1..] == MarkFirst(rs[1..], sender, minRound, k');
    }
  }

  lemma {:induction false} QueueHeadExists(rs: seq<Record>, sender: Address, minRound: int) returns (i: nat)
    requires Queue(rs, sender, minRound) != []
    ensures i < |rs| && Eligible(rs[i], sender, minRound)
    ensures forall j :: 0 <= j < i ==> !Eligible(rs[j], sender, minRound)
  {
    if Eligible(rs[0], sender, minRound) {
      i := 0;
    } else {
      var j := QueueHeadExists(rs[1..], sender, minRound);
      i := j + 1;
    }
  }

  lemma {:induction false} QueueEmpty(rs: seq<Record>, sender: Address, minRound: int)
    requires forall i :: 0 <= i < |rs| ==> !Eligible(rs[i], sender, minRound)
    ensures Queue(rs, sender, minRound) == []
  {
    if rs != [] {
      QueueEmpty(rs[1..], sender, minRound);
    }
  }

  /** Signatures survive marking. */
  lemma {:induction false} MarkFirstSigs(rs: seq<Record>, sender: Address, minRound: int, k: nat)
    ensures forall i :: 0 <= i < |rs| ==> MarkFirst(rs, sender, minRound, k)[i].sig == rs[i].sig
    decreases |rs|
  {
    if rs != [] && k > 0 {
      MarkFirstSigs(rs[1..], sender, minRound, if Eligible(rs[0], sender, minRound) then k - 1 else k);
    }
  }

  lemma MarkSigOfHead(rs: seq<Record>, sender: Address, minRound: int, k: nat)
    requires UniqueSigs(rs) && k < |Queue(rs, sender, minRound)|
    ensures var m := MarkFirst(rs, sender, minRound, k);
            && Queue(m, sender, minRound) != []
            && Queue(m, sender, minRound)[0] == Queue(rs, sender, minRound)[k]
            && MarkSig(m, Queue(m, sender, minRound)[0].sig) == MarkFirst(rs, sender, minRound, k + 1)
  {
    var m := MarkFirst(rs, sender, minRound, k);
    MarkFirstDrops(rs, sender, minRound, k);
    MarkFirstSigs(rs, sender, minRound, k);
    var i := QueueHeadExists(m, sender, minRound);
    MarkFirstOnce(m, sender, minRound, i);
    MarkFirstTwice(rs, sender, minRound, k);
    assert MarkSig(m, m[i].sig) == m[i := m[i].(redeemed := true)];
  }

  lemma {:induction false} AllMarked(a: seq<Record>, b: seq<Record>, sender: Address, minRound: int, k: nat)
    requires k == |Queue(a, sender, minRound)|
    ensures forall i :: 0 <= i < |a| ==> !Eligible(MarkFirst(a + b, sender, minRound, k)[i], sender, minRound)
  {
    MarkFirstAppend(a, b, sender, minRound, k);
    MarkFirstDrops(a, sender, minRound, k);
    var m := MarkFirst(a, sender, minRound, k);
    forall i | 0 <= i < |a| ensures !Eligible(m[i], sender, minRound) {
      NotInEmptyQueue(m, sender, minRound, i);
    }
  }

  lemma {:induction false} NotInEmptyQueue(rs: seq<Record>, sender: Address, minRound: int, i: nat)
    requires Queue(rs, sender, minRound) == [] && i < |rs|
    ensures !Eligible(rs[i], sender, minRound)
  {
    if i > 0 {
      NotInEmptyQueue(rs[1..], sender, minRound, i - 1);
    }
  }

  lemma {:induction false} QueueUnique(rs: seq<Record>, sender: Address, minRound: int, i: nat, j: nat)
    requires UniqueSigs(rs) && i < j < |Queue(rs, sender, minRound)|
    ensures Queue(rs, sender, minRound)[i].sig != Queue(rs, sender, minRound)[j].sig
  {
    var d := if Eligible(rs[0], sender, minRound) then 1 else 0;
    if i >= d {
      QueueUnique(rs[1..], sender, minRound, i - d, j - d);
    } else {
      assert Queue(rs[1..], sender, minRound)[j - 1] in rs[1..];
    }
  }

  // ---------------------------------------------------------------- the store

  class TicketStore {
    var records: seq<Record>

    constructor ()
      ensures records == [] && UniqueSigs(records)
    {
      records := [];
    }

    /** A ticket whose signature is already stored violates the primary key. */
    method StoreWinningTicket(r: Record) returns (ok: bool)
      modifies this
      ensures ok <==> forall i :: 0 <= i < |old(records)| ==> old(records)[i].sig != r.sig
      ensures records == old(records) + if ok then [r.(redeemed := false)] else []
      ensures UniqueSigs(old(records)) ==> UniqueSigs(records)
    {
      ok := forall i :: 0 <= i < |records| ==> records[i].sig != r.sig;
      if ok {
        records := records + [r.(redeemed := false)];
      }
    }

    method WinningTicketCount(sender: Address, minRound: int) returns (n: nat)
      ensures n == |Queue(records, sender, minRound)|
    {
      n := 0;
      for i := 0 to |records|
        invariant n == |Queue(records[..i], sender, minRound)|
      {
        assert records[..i + 1] == records[..i] + [records[i]];
        QueueAppend(records[..i], [records[i]], sender, minRound);
        if Eligible(records[i], sender, minRound) {
          n := n + 1;
        }
      }
      assert records[..|records|] == records;
    }

    method SelectEarliestWinningTicket(sender: Address, minRound: int) returns (r: Option<Record>)
      ensures r == if Queue(records, sender, minRound) == [] then None
                   else Some(Queue(records, sender, minRound)[0])
    {
      for i := 0 to |records|
        invariant forall j :: 0 <= j < i ==> !Eligible(records[j], sender, minRound)
      {
        if Eligible(records[i], sender, minRound) {
          MarkFirstOnce(records, sender, minRound, i);
          return Some(records[i]);
        }
      }
      QueueEmpty(records, sender, minRound);
      r := None;
    }

    method MarkWinningTicketRedeemed(sig: Signature) returns (ok: bool)
      modifies this
      ensures ok <==> exists i :: 0 <= i < |old(records)| && old(records)[i].sig == sig
      ensures records == MarkSig(old(records), sig)
    {
      ok := exists i :: 0 <= i < |records| && records[i].sig == sig;
      records := MarkSig(records, sig);
    }
  }

  // ---------------------------------------------------------------- one block event

  datatype Outcome = Redeemed | Retryable | NonRetryable | QueueStopped

  /** What the surroundings do in one iteration: tickets stored meanwhile by other goroutines,
      database errors, the recipient's activity and the outcome of the redemption. */
  datatype Env = Env(arrivals: seq<Record>, selectFails: bool, active: bool, outcome: Outcome, markFails: bool)

  predicate Final(e: Env) {
    !e.selectFails && e.active && !e.markFails && (e.outcome.Redeemed? || e.outcome.NonRetryable?)
  }

  /** One ticket handed to the consumer, and whether it was marked redeemed afterwards. */
  datatype Submission = Submission(ticket: Record, marked: bool)

  function Marked(log: seq<Submission>): (n: nat)
    ensures n <= |log|
  {
    if log == [] then 0 else Marked(log[..|log| - 1]) + (if log[|log| - 1].marked then 1 else 0)
  }

  /** Every submission is the oldest ticket not yet marked at that time. */
  ghost predicate InOrder(log: seq<Submission>, q: seq<Record>) {
    forall j :: 0 <= j < |log| ==> Marked(log[..j]) < |q| && log[j].ticket == q[Marked(log[..j])]
  }

  lemma InOrderExtends(log: seq<Submission>, q: seq<Record>, s: Submission)
    requires InOrder(log, q)
    ensures Marked(log) < |q| && s.ticket == q[Marked(log)] ==> InOrder(log + [s], q)
    ensures Marked(log + [s]) == Marked(log) + if s.marked then 1 else 0
  {
    assert forall j :: 0 <= j <= |log| ==> (log + [s])[..j] == log[..j];
  }

  /** The state of a pass: of all tickets stored so far, in creation order, the first ones in the
      queue are marked, as many as the log says, and the log is in that order. */
  ghost predicate Progress(all: seq<Record>, log: seq<Submission>, now: seq<Record>,
                           sender: Address, minRound: int, latestBlock: int)
  {
    && UniqueSigs(now)
    && Marked(log) <= |Queue(all, sender, minRound)|
    && now == MarkFirst(all, sender, minRound, Marked(log))
    && InOrder(log, Queue(all, sender, minRound))
    && forall j :: 0 <= j < |log| ==> log[j].ticket.expirationBlock <= latestBlock
  }

  /** Submitted are stored tickets of this sender, not redeemed yet, created in `oldest` or later,
      and with expired parameters. */
  ghost predicate Due(log: seq<Submission>, rs: seq<Record>, sender: Address, oldest: int, latestBlock: int) {
    forall j :: 0 <= j < |log| ==>
      var t := log[j].ticket;
      && t in rs && !t.redeemed && t.sender == sender
      && t.creationRound >= oldest && t.expirationBlock <= latestBlock
  }

  lemma ProgressIsDue(all: seq<Record>, log: seq<Submission>, now: seq<Record>,
                      sender: Address, minRound: int, latestBlock: int)
    requires Progress(all, log, now, sender, minRound, latestBlock)
    ensures Due(log, all, sender, minRound, latestBlock)
  {
    forall j | 0 <= j < |log|
      ensures log[j].ticket in all && Eligible(log[j].ticket, sender, minRound)
    {
      assert log[j].ticket in Queue(all, sender, minRound);
    }
  }

  /** One block event: the tickets stored since the last one, the block, the round, and what
      happens during the pass. */
  datatype Pass = Pass(stored: seq<Record>, latestBlock: int, round: int, countFails: bool, env: nat -> Env)

  class TicketQueue {
    const sender: Address
    const store: TicketStore

    constructor (sender: Address, store: TicketStore)
      ensures this.sender == sender && this.store == store
    {
      this.sender := sender;
      this.store := store;
    }

    /** Tickets stored by others: appended in order, unless already present. */
    method Arrive(arrivals: seq<Record>) returns (arrived: seq<Record>)
      requires UniqueSigs(store.records)
      modifies store
      ensures store.records == old(store.records) + arrived && UniqueSigs(store.records)
      ensures forall k :: 0 <= k < |arrived| ==> !arrived[k].redeemed
    {
      arrived := [];
      for i := 0 to |arrivals|
        invariant store.records == old(store.records) + arrived && UniqueSigs(store.records)
        invariant forall k :: 0 <= k < |arrived| ==> !arrived[k].redeemed
      {
        var ok := store.StoreWinningTicket(arrivals[i]);
        if ok {
          arrived := arrived + [arrivals[i].(redeemed := false)];
        }
      }
    }

    /** Hands one ticket to the consumer and marks it if the outcome is final. */
    method Submit(e: Env, ticket: Record, latestBlock: int, minRound: int, log: seq<Submission>,
                  ghost all: seq<Record>)
      returns (log': seq<Submission>)
      requires Progress(all, log, store.records, sender, minRound, latestBlock)
      requires Marked(log) < |Queue(all, sender, minRound)|
      requires ticket == Queue(all, sender, minRound)[Marked(log)]
      requires ticket.expirationBlock <= latestBlock
      modifies store
      ensures Progress(all, log', store.records, sender, minRound, latestBlock)
      ensures |log'| == |log| + 1 && log' == log + [Submission(ticket, log'[|log|].marked)]
      ensures Final(e) ==> Marked(log') == Marked(log) + 1
      ensures log'[|log|].marked <==> (e.outcome.Redeemed? || e.outcome.NonRetryable?) && !e.markFails
    {
      var done := (e.outcome.Redeemed? || e.outcome.NonRetryable?) && !e.markFails;
      SubmissionProgresses(all, log, store.records, sender, minRound, latestBlock, ticket, done);
      log' := log + [Submission(ticket, done)];
      if done {
        var ok := store.MarkWinningTicketRedeemed(ticket.sig);
      }
    }

    /** One iteration of the loop over the queued tickets. */
    method Iterate(e: Env, latestBlock: int, minRound: int, log: seq<Submission>, arrived: seq<Record>,
                   ghost start: seq<Record>)
      returns (log': seq<Submission>, arrived': seq<Record>, stop: bool)
      requires Progress(start + arrived, log, store.records, sender, minRound, latestBlock)
      requires forall k :: 0 <= k < |arrived| ==> !arrived[k].redeemed
      modifies store
      ensures Progress(start + arrived', log', store.records, sender, minRound, latestBlock)
      ensures forall k :: 0 <= k < |arrived'| ==> !arrived'[k].redeemed
      ensures log <= log' && |log'| <= |log| + 1
      ensures |log'| == |log| + 1 ==> e.active && !e.selectFails
      ensures e.selectFails || (|log'| == |log| + 1 && e.outcome.QueueStopped?) ==> stop
      ensures Final(e) && Marked(log) < |Queue(start, sender, minRound)| &&
              Queue(start, sender, minRound)[Marked(log)].expirationBlock <= latestBlock ==>
                !stop && Marked(log') == Marked(log) + 1
    {
      ghost var before := store.records;
      var more := Arrive(e.arrivals);
      log', arrived', stop := log, arrived + more, true;
      ghost var all := start + arrived';
      ArrivalsProgress(start, arrived, more, log, before, sender, minRound, latestBlock);
      if e.selectFails {
        return;
      }
      var next := store.SelectEarliestWinningTicket(sender, minRound);
      if next.None? {
        return;
      }
      stop := false;
      if e.active && next.value.expirationBlock <= latestBlock {
        log' := Submit(e, next.value, latestBlock, minRound, log, all);
        stop := e.outcome.QueueStopped?;
      }
    }

    /** Handles one L1 block in a fixed round. Whatever the surroundings do, the pass marks the
        first tickets of the queue in creation order and no others, and submits only the oldest
        ticket not yet marked. If every outcome is final and the initially queued tickets have
        expired parameters, it leaves none of them in the queue. */
    method HandleBlockEvent(latestBlock: int, round: int, countFails: bool, env: nat -> Env)
      returns (log: seq<Submission>, arrived: seq<Record>)
      requires UniqueSigs(store.records)
      modifies store
      ensures Progress(old(store.records) + arrived, log, store.records, sender,
                       round - TICKET_VALIDITY_PERIOD, latestBlock)
      ensures forall k :: 0 <= k < |arrived| ==> !arrived[k].redeemed
      ensures Due(log, old(store.records) + arrived, sender, round - 2, latestBlock)
      ensures |log| <= |Queue(old(store.records), sender, round - TICKET_VALIDITY_PERIOD)|
      ensures !countFails &&
              (forall i: nat ::
                 && !env(i).selectFails && env(i).active && !env(i).markFails
                 && (env(i).outcome.Redeemed? || env(i).outcome.NonRetryable?)) &&
              (forall r :: r in Queue(old(store.records), sender, round - TICKET_VALIDITY_PERIOD) ==>
                 r.expirationBlock <= latestBlock) ==>
              forall i :: 0 <= i < |old(store.records)| ==>
                && !Eligible(store.records[i], sender, round - TICKET_VALIDITY_PERIOD)
                && (store.records[i].sender == sender && store.records[i].creationRound >= round - 2 ==>
                      store.records[i].redeemed)
    {
      log, arrived := [], [];
      ghost var start := store.records;
      if countFails {
        return;
      }
      var minRound := round - TICKET_VALIDITY_PERIOD;
      var numTickets := store.WinningTicketCount(sender, minRound);
      ghost var first := Queue(start, sender, minRound);
      ghost var smooth := (forall i: nat :: Final(env(i))) &&
                          (forall r :: r in first ==> r.expirationBlock <= latestBlock);
      for i := 0 to numTickets
        invariant Progress(start + arrived, log, store.records, sender, minRound, latestBlock)
        invariant |log| <= i
        invariant Due(log, start + arrived, sender, minRound, latestBlock)
        invariant forall k :: 0 <= k < |arrived| ==> !arrived[k].redeemed
        invariant smooth ==> Marked(log) == i
      {
        var stop;
        log, arrived, stop := Iterate(env(i), latestBlock, minRound, log, arrived, start);
        ProgressIsDue(start + arrived, log, store.records, sender, minRound, latestBlock);
        if stop {
          return;
        }
      }
      if smooth {
        AllMarked(start, arrived, sender, minRound, Marked(log));
      }
    }

    method StoreBefore(stored: seq<Record>, ghost total: seq<Submission>, ghost first: seq<Record>)
      requires Consistent(total, first, store.records)
      modifies store
      ensures Consistent(total, first, store.records)
    {
      ghost var before := store.records;
      var arrived := Arrive(stored);
      ArrivalsKeep(first, total, before, arrived);
    }

    /** A pass of which the tickets are in the store. */
    method HandlePass(pass: Pass, total: seq<Submission>, ghost first: seq<Record>)
      returns (total': seq<Submission>)
      requires Consistent(total, first, store.records)
      modifies store
      ensures Consistent(total', first, store.records)
    {
      ghost var start := store.records;
      var log, arrived := HandleBlockEvent(pass.latestBlock, pass.round, pass.countFails, pass.env);
      PassKeeps(first, total, start, arrived, log, store.records, sender, pass.round - TICKET_VALIDITY_PERIOD,
                pass.latestBlock);
      total' := total + log;
    }

    /** Any number of passes, in whatever rounds, with tickets stored in between. Once marked, a
        ticket is never submitted again; marked are exactly the tickets redeemed meanwhile. */
    method HandleBlockEvents(passes: seq<Pass>) returns (total: seq<Submission>)
      requires UniqueSigs(store.records)
      modifies store
      ensures UniqueSigs(store.records)
      ensures NeverAgain(total)
      ensures Settled(total, store.records) && Accounted(total, old(store.records), store.records)
    {
      total := [];
      for i := 0 to |passes|
        invariant Consistent(total, old(store.records), store.records)
      {
        StoreBefore(passes[i].stored, total, old(store.records));
        total := HandlePass(passes[i], total, old(store.records));
      }
    }
  }

  /** Tickets that arrive during a pass line up behind those already there. */
  lemma ArrivalsProgress(start: seq<Record>, arrived: seq<Record>, more: seq<Record>, log: seq<Submission>,
                         before: seq<Record>, sender: Address, minRound: int, latestBlock: int)
    requires UniqueSigs(before + more)
    requires Progress(start + arrived, log, before, sender, minRound, latestBlock)
    ensures var all := start + (arrived + more);
            var q := Queue(all, sender, minRound);
            && Progress(all, log, before + more, sender, minRound, latestBlock)
            && Queue(start, sender, minRound) <= q
            && Queue(before + more, sender, minRound) == q[Marked(log)..]
  {
    var a := start + arrived;
    var all := start + (arrived + more);
    assert all == a + more;
    QueueAppend(start, arrived + more, sender, minRound);
    AppendProgresses(a, more, log, before, sender, minRound, latestBlock);
    MarkFirstDrops(all, sender, minRound, Marked(log));
  }

  lemma AppendProgresses(a: seq<Record>, more: seq<Record>, log: seq<Submission>,
                         before: seq<Record>, sender: Address, minRound: int, latestBlock: int)
    requires UniqueSigs(before + more)
    requires Progress(a, log, before, sender, minRound, latestBlock)
    ensures Progress(a + more, log, before + more, sender, minRound, latestBlock)
  {
    MarkFirstAppend(a, more, sender, minRound, Marked(log));
    QueueAppend(a, more, sender, minRound);
  }

  lemma SubmissionProgresses(all: seq<Record>, log: seq<Submission>, now: seq<Record>, sender: Address,
                             minRound: int, latestBlock: int, ticket: Record, done: bool)
    requires Progress(all, log, now, sender, minRound, latestBlock)
    requires Marked(log) < |Queue(all, sender, minRound)|
    requires ticket == Queue(all, sender, minRound)[Marked(log)]
    requires ticket.expirationBlock <= latestBlock
    ensures Progress(all, log + [Submission(ticket, done)], if done then MarkSig(now, ticket.sig) else now,
                     sender, minRound, latestBlock)
    ensures Marked(log + [Submission(ticket, done)]) == Marked(log) + if done then 1 else 0
  {
    UniqueUnmarked(all, sender, minRound, Marked(log));
    MarkSigOfHead(all, sender, minRound, Marked(log));
    InOrderExtends(log, Queue(all, sender, minRound), Submission(ticket, done));
  }

  lemma UniqueUnmarked(rs: seq<Record>, sender: Address, minRound: int, k: nat)
    requires UniqueSigs(MarkFirst(rs, sender, minRound, k))
    ensures UniqueSigs(rs)
  {
    MarkFirstSigs(rs, sender, minRound, k);
  }

  /** Once marked, a ticket is never submitted again in the same pass. */
  lemma NeverResubmitted(log: seq<Submission>, rs: seq<Record>, sender: Address, minRound: int, i: nat, j: nat)
    requires UniqueSigs(rs) && InOrder(log, Queue(rs, sender, minRound))
    requires i < j < |log| && log[i].marked
    ensures log[i].ticket.sig != log[j].ticket.sig
  {
    MarkedGrows(log, i, j);
    QueueUnique(rs, sender, minRound, Marked(log[..i]), Marked(log[..j]));
  }

  lemma {:induction false} MarkedGrows(log: seq<Submission>, i: nat, j: nat)
    requires i < j <= |log| && log[i].marked
    ensures Marked(log[..i]) < Marked(log[..j])
  {
    assert log[..j][..j - 1] == log[..j - 1];
    if i < j - 1 {
      MarkedGrows(log, i, j - 1);
    }
  }

  // ---------------------------------------------------------------- over all passes

  predicate IsRedeemed(rs: seq<Record>, sig: Signature) {
    exists k :: 0 <= k < |rs| && rs[k].sig == sig && rs[k].redeemed
  }

  lemma {:induction false} MarkFirstKeepsRedeemed(rs: seq<Record>, sender: Address, minRound: int, k: nat)
    ensures forall i :: 0 <= i < |rs| && rs[i].redeemed ==> MarkFirst(rs, sender, minRound, k)[i].redeemed
    decreases |rs|
  {
    if rs != [] && k > 0 {
      MarkFirstKeepsRedeemed(rs[1..], sender, minRound, if Eligible(rs[0], sender, minRound) then k - 1 else k);
    }
  }

  /** A record once redeemed stays so, whatever is stored or marked. */
  lemma StaysRedeemed(rs: seq<Record>, arrived: seq<Record>, sender: Address, minRound: int, k: nat, sig: Signature)
    requires IsRedeemed(rs, sig)
    ensures IsRedeemed(MarkFirst(rs + arrived, sender, minRound, k), sig)
  {
    var i :| 0 <= i < |rs| && rs[i].sig == sig && rs[i].redeemed;
    var all := rs + arrived;
    assert all[i] == rs[i];
    MarkFirstKeepsRedeemed(all, sender, minRound, k);
    MarkFirstSigs(all, sender, minRound, k);
    assert MarkFirst(all, sender, minRound, k)[i].redeemed;
  }

  lemma {:induction false} MarkFirstMarks(rs: seq<Record>, sender: Address, minRound: int, k: nat, n: nat)
    requires n < k <= |Queue(rs, sender, minRound)|
    ensures IsRedeemed(MarkFirst(rs, sender, minRound, k), Queue(rs, sender, minRound)[n].sig)
    decreases |rs|
  {
    var m := MarkFirst(rs, sender, minRound, k);
    var d := if Eligible(rs[0], sender, minRound) then 1 else 0;
    if n < d {
      assert m[0].redeemed;
    } else {
      MarkFirstMarks(rs[1..], sender, minRound, k - d, n - d);
      var rest := MarkFirst(rs[1..], sender, minRound, k - d);
      var sig := Queue(rs[1..], sender, minRound)[n - d].sig;
      var i :| 0 <= i < |rest| && rest[i].sig == sig && rest[i].redeemed;
      assert m[i + 1] == rest[i];
    }
  }

  /** Every ticket marked so far is redeemed in the store. */
  ghost predicate Settled(log: seq<Submission>, rs: seq<Record>) {
    forall i :: 0 <= i < |log| && log[i].marked ==> IsRedeemed(rs, log[i].ticket.sig)
  }

  ghost predicate NeverAgain(log: seq<Submission>) {
    forall i, j :: 0 <= i < j < |log| && log[i].marked ==> log[i].ticket.sig != log[j].ticket.sig
  }

  predicate Logged(log: seq<Submission>, sig: Signature) {
    exists i :: 0 <= i < |log| && log[i].marked && log[i].ticket.sig == sig
  }

  /** Whatever is redeemed was so at the start or is logged as marked. */
  ghost predicate Accounted(log: seq<Submission>, start: seq<Record>, now: seq<Record>) {
    && |start| <= |now|
    && forall k :: 0 <= k < |now| && now[k].redeemed ==>
         (k < |start| && start[k].redeemed) || Logged(log, now[k].sig)
  }

  lemma {:induction false} MarkFirstOnly(rs: seq<Record>, sender: Address, minRound: int, k: nat, i: nat)
    returns (n: nat)
    requires k <= |Queue(rs, sender, minRound)| && i < |rs|
    requires MarkFirst(rs, sender, minRound, k)[i].redeemed && !rs[i].redeemed
    ensures n < k && Queue(rs, sender, minRound)[n] == rs[i]
    decreases |rs|
  {
    var d := if Eligible(rs[0], sender, minRound) then 1 else 0;
    if i == 0 {
      n := 0;
    } else {
      var n' := MarkFirstOnly(rs[1..], sender, minRound, k - d, i - 1);
      n := n' + d;
    }
  }

  lemma {:induction false} MarkedAt(log: seq<Submission>, n: nat) returns (j: nat)
    requires n < Marked(log)
    ensures j < |log| && log[j].marked && Marked(log[..j]) == n
    decreases |log|
  {
    var shorter := log[..|log| - 1];
    if n < Marked(shorter) {
      j := MarkedAt(shorter, n);
      assert shorter[..j] == log[..j];
    } else {
      j := |log| - 1;
    }
  }

  lemma PassLogs(all: seq<Record>, log: seq<Submission>, now: seq<Record>,
                 sender: Address, minRound: int, latestBlock: int, i: nat)
    requires Progress(all, log, now, sender, minRound, latestBlock)
    requires i < |now| && now[i].redeemed && !all[i].redeemed
    ensures Logged(log, now[i].sig)
  {
    MarkFirstSigs(all, sender, minRound, Marked(log));
    var n := MarkFirstOnly(all, sender, minRound, Marked(log), i);
    var j := MarkedAt(log, n);
    assert log[j].ticket == all[i];
  }

  lemma LoggedMore(total: seq<Submission>, log: seq<Submission>, sig: Signature)
    requires Logged(total, sig) || Logged(log, sig)
    ensures Logged(total + log, sig)
  {
    if Logged(total, sig) {
      var i :| 0 <= i < |total| && total[i].marked && total[i].ticket.sig == sig;
      assert (total + log)[i] == total[i];
    } else {
      var i :| 0 <= i < |log| && log[i].marked && log[i].ticket.sig == sig;
      assert (total + log)[|total| + i] == log[i];
    }
  }

  lemma PassAccounts(first: seq<Record>, total: seq<Submission>, start: seq<Record>, arrived: seq<Record>,
                     log: seq<Submission>, now: seq<Record>, sender: Address, minRound: int, latestBlock: int)
    requires Accounted(total, first, start) && forall k :: 0 <= k < |arrived| ==> !arrived[k].redeemed
    requires Progress(start + arrived, log, now, sender, minRound, latestBlock)
    ensures Accounted(total + log, first, now)
  {
    var all := start + arrived;
    MarkFirstSigs(all, sender, minRound, Marked(log));
    forall k | 0 <= k < |now| && now[k].redeemed
      ensures (k < |first| && first[k].redeemed) || Logged(total + log, now[k].sig)
    {
      if !all[k].redeemed {
        PassLogs(all, log, now, sender, minRound, latestBlock, k);
        LoggedMore(total, log, now[k].sig);
      } else if !(k < |first| && first[k].redeemed) {
        assert all[k] == start[k];
        LoggedMore(total, log, now[k].sig);
      }
    }
  }

  lemma NotQueued(rs: seq<Record>, sender: Address, minRound: int, sig: Signature, r: Record)
    requires UniqueSigs(rs) && IsRedeemed(rs, sig) && r in Queue(rs, sender, minRound)
    ensures r.sig != sig
  {}

  lemma MarkedIsRedeemed(all: seq<Record>, log: seq<Submission>, now: seq<Record>,
                         sender: Address, minRound: int, latestBlock: int, i: nat)
    requires Progress(all, log, now, sender, minRound, latestBlock)
    requires i < |log| && log[i].marked
    ensures IsRedeemed(now, log[i].ticket.sig)
  {
    MarkedGrows(log, i, |log|);
    assert log[..|log|] == log;
    MarkFirstMarks(all, sender, minRound, Marked(log), Marked(log[..i]));
  }

  lemma ArrivalsKeep(first: seq<Record>, total: seq<Submission>, before: seq<Record>, stored: seq<Record>)
    requires Settled(total, before) && Accounted(total, first, before)
    requires forall k :: 0 <= k < |stored| ==> !stored[k].redeemed
    ensures Settled(total, before + stored) && Accounted(total, first, before + stored)
  {
    forall k | 0 <= k < |total| && total[k].marked ensures IsRedeemed(before + stored, total[k].ticket.sig) {
      StaysRedeemed(before, stored, 0, 0, 0, total[k].ticket.sig);
    }
  }

  lemma PassNeverRepeats(total: seq<Submission>, start: seq<Record>, arrived: seq<Record>, log: seq<Submission>,
                         now: seq<Record>, sender: Address, minRound: int, latestBlock: int)
    requires Settled(total, start) && NeverAgain(total)
    requires Progress(start + arrived, log, now, sender, minRound, latestBlock)
    ensures NeverAgain(total + log)
  {
    var all, n := start + arrived, |total|;
    UniqueUnmarked(all, sender, minRound, Marked(log));
    forall i, j | 0 <= i < j < n + |log| && (total + log)[i].marked
      ensures (total + log)[i].ticket.sig != (total + log)[j].ticket.sig
    {
      if i >= n {
        NeverResubmitted(log, all, sender, minRound, i - n, j - n);
      } else if j >= n {
        StaysRedeemed(start, arrived, sender, minRound, 0, total[i].ticket.sig);
        NotQueued(all, sender, minRound, total[i].ticket.sig, log[j - n].ticket);
      }
    }
  }

  lemma PassSettles(total: seq<Submission>, start: seq<Record>, arrived: seq<Record>, log: seq<Submission>,
                    now: seq<Record>, sender: Address, minRound: int, latestBlock: int)
    requires Settled(total, start)
    requires Progress(start + arrived, log, now, sender, minRound, latestBlock)
    ensures Settled(total + log, now)
  {
    var n := |total|;
    forall i | 0 <= i < n + |log| && (total + log)[i].marked
      ensures IsRedeemed(now, (total + log)[i].ticket.sig)
    {
      if i < n {
        StaysRedeemed(start, arrived, sender, minRound, Marked(log), total[i].ticket.sig);
      } else {
        MarkedIsRedeemed(start + arrived, log, now, sender, minRound, latestBlock, i - n);
      }
    }
  }

  ghost predicate Consistent(total: seq<Submission>, first: seq<Record>, now: seq<Record>) {
    UniqueSigs(now) && NeverAgain(total) && Settled(total, now) && Accounted(total, first, now)
  }

  lemma PassKeeps(first: seq<Record>, total: seq<Submission>, start: seq<Record>, arrived: seq<Record>,
                  log: seq<Submission>, now: seq<Record>, sender: Address, minRound: int, latestBlock: int)
    requires Consistent(total, first, start) && forall k :: 0 <= k < |arrived| ==> !arrived[k].redeemed
    requires Progress(start + arrived, log, now, sender, minRound, latestBlock)
    ensures Consistent(total + log, first, now)
  {
    PassNeverRepeats(total, start, arrived, log, now, sender, minRound, latestBlock);
    PassAccounts(first, total, start, arrived, log, now, sender, minRound, latestBlock);
    PassSettles(total, start, arrived, log, now, sender, minRound, latestBlock);
  }
}
