/** Distribution of transcode sessions over the local devices (core/lb.go). Loads are 64-bit
    integers that wrap. */
module LoadBalancer {
  import opened Base
  import opened Sorting

  type Device = string
  type Job = string

  class TranscoderSession {
    const job: Job
    const device: Device
    const cost: int

    constructor (job: Job, device: Device, cost: int)
      ensures this.job == job && this.device == device && this.cost == cost
    {
      this.job, this.device, this.cost := job, device, cost;
    }
  }

  /** The cost estimates of the sessions on a device, added up. */
  ghost function CostOn(ss: seq<TranscoderSession>, d: Device): int {
    if ss == [] then 0
    else CostOn(ss[..|ss| - 1], d) + if ss[|ss| - 1].device == d then ss[|ss| - 1].cost else 0
  }

  ghost function Without(ss: seq<TranscoderSession>, k: nat): seq<TranscoderSession>
    requires k < |ss|
  {
    ss[..k] + ss[k + 1..]
  }

  ghost predicate TakenOut(ss: seq<TranscoderSession>, s: TranscoderSession, rest: seq<TranscoderSession>) {
    exists k :: 0 <= k < |ss| && ss[k] == s && rest == Without(ss, k)
  }

  lemma {:induction false} CostWithout(ss: seq<TranscoderSession>, k: nat, d: Device)
    requires k < |ss|
    ensures CostOn(Without(ss, k), d) == CostOn(ss, d) - if ss[k].device == d then ss[k].cost else 0
  {
    var n := |ss| - 1;
    if k == n {
      assert Without(ss, k) == ss[..n];
    } else {
      CostWithout(ss[..n], k, d);
      assert Without(ss, k)[..n - 1] == Without(ss[..n], k);
    }
  }

  lemma CostWith(ss: seq<TranscoderSession>, s: TranscoderSession, d: Device)
    ensures CostOn(ss + [s], d) == CostOn(ss, d) + if s.device == d then s.cost else 0
  {}

  function LoadOf(load: map<Device, int>, d: Device): int {
    if d in load then load[d] else 0
  }

  /** The recorded loads are the summed costs, as far as 64 bits can tell. */
  ghost predicate Matches(load: map<Device, int>, open: seq<TranscoderSession>) {
    forall d :: LoadOf(load, d) == Int64(CostOn(open, d))
  }

  lemma AddedMatches(load: map<Device, int>, open: seq<TranscoderSession>, s: TranscoderSession)
    requires Matches(load, open)
    ensures Matches(load[s.device := Int64(LoadOf(load, s.device) + s.cost)], open + [s])
  {
    var load' := load[s.device := Int64(LoadOf(load, s.device) + s.cost)];
    forall d ensures LoadOf(load', d) == Int64(CostOn(open + [s], d)) {
      CostWith(open, s, d);
      if d == s.device {
        Int64Add(CostOn(open, d), s.cost);
      }
    }
  }

  lemma RemovedMatches(load: map<Device, int>, open: seq<TranscoderSession>, k: nat)
    requires Matches(load, open) && k < |open|
    ensures Matches(load[open[k].device := Int64(LoadOf(load, open[k].device) - open[k].cost)], Without(open, k))
  {
    var s := open[k];
    var load' := load[s.device := Int64(LoadOf(load, s.device) - s.cost)];
    forall d ensures LoadOf(load', d) == Int64(CostOn(Without(open, k), d)) {
      CostWithout(open, k, d);
      if d == s.device {
        Int64Add(CostOn(open, d), -s.cost);
      }
    }
  }

  /** The registered sessions are the open ones, each under its own job. */
  ghost predicate Registered(sessions: map<Job, TranscoderSession>, open: seq<TranscoderSession>) {
    && Distinct(open)
    && (forall s :: s in open ==> s.job in sessions && sessions[s.job] == s)
    && (forall j :: j in sessions ==> sessions[j].job == j && sessions[j] in open)
  }

  lemma RemovedRegistered(sessions: map<Job, TranscoderSession>, open: seq<TranscoderSession>, k: nat)
    requires Registered(sessions, open) && k < |open|
    ensures Registered(sessions - {open[k].job}, Without(open, k))
  {
    var s := open[k];
    var rest := Without(open, k);
    assert s !in rest;
  }

  lemma TakeOut(sessions: map<Job, TranscoderSession>, load: map<Device, int>,
                open: seq<TranscoderSession>, s: TranscoderSession) returns (rest: seq<TranscoderSession>)
    requires Registered(sessions, open) && Matches(load, open) && s in open
    ensures Registered(sessions - {s.job}, rest)
    ensures Matches(load[s.device := Int64(LoadOf(load, s.device) - s.cost)], rest)
    ensures TakenOut(open, s, rest) && s.job in sessions
  {
    var k :| 0 <= k < |open| && open[k] == s;
    RemovedMatches(load, open, k);
    RemovedRegistered(sessions, open, k);
    rest := Without(open, k);
  }

  function Slot(i: nat, idx: nat, n: nat): (k: nat)
    requires n > 0
    ensures k < n
  {
    (i + idx) % n
  }

  /** From the start upwards, and round to the beginning. */
  lemma SlotIs(i: nat, idx: nat, n: nat)
    requires idx < n && i < n
    ensures Slot(i, idx, n) == if idx + i < n then idx + i else idx + i - n
  {}

  lemma Rotation(n: nat, idx: nat, j: nat)
    requires idx < n && j < n
    ensures exists i: nat :: i < n && Slot(i, idx, n) == j
  {
    var i: nat := if j >= idx then j - idx else j + n - idx;
    assert Slot(i, idx, n) == j;
  }

  /** No device that comes earlier in the rotation is loaded as little. */
  ghost predicate FirstInTurn(transcoders: seq<Device>, load: map<Device, int>, idx: nat, device: Device)
    requires transcoders != []
  {
    var n := |transcoders|;
    exists i: nat :: i < n && transcoders[Slot(i, idx, n)] == device &&
      forall j: nat :: j < i ==> LoadOf(load, device) < LoadOf(load, transcoders[Slot(j, idx, n)])
  }

  /** A device as little loaded is taken at its turn, unless an earlier one was. */
  lemma TurnIsRespected(transcoders: seq<Device>, load: map<Device, int>, idx: nat, device: Device, j: nat)
    requires idx < |transcoders| && FirstInTurn(transcoders, load, idx, device) && j < |transcoders|
    requires LoadOf(load, transcoders[Slot(j, idx, |transcoders|)]) <= LoadOf(load, device)
    ensures exists i: nat :: i <= j && transcoders[Slot(i, idx, |transcoders|)] == device
  {}

  /** Searches round from a rotating start, so that equally loaded devices take turns. */
  method LeastLoaded(transcoders: seq<Device>, load: map<Device, int>, idx: nat) returns (device: Device)
    requires idx < |transcoders|
    requires forall d :: d in load ==> load[d] <= MAX_INT64
    ensures device in transcoders
    ensures forall d :: d in transcoders ==> LoadOf(load, device) <= LoadOf(load, d)
    ensures LoadOf(load, device) < MAX_INT64 ==> FirstInTurn(transcoders, load, idx, device)
  {
    var n := |transcoders|;
    var min, best := MAX_INT64, 0;
    ghost var turn: nat := 0;
    for i := 0 to n
      invariant 0 <= best < n
      invariant LoadOf(load, transcoders[best]) <= min
      invariant min < MAX_INT64 ==>
                  && turn < n && best == Slot(turn, idx, n) && min == LoadOf(load, transcoders[best])
                  && forall j: nat :: j < turn ==> min < LoadOf(load, transcoders[Slot(j, idx, n)])
      invariant forall j: nat :: j < i ==> min <= LoadOf(load, transcoders[Slot(j, idx, n)])
    {
      var k := Slot(i, idx, n);
      if LoadOf(load, transcoders[k]) < min {
        min := LoadOf(load, transcoders[k]);
        best := k;
        turn := i;
      }
    }
    device := transcoders[best];
    Rotation(n, idx, best);
    forall d | d in transcoders ensures LoadOf(load, device) <= LoadOf(load, d) {
      var j :| 0 <= j < n && transcoders[j] == d;
      Rotation(n, idx, j);
    }
  }

  datatype Detector = Disabled | Started | Failed

  class LoadBalancingTranscoder {
    const transcoders: seq<Device>
    var load: map<Device, int>
    var sessions: map<Job, TranscoderSession>
    var idx: nat

    /** The sessions whose worker loop has not been cleaned up, oldest first. */
    ghost var open: seq<TranscoderSession>

    /** There is one session per job, the open sessions are the registered ones, and a device's
        load is the sum of their cost estimates. */
    ghost predicate Valid()
      reads this
    {
      && idx < |transcoders|
      && Registered(sessions, open)
      && Matches(load, open)
    }

    constructor (devices: seq<Device>)
      requires devices != []
      ensures Valid() && transcoders == devices && sessions == map[]
    {
      transcoders, load, sessions, idx, open := devices, map[], map[], 0, [];
    }

    /** Registers a new session on a device and moves on the start of the next search. */
    method OpenSession(job: Job, device: Device, cost: int) returns (session: TranscoderSession)
      requires Valid() && job !in sessions
      modifies this
      ensures Valid()
      ensures session.job == job && session.device == device && session.cost == cost
      ensures sessions == old(sessions)[job := session] && open == old(open) + [session]
      ensures idx == (old(idx) + 1) % |transcoders|
    {
      session := new TranscoderSession(job, device, cost);
      sessions := sessions[job := session];
      AddedMatches(load, open, session);
      load := load[device := Int64(LoadOf(load, device) + cost)];
      idx := (idx + 1) % |transcoders|;
      open := open + [session];
    }

    /** Returns the job's session, creating it on a least loaded device if there is none. */
    method CreateSession(job: Job, cost: int, detector: Detector) returns (r: Option<TranscoderSession>)
      requires Valid()
      modifies this
      ensures Valid()
      ensures job in old(sessions) ==> r == Some(old(sessions)[job])
      ensures r.None? <==> job !in old(sessions) && detector.Failed?
      ensures job in old(sessions) || r.None? ==>
                sessions == old(sessions) && open == old(open) && load == old(load) && idx == old(idx)
      ensures job !in old(sessions) && r.Some? ==>
                && r.value.job == job && r.value.cost == cost
                && r.value.device in transcoders
                && (forall d :: d in transcoders ==> LoadOf(old(load), r.value.device) <= LoadOf(old(load), d))
                && (LoadOf(old(load), r.value.device) < MAX_INT64 ==>
                      FirstInTurn(transcoders, old(load), old(idx), r.value.device))
                && sessions == old(sessions)[job := r.value]
                && open == old(open) + [r.value]
                && idx == (old(idx) + 1) % |transcoders|
    {
      if job in sessions {
        return Some(sessions[job]);
      }
      assert forall d :: d in load ==> LoadOf(load, d) <= MAX_INT64;
      var device := LeastLoaded(transcoders, load, idx);
      if detector.Failed? {
        return None;
      }
      var session := OpenSession(job, device, cost);
      r := Some(session);
    }

    /** Runs once for every session, when its worker loop has ended. */
    method CleanupSession(session: TranscoderSession)
      requires Valid() && session in open
      modifies this
      ensures Valid()
      ensures sessions == old(sessions) - {session.job}
      ensures TakenOut(old(open), session, open)
    {
      ghost var rest := TakeOut(sessions, load, open, session);
      if session.job in sessions {
        sessions := sessions - {session.job};
        load := load[session.device := Int64(LoadOf(load, session.device) - session.cost)];
        open := rest;
      }
    }

    /** When no session remains, every device is unloaded again. */
    lemma IdleIsUnloaded(d: Device)
      requires Valid() && sessions == map[]
      ensures LoadOf(load, d) == 0
    {
      if open != [] {
        HasElement(open);
        assert false;
      }
    }

    /** Any interleaving of session creations and terminations keeps the loads right. */
    method Run(steps: seq<Step>)
      requires Valid()
      modifies this
      ensures Valid()
      ensures sessions == map[] ==> forall d :: LoadOf(load, d) == 0
    {
      for i := 0 to |steps|
        invariant Valid()
      {
        match steps[i]
        case Creates(job, cost, detector) =>
          var r := CreateSession(job, cost, detector);
        case Ends(job) =>
          if job in sessions {
            CleanupSession(sessions[job]);
          }
      }
      if sessions == map[] {
        forall d ensures LoadOf(load, d) == 0 { IdleIsUnloaded(d); }
      }
    }
  }

  datatype Step = Creates(job: Job, cost: int, detector: Detector) | Ends(job: Job)
}
