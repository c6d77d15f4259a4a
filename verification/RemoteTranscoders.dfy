/** Scheduling of stream sessions onto remote transcoders (core/orchestrator.go). */
module RemoteTranscoders {
  import opened Base
  import opened Capabilities
  import opened Sorting

  type Stream = nat
  type SessionId = string

  /** Registration refuses a capacity that is not positive. */
  type Capacity = c: int | c > 0 witness 1

  class RemoteTranscoder {
    const stream: Stream
    const capacity: Capacity
    const capabilities: CapabilityString
    var load: int

    constructor (stream: Stream, capacity: Capacity, capabilities: CapabilityString)
      ensures this.stream == stream && this.capacity == capacity && this.capabilities == capabilities
      ensures load == 0
    {
      this.stream := stream;
      this.capacity := capacity;
      this.capabilities := capabilities;
      load := 0;
    }
  }

  /** An exact fraction here. */
  function LoadFactor(t: RemoteTranscoder): real
    reads t
  {
    t.load as real / t.capacity as real
  }

  predicate SortedByLoad(ts: seq<RemoteTranscoder>)
    reads ts
  {
    forall i, j :: 0 <= i < j < |ts| ==> LoadFactor(ts[i]) >= LoadFactor(ts[j])
  }

  lemma FullFactor(t: RemoteTranscoder)
    ensures LoadFactor(t) >= 1.0 <==> t.load >= t.capacity
    ensures t.load == t.capacity ==> LoadFactor(t) == 1.0
  {}

  /** Load factors compare as loads in proportion to capacities. */
  lemma LoadFactorOrder(t: RemoteTranscoder, u: RemoteTranscoder)
    ensures LoadFactor(t) >= LoadFactor(u) <==> t.load * u.capacity >= u.load * t.capacity
  {
    CompareQuotients(t.load as real, t.capacity as real, u.load as real, u.capacity as real);
  }

  lemma CompareQuotients(a: real, b: real, c: real, d: real)
    requires b > 0.0 && d > 0.0
    ensures a / b >= c / d <==> a * d >= c * b
  {
    var p, q := a / b, c / d;
    assert p * b == a && q * d == c;
    assert a * d - c * b == (p - q) * (b * d);
    assert b * d > 0.0;
  }

  method SortByLoadFactor(ts: seq<RemoteTranscoder>) returns (r: seq<RemoteTranscoder>)
    ensures multiset(r) == multiset(ts)
    ensures SortedByLoad(r)
  {
    var key := map t | t in ts :: LoadFactor(t);
    r := SortDescending(ts, key);
    SameElements(ts, r);
    forall i, j | 0 <= i < j < |r| ensures LoadFactor(r[i]) >= LoadFactor(r[j]) {
      assert r[i] in key && r[j] in key;
    }
  }

  // ---------------------------------------------------------------- removal

  /** Removal as the source has it: the entry before the removed one is kept, but everything
      before that is lost, and a transcoder that is not listed empties the list. */
  function Removed(t: RemoteTranscoder, ts: seq<RemoteTranscoder>): (r: seq<RemoteTranscoder>)
    ensures ts != [] ==> |r| < |ts|
    ensures forall u :: u in r ==> u in ts
  {
    if ts == [] then ts
    else if t == ts[|ts| - 1] then ts[..|ts| - 1]
    else
      var i := FirstIndex(t, ts);
      if i == |ts| then []
      else if i == 0 then ts[1..]
      else ts[i - 1..i] + ts[i + 1..]
  }

  function FirstIndex(t: RemoteTranscoder, ts: seq<RemoteTranscoder>): (i: nat)
    ensures i <= |ts|
    ensures i < |ts| ==> ts[i] == t
    ensures forall j :: 0 <= j < i ==> ts[j] != t
  {
    if ts == [] || ts[0] == t then 0 else 1 + FirstIndex(t, ts[1..])
  }

  method RemoveFromRemoteTranscoders(t: RemoteTranscoder, ts: seq<RemoteTranscoder>)
    returns (r: seq<RemoteTranscoder>)
    ensures r == Removed(t, ts)
  {
    if |ts| == 0 {
      return ts;
    }
    var lastIndex := |ts| - 1;
    if t == ts[lastIndex] {
      return ts[..lastIndex];
    }
    r := [];
    for i := 0 to |ts|
      invariant r == []
      invariant forall j :: 0 <= j < i ==> ts[j] != t
    {
      if ts[i] == t {
        if i == 0 {
          return ts[1..];
        }
        return ts[i - 1..i] + ts[i + 1..];
      }
    }
  }

  /** The removed entry is the first, the second or the last one. */
  predicate NearAnEnd(t: RemoteTranscoder, ts: seq<RemoteTranscoder>) {
    var i := FirstIndex(t, ts);
    i < |ts| && (i <= 1 || i == |ts| - 1)
  }

  ghost predicate OthersStay(t: RemoteTranscoder, ts: seq<RemoteTranscoder>) {
    forall u :: u in ts && u != t ==> u in Removed(t, ts)
  }

  lemma RemovalElsewhere(t: RemoteTranscoder, ts: seq<RemoteTranscoder>)
    requires Distinct(ts) && ts != [] && !NearAnEnd(t, ts)
    ensures ts[0] != t && ts[0] !in Removed(t, ts)
  {}

  /** The other transcoders all stay listed exactly when the removed one is the first, the
      second or the last entry, or the list is empty. */
  lemma RemovalKeepsOthers(t: RemoteTranscoder, ts: seq<RemoteTranscoder>)
    requires Distinct(ts)
    ensures OthersStay(t, ts) <==> ts == [] || NearAnEnd(t, ts)
  {
    if ts != [] && !NearAnEnd(t, ts) {
      RemovalElsewhere(t, ts);
    }
  }

  /** Of four transcoders, removing the third loses the first. */
  lemma RemovingThirdLosesFirst(ts: seq<RemoteTranscoder>)
    requires Distinct(ts) && |ts| == 4
    ensures Removed(ts[2], ts) == [ts[1], ts[3]]
  {
    assert FirstIndex(ts[2], ts) == 2;
  }

  lemma FirstIndexIs(ts: seq<RemoteTranscoder>, i: nat)
    requires Distinct(ts) && i < |ts|
    ensures FirstIndex(ts[i], ts) == i
  {}

  /** Removal by position; a transcoder that is not listed empties the list. */
  lemma RemovedAt(ts: seq<RemoteTranscoder>, i: nat)
    requires Distinct(ts) && i < |ts|
    ensures Removed(ts[i], ts) ==
              if i == |ts| - 1 then ts[..i] else if i == 0 then ts[1..] else ts[i - 1..i] + ts[i + 1..]
  {
    FirstIndexIs(ts, i);
  }

  lemma UnlistedEmpties(ts: seq<RemoteTranscoder>, t: RemoteTranscoder)
    requires t !in ts
    ensures Removed(t, ts) == []
  {}

  lemma RemovedStaysOrdered(t: RemoteTranscoder, ts: seq<RemoteTranscoder>)
    requires Distinct(ts) && SortedByLoad(ts)
    ensures Distinct(Removed(t, ts)) && SortedByLoad(Removed(t, ts))
  {
    var r := Removed(t, ts);
    var i := FirstIndex(t, ts);
    if 0 < i < |ts| - 1 {
      assert forall k :: 0 <= k < |r| ==> r[k] == if k == 0 then ts[i - 1] else ts[i + k];
    }
  }

  // ---------------------------------------------------------------- sessions

  ghost function SessionsOf(m: map<SessionId, RemoteTranscoder>, t: RemoteTranscoder): set<SessionId> {
    set s | s in m && m[s] == t
  }

  /** 1 if the session is mapped to the transcoder, else 0. */
  ghost function Maps(m: map<SessionId, RemoteTranscoder>, s: SessionId, t: RemoteTranscoder): int {
    if s in m && m[s] == t then 1 else 0
  }

  lemma AssignCounts(m: map<SessionId, RemoteTranscoder>, s: SessionId, t: RemoteTranscoder, u: RemoteTranscoder)
    requires s !in m
    ensures |SessionsOf(m[s := t], u)| == |SessionsOf(m, u)| + if u == t then 1 else 0
  {
    if u == t {
      assert SessionsOf(m[s := t], u) == SessionsOf(m, u) + {s};
    } else {
      assert SessionsOf(m[s := t], u) == SessionsOf(m, u);
    }
  }

  lemma CompleteCounts(m: map<SessionId, RemoteTranscoder>, s: SessionId, u: RemoteTranscoder)
    requires s in m
    ensures |SessionsOf(m - {s}, u)| == |SessionsOf(m, u)| - if u == m[s] then 1 else 0
  {
    if u == m[s] {
      assert SessionsOf(m, u) == SessionsOf(m - {s}, u) + {s};
      assert s !in SessionsOf(m - {s}, u);
    } else {
      assert SessionsOf(m, u) == SessionsOf(m - {s}, u);
    }
  }

  /** No capabilities mean default capabilities, which every transcoder has. */
  predicate Compatible(caps: Option<CapabilityString>, t: RemoteTranscoder) {
    caps.None? || Covers(caps.value, t.capabilities)
  }

  /** Compatible are those that have every capability asked for, in a string long enough. */
  lemma CompatibleIs(caps: Option<CapabilityString>, t: RemoteTranscoder)
    ensures Compatible(caps, t) <==>
              caps.None? ||
              (|caps.value| <= |t.capabilities| && forall v: nat :: Has(caps.value, v) ==> Has(t.capabilities, v))
  {
    if caps.Some? {
      CoversIsSubset(caps.value, t.capabilities);
    }
  }

  datatype Selection = Selected(transcoder: RemoteTranscoder) | NoTranscoders | NoCompatible

  class RemoteTranscoderManager {
    var remoteTranscoders: seq<RemoteTranscoder>
    var liveTranscoders: map<Stream, RemoteTranscoder>
    var streamSessions: map<SessionId, RemoteTranscoder>

    /** Every transcoder that ever registered; some are dead, some no longer listed. */
    ghost var known: set<RemoteTranscoder>

    ghost predicate Known()
      reads this
    {
      && (forall t :: t in remoteTranscoders ==> t in known)
      && (forall s :: s in streamSessions ==> streamSessions[s] in known)
    }

    ghost predicate LoadsCount()
      reads this, known
    {
      forall t :: t in known ==> t.load == |SessionsOf(streamSessions, t)| <= t.capacity
    }

    /** A transcoder's load is the number of sessions mapped to it and within its capacity;
        the list has no duplicates and descends by load factor. */
    ghost predicate Valid()
      reads this, known
    {
      && Known()
      && LoadsCount()
      && Distinct(remoteTranscoders)
      && SortedByLoad(remoteTranscoders)
    }

    predicate Live(t: RemoteTranscoder)
      reads this
    {
      t.stream in liveTranscoders
    }

    constructor ()
      ensures Valid()
      ensures remoteTranscoders == [] && liveTranscoders == map[] && streamSessions == map[] && known == {}
    {
      remoteTranscoders, liveTranscoders, streamSessions, known := [], map[], map[], {};
    }

    /** The first half of `Manage`: a transcoder registers. */
    method Register(stream: Stream, capacity: Capacity, capabilities: CapabilityString)
      returns (t: RemoteTranscoder)
      requires Valid()
      modifies this
      ensures Valid()
      ensures fresh(t) && t.stream == stream && t.capacity == capacity && t.capabilities == capabilities
      ensures known == old(known) + {t}
      ensures liveTranscoders == old(liveTranscoders)[stream := t]
      ensures streamSessions == old(streamSessions)
      ensures multiset(remoteTranscoders) == multiset(old(remoteTranscoders)) + multiset{t}
    {
      t := new RemoteTranscoder(stream, capacity, capabilities);
      assert SessionsOf(streamSessions, t) == {};
      known := known + {t};
      liveTranscoders := liveTranscoders[stream := t];
      var ts := remoteTranscoders + [t];
      remoteTranscoders := SortByLoadFactor(ts);
      DistinctPermutation(ts, remoteTranscoders);
      SameElements(ts, remoteTranscoders);
    }

    /** The second half of `Manage`: its stream ends. The transcoder stays listed until it is
        found dead by a selection. */
    method Disconnect(stream: Stream)
      requires Valid()
      modifies this`liveTranscoders
      ensures Valid()
      ensures liveTranscoders == old(liveTranscoders) - {stream}
    {
      liveTranscoders := liveTranscoders - {stream};
    }

    method CompleteStreamSession(sessionId: SessionId)
      requires Valid()
      modifies this`remoteTranscoders, this`streamSessions, known
      ensures Valid()
      ensures streamSessions == old(streamSessions) - {sessionId}
      ensures multiset(remoteTranscoders) == multiset(old(remoteTranscoders))
      ensures |remoteTranscoders| == |old(remoteTranscoders)|
      ensures forall u :: u in remoteTranscoders ==> u in old(remoteTranscoders)
      ensures forall u :: u in known ==>
                u.load == old(u.load) - Maps(old(streamSessions), sessionId, u)
    {
      if sessionId !in streamSessions {
        return;
      }
      var t := streamSessions[sessionId];
      forall u | u in known
        ensures |SessionsOf(streamSessions - {sessionId}, u)| ==
                  |SessionsOf(streamSessions, u)| - if u == t then 1 else 0
      {
        CompleteCounts(streamSessions, sessionId, u);
      }
      t.load := t.load - 1;
      ghost var before := remoteTranscoders;
      remoteTranscoders := SortByLoadFactor(remoteTranscoders);
      DistinctPermutation(before, remoteTranscoders);
      SameElements(before, remoteTranscoders);
      streamSessions := streamSessions - {sessionId};
    }

    method Unlist(t: RemoteTranscoder)
      requires Valid()
      modifies this`remoteTranscoders
      ensures Valid()
      ensures remoteTranscoders == Removed(t, old(remoteTranscoders))
    {
      RemovedStaysOrdered(t, remoteTranscoders);
      remoteTranscoders := RemoveFromRemoteTranscoders(t, remoteTranscoders);
    }

    /** Searches from the end of the list, where the load factors are lowest. */
    method FindCompatible(caps: Option<CapabilityString>) returns (k: int)
      ensures -1 <= k < |remoteTranscoders|
      ensures k >= 0 ==> Compatible(caps, remoteTranscoders[k])
      ensures forall j :: k < j < |remoteTranscoders| ==> !Compatible(caps, remoteTranscoders[j])
    {
      k := |remoteTranscoders| - 1;
      while k >= 0
        invariant -1 <= k < |remoteTranscoders|
        invariant forall j :: k < j < |remoteTranscoders| ==> !Compatible(caps, remoteTranscoders[j])
      {
        if caps.None? {
          return;
        }
        var ok := CompatibleWith(caps.value, remoteTranscoders[k].capabilities);
        if ok {
          return;
        }
        k := k - 1;
      }
    }

    /** No compatible transcoder in the list has a lower load factor than `f`. */
    ghost predicate LeastLoaded(caps: Option<CapabilityString>, t: RemoteTranscoder, f: real)
      reads this, remoteTranscoders
    {
      forall u :: u in remoteTranscoders && u != t && Compatible(caps, u) ==> LoadFactor(u) >= f
    }

    lemma LastCompatibleIsLeast(caps: Option<CapabilityString>, k: nat)
      requires SortedByLoad(remoteTranscoders) && k < |remoteTranscoders|
      requires forall j :: k < j < |remoteTranscoders| ==> !Compatible(caps, remoteTranscoders[j])
      ensures LeastLoaded(caps, remoteTranscoders[k], LoadFactor(remoteTranscoders[k]))
    {}

    /** Every compatible transcoder in the list is full. */
    ghost predicate AllFull(caps: Option<CapabilityString>)
      reads this, remoteTranscoders
    {
      forall u :: u in remoteTranscoders && Compatible(caps, u) ==> u.load == u.capacity
    }

    lemma LeastFullIsAllFull(caps: Option<CapabilityString>, t: RemoteTranscoder)
      requires Valid() && t.load == t.capacity && LeastLoaded(caps, t, LoadFactor(t))
      ensures AllFull(caps)
    {
      forall u | u in remoteTranscoders && Compatible(caps, u) ensures u.load == u.capacity {
        FullFactor(u);
      }
    }

    /** Maps a session to a transcoder with room for it. */
    method Assign(sessionId: SessionId, t: RemoteTranscoder)
      requires Valid() && sessionId !in streamSessions
      requires t in known && t.load < t.capacity
      modifies this`remoteTranscoders, this`streamSessions, known
      ensures Valid()
      ensures streamSessions == old(streamSessions)[sessionId := t]
      ensures multiset(remoteTranscoders) == multiset(old(remoteTranscoders))
      ensures forall u :: u in known ==> u.load == old(u.load) + if u == t then 1 else 0
    {
      forall u | u in known
        ensures |SessionsOf(streamSessions[sessionId := t], u)| ==
                  |SessionsOf(streamSessions, u)| + if u == t then 1 else 0
      {
        AssignCounts(streamSessions, sessionId, t, u);
      }
      streamSessions := streamSessions[sessionId := t];
      t.load := t.load + 1;
      ghost var before := remoteTranscoders;
      remoteTranscoders := SortByLoadFactor(remoteTranscoders);
      DistinctPermutation(before, remoteTranscoders);
      SameElements(before, remoteTranscoders);
    }

    /** Drops a dead transcoder: ends the session if it is mapped to it, and unlists it. */
    method DropDead(sessionId: SessionId, t: RemoteTranscoder)
      requires Valid() && remoteTranscoders != []
      requires sessionId in streamSessions ==> streamSessions[sessionId] == t
      modifies this`remoteTranscoders, this`streamSessions, known
      ensures Valid()
      ensures streamSessions == old(streamSessions) - {sessionId}
      ensures |remoteTranscoders| < |old(remoteTranscoders)|
      ensures forall u :: u in remoteTranscoders ==> u in old(remoteTranscoders)
    {
      if sessionId in streamSessions {
        CompleteStreamSession(sessionId);
      }
      Unlist(t);
    }

    /** Places a new session on the last compatible transcoder of the list, unless that one,
        and therefore every compatible one, is full. */
    method Place(sessionId: SessionId, caps: Option<CapabilityString>, last: nat) returns (r: Selection)
      requires Valid() && sessionId !in streamSessions
      requires last < |remoteTranscoders| && Compatible(caps, remoteTranscoders[last])
      requires forall j :: last < j < |remoteTranscoders| ==> !Compatible(caps, remoteTranscoders[j])
      modifies this`remoteTranscoders, this`streamSessions, known
      ensures Valid()
      ensures !r.NoCompatible?
      ensures r.NoTranscoders? ==> streamSessions == old(streamSessions) && AllFull(caps)
      ensures r.Selected? ==>
                && r.transcoder == old(remoteTranscoders)[last]
                && streamSessions == old(streamSessions)[sessionId := r.transcoder]
                && r.transcoder in remoteTranscoders
                && LeastLoaded(caps, r.transcoder,
                               (r.transcoder.load - 1) as real / r.transcoder.capacity as real)
      ensures forall u :: u in remoteTranscoders ==> u in old(remoteTranscoders)
    {
      var t := remoteTranscoders[last];
      LastCompatibleIsLeast(caps, last);
      if t.load == t.capacity {
        LeastFullIsAllFull(caps, t);
        return NoTranscoders;
      }
      ghost var before := remoteTranscoders;
      Assign(sessionId, t);
      SameElements(before, remoteTranscoders);
      r := Selected(t);
    }

    /** A selected transcoder is live and has the session; if the session was newly assigned, no
        compatible transcoder in the list had a lower load factor before. */
    ghost predicate Chosen(sessionId: SessionId, caps: Option<CapabilityString>, t: RemoteTranscoder, newly: bool)
      reads this, remoteTranscoders, t
    {
      && Live(t)
      && sessionId in streamSessions && streamSessions[sessionId] == t
      && (newly ==>
            && t in remoteTranscoders && Compatible(caps, t)
            && LeastLoaded(caps, t, (t.load - 1) as real / t.capacity as real))
    }

    /** What an answer promises. */
    ghost predicate Answers(sessionId: SessionId, caps: Option<CapabilityString>, r: Selection, newly: bool)
      reads this, remoteTranscoders, if r.Selected? then {r.transcoder} else {}
    {
      match r
      case Selected(t) => Chosen(sessionId, caps, t, newly)
      case NoTranscoders => AllFull(caps)
      case NoCompatible => forall u :: u in remoteTranscoders ==> !Compatible(caps, u)
    }

    /** An answer in terms of the capabilities themselves. */
    lemma AnswerMeans(sessionId: SessionId, caps: Option<CapabilityString>, r: Selection, newly: bool)
      requires Answers(sessionId, caps, r, newly)
      ensures r.Selected? && newly && caps.Some? ==>
                forall v: nat :: Has(caps.value, v) ==> Has(r.transcoder.capabilities, v)
      ensures r.NoTranscoders? ==>
                forall u :: u in remoteTranscoders && u.load != u.capacity ==>
                  caps.Some? && (|caps.value| > |u.capabilities| ||
                                 exists v: nat :: Has(caps.value, v) && !Has(u.capabilities, v))
      ensures r.NoCompatible? ==>
                forall u :: u in remoteTranscoders ==>
                  caps.Some? && (|caps.value| > |u.capabilities| ||
                                 exists v: nat :: Has(caps.value, v) && !Has(u.capabilities, v))
    {
      if r.Selected? && newly {
        CompatibleIs(caps, r.transcoder);
      }
      forall u | u in remoteTranscoders ensures Compatible(caps, u) <==>
        caps.None? || (|caps.value| <= |u.capabilities| && forall v: nat :: Has(caps.value, v) ==> Has(u.capabilities, v))
      {
        CompatibleIs(caps, u);
      }
    }

    /** The session is mapped to a live transcoder. */
    predicate Settled(sessionId: SessionId)
      reads this
    {
      sessionId in streamSessions && Live(streamSessions[sessionId])
    }

    /** One attempt. Without an answer, a dead transcoder was dropped. */
    method Attempt(sessionId: SessionId, caps: Option<CapabilityString>) returns (r: Option<Selection>)
      requires Valid() && remoteTranscoders != []
      modifies this`remoteTranscoders, this`streamSessions, known
      ensures Valid()
      ensures streamSessions - {sessionId} == old(streamSessions) - {sessionId}
      ensures forall u :: u in remoteTranscoders ==> u in old(remoteTranscoders)
      ensures r.None? ==>
                && !old(Settled(sessionId)) && sessionId !in streamSessions
                && |remoteTranscoders| < |old(remoteTranscoders)|
      ensures r.Some? ==> Answers(sessionId, caps, r.value, !old(Settled(sessionId)))
      ensures old(Settled(sessionId)) ==>
                && streamSessions == old(streamSessions) && remoteTranscoders == old(remoteTranscoders)
                && forall u :: u in known ==> u.load == old(u.load)
    {
      var mapped := sessionId in streamSessions;
      var last := FindCompatible(caps);
      if last == -1 {
        return Some(NoCompatible);
      }
      var current := if mapped then streamSessions[sessionId] else remoteTranscoders[last];
      if current.stream !in liveTranscoders {
        DropDead(sessionId, current);
        return None;
      }
      if mapped {
        return Some(Selected(current));
      }
      var placed := Place(sessionId, caps, last);
      r := Some(placed);
    }

    /** Selects the transcoder of a session. A session stays with its transcoder as long as that
        one is live; otherwise it is given the least loaded compatible transcoder in the list.
        Dead transcoders met on the way are dropped, which bounds the number of attempts. */
    method SelectTranscoder(sessionId: SessionId, caps: Option<CapabilityString>) returns (r: Selection)
      requires Valid()
      modifies this`remoteTranscoders, this`streamSessions, known
      ensures Valid()
      ensures streamSessions - {sessionId} == old(streamSessions) - {sessionId}
      ensures forall u :: u in remoteTranscoders ==> u in old(remoteTranscoders)
      ensures Answers(sessionId, caps, r, !old(Settled(sessionId)))
      ensures r.Selected? ==> r.transcoder.stream in liveTranscoders && streamSessions[sessionId] == r.transcoder
      ensures r.Selected? && !old(Settled(sessionId)) && caps.Some? ==>
                forall v: nat :: Has(caps.value, v) ==> Has(r.transcoder.capabilities, v)
      ensures r.NoTranscoders? ==>
                forall u :: u in remoteTranscoders && u.load != u.capacity ==>
                  caps.Some? && (|caps.value| > |u.capabilities| ||
                                 exists v: nat :: Has(caps.value, v) && !Has(u.capabilities, v))
      ensures r.NoCompatible? ==>
                forall u :: u in remoteTranscoders ==>
                  caps.Some? && (|caps.value| > |u.capabilities| ||
                                 exists v: nat :: Has(caps.value, v) && !Has(u.capabilities, v))
      ensures old(Settled(sessionId)) ==>
                && streamSessions == old(streamSessions) && remoteTranscoders == old(remoteTranscoders)
                && forall u :: u in known ==> u.load == old(u.load)
    {
      while |remoteTranscoders| > 0
        invariant Valid()
        invariant streamSessions - {sessionId} == old(streamSessions) - {sessionId}
        invariant forall u :: u in remoteTranscoders ==> u in old(remoteTranscoders)
        invariant Settled(sessionId) == old(Settled(sessionId))
        invariant Settled(sessionId) ==>
                    && streamSessions == old(streamSessions) && remoteTranscoders == old(remoteTranscoders)
                    && forall u :: u in known ==> u.load == old(u.load)
        decreases |remoteTranscoders|
      {
        var answer := Attempt(sessionId, caps);
        if answer.Some? {
          r := answer.value;
          AnswerMeans(sessionId, caps, r, !old(Settled(sessionId)));
          return;
        }
      }
      r := NoTranscoders;
    }

    /** Any run of the manager, each step under its lock. The invariant holds throughout, and a
        session keeps its transcoder unless the session is completed or the transcoder's
        stream ends. */
    method Run(ops: seq<Op>, ghost sessionId: SessionId)
      requires Valid()
      modifies this, known
      ensures Valid()
      ensures forall t :: t in known ==>
                t.load == |set s | s in streamSessions && streamSessions[s] == t| && 0 <= t.load <= t.capacity
      ensures forall i, j :: 0 <= i < j < |remoteTranscoders| ==> remoteTranscoders[i] != remoteTranscoders[j]
      ensures forall i, j :: 0 <= i < j < |remoteTranscoders| ==>
                remoteTranscoders[i].load * remoteTranscoders[j].capacity >=
                  remoteTranscoders[j].load * remoteTranscoders[i].capacity
      ensures sessionId in old(streamSessions) && old(Live(streamSessions[sessionId])) &&
              Completes(sessionId) !in ops && Disconnects(old(streamSessions)[sessionId].stream) !in ops ==>
                && sessionId in streamSessions
                && streamSessions[sessionId] == old(streamSessions)[sessionId]
    {
      ghost var keeps := sessionId in streamSessions && Live(streamSessions[sessionId]) &&
                         Completes(sessionId) !in ops && Disconnects(streamSessions[sessionId].stream) !in ops;
      for i := 0 to |ops|
        invariant Valid() && fresh(known - old(known))
        invariant keeps ==>
                    && sessionId in streamSessions
                    && streamSessions[sessionId] == old(streamSessions)[sessionId]
                    && Live(streamSessions[sessionId])
      {
        match ops[i]
        case Registers(stream, capacity, capabilities) =>
          var t := Register(stream, capacity, capabilities);
        case Disconnects(stream) => Disconnect(stream);
        case Selects(s, caps) =>
          ghost var others := streamSessions - {s};
          var r := SelectTranscoder(s, caps);
          assert sessionId != s && sessionId in others ==> sessionId in streamSessions - {s};
        case Completes(s) => CompleteStreamSession(s);
      }
      ValidMeans();
    }

    /** The invariant, spelled out. */
    lemma ValidMeans()
      requires Valid()
      ensures forall t :: t in known ==>
                t.load == |set s | s in streamSessions && streamSessions[s] == t| && 0 <= t.load <= t.capacity
      ensures forall i, j :: 0 <= i < j < |remoteTranscoders| ==> remoteTranscoders[i] != remoteTranscoders[j]
      ensures forall i, j :: 0 <= i < j < |remoteTranscoders| ==>
                remoteTranscoders[i].load * remoteTranscoders[j].capacity >=
                  remoteTranscoders[j].load * remoteTranscoders[i].capacity
    {
      forall i, j | 0 <= i < j < |remoteTranscoders|
        ensures remoteTranscoders[i].load * remoteTranscoders[j].capacity >=
                  remoteTranscoders[j].load * remoteTranscoders[i].capacity
      {
        LoadFactorOrder(remoteTranscoders[i], remoteTranscoders[j]);
      }
      forall t | t in known
        ensures (set s | s in streamSessions && streamSessions[s] == t) == SessionsOf(streamSessions, t)
      {
      }
    }
  }

  /** What happens to a manager: registrations, lost streams, and the selections, completions
      and retries of `Transcode`. */
  datatype Op =
    | Registers(stream: Stream, capacity: Capacity, capabilities: CapabilityString)
    | Disconnects(stream: Stream)
    | Selects(sessionId: SessionId, caps: Option<CapabilityString>)
    | Completes(sessionId: SessionId)
}
