/** Recorded playlists (core/playlistmanager.go): merging the pieces of one session and joining
    sessions. Sequence numbers are unsigned 64-bit integers. */
module Playlist {
  import opened Base
  import Sorting

  type SeqNo = n: int | 0 <= n < TWO_64

  datatype Segment = Segment(seqNo: SeqNo, uri: string, durationMs: int, discontinuity: bool)

  ghost predicate Increasing(ss: seq<Segment>) {
    forall i, j :: 0 <= i < j < |ss| ==> ss[i].seqNo < ss[j].seqNo
  }

  predicate Has(ss: seq<Segment>, n: SeqNo) {
    exists i :: 0 <= i < |ss| && ss[i].seqNo == n
  }

  /** The place of a number in an increasing list: everything before it is smaller. */
  function Position(ss: seq<Segment>, n: SeqNo): (k: nat)
    ensures k <= |ss|
    ensures forall j :: 0 <= j < k ==> ss[j].seqNo < n
    ensures k < |ss| ==> ss[k].seqNo >= n
  {
    if ss == [] || ss[0].seqNo >= n then 0 else 1 + Position(ss[1..], n)
  }

  /** Adds a segment at its place, unless its number is taken. */
  function Insert(ss: seq<Segment>, seg: Segment): seq<Segment> {
    var k := Position(ss, seg.seqNo);
    if k < |ss| && ss[k].seqNo == seg.seqNo then ss else ss[..k] + [seg] + ss[k..]
  }

  function Merge(ss: seq<Segment>, more: seq<Segment>): seq<Segment>
    decreases |more|
  {
    if more == [] then ss else Merge(Insert(ss, more[0]), more[1..])
  }

  // ---------------------------------------------------------------- merging

  lemma InsertEntry(ss: seq<Segment>, seg: Segment, i: nat)
    requires !Has(ss, seg.seqNo) && i <= |ss|
    ensures var k := Position(ss, seg.seqNo);
            |Insert(ss, seg)| == |ss| + 1 &&
            Insert(ss, seg)[i] == if i < k then ss[i] else if i == k then seg else ss[i - 1]
  {}

  lemma PositionTaken(ss: seq<Segment>, n: SeqNo)
    requires Increasing(ss)
    ensures var k := Position(ss, n); Has(ss, n) <==> k < |ss| && ss[k].seqNo == n
  {}

  lemma InsertIncreasing(ss: seq<Segment>, seg: Segment)
    requires Increasing(ss)
    ensures Increasing(Insert(ss, seg))
  {
    PositionTaken(ss, seg.seqNo);
    if !Has(ss, seg.seqNo) {
      var r := Insert(ss, seg);
      forall i, j | 0 <= i < j < |r| ensures r[i].seqNo < r[j].seqNo {
        InsertEntry(ss, seg, i);
        InsertEntry(ss, seg, j);
      }
    }
  }

  /** Insertion keeps the list increasing and adds the segment exactly when its number is new. */
  lemma InsertKeeps(ss: seq<Segment>, seg: Segment)
    requires Increasing(ss)
    ensures Increasing(Insert(ss, seg))
    ensures forall s :: s in Insert(ss, seg) <==> s in ss || (s == seg && !Has(ss, seg.seqNo))
  {
    InsertIncreasing(ss, seg);
  }

  /** The first segment of a list with the number `n`. */
  ghost predicate FirstWith(all: seq<Segment>, n: SeqNo, s: Segment) {
    exists i :: 0 <= i < |all| && all[i] == s && s.seqNo == n && forall j :: 0 <= j < i ==> all[j].seqNo != n
  }

  /** What merging promises of the segments seen so far: increasing numbers, no number lost or
      invented, and the segment first seen under each number. */
  ghost predicate Merged(track: seq<Segment>, all: seq<Segment>) {
    && Increasing(track)
    && (forall n: SeqNo :: Has(track, n) <==> Has(all, n))
    && (forall s :: s in track ==> FirstWith(all, s.seqNo, s))
  }

  lemma InsertMerges(track: seq<Segment>, all: seq<Segment>, seg: Segment)
    requires Merged(track, all)
    ensures Merged(Insert(track, seg), all + [seg])
  {
    InsertKeeps(track, seg);
    var r := Insert(track, seg);
    var all' := all + [seg];
    assert forall i :: 0 <= i < |all| ==> all'[i] == all[i];
    assert all'[|all|] == seg;
    forall s | s in r ensures FirstWith(all', s.seqNo, s) {
      if s in track {
        var i :| 0 <= i < |all| && all[i] == s && forall j :: 0 <= j < i ==> all[j].seqNo != s.seqNo;
        assert all'[i] == s;
      } else {
        assert !Has(all, seg.seqNo);
      }
    }
    forall n: SeqNo ensures Has(r, n) <==> Has(all', n) {
      HasByElement(r, n);
      HasByElement(track, n);
      HasByElement(all, n);
      HasByElement(all', n);
    }
  }

  lemma HasByElement(ss: seq<Segment>, n: SeqNo)
    ensures Has(ss, n) <==> exists s :: s in ss && s.seqNo == n
  {}

  /** From an empty track on, any pieces in any order, unsorted and with duplicates. */
  lemma {:induction false} MergeMerges(track: seq<Segment>, all: seq<Segment>, more: seq<Segment>, total: seq<Segment>)
    requires Merged(track, all) && total == all + more
    ensures Merged(Merge(track, more), total)
    decreases |more|
  {
    if more == [] {
      assert total == all;
    } else {
      var all' := all + [more[0]];
      InsertMerges(track, all, more[0]);
      MergeMerges(Insert(track, more[0]), all', more[1..], total);
    }
  }

  function Flatten(tracks: seq<seq<Segment>>): seq<Segment> {
    if tracks == [] then [] else Flatten(tracks[..|tracks| - 1]) + tracks[|tracks| - 1]
  }

  /** The track built from the pieces of a session, starting from nothing. */
  function MergeAll(pieces: seq<seq<Segment>>): seq<Segment> {
    if pieces == [] then [] else Merge(MergeAll(pieces[..|pieces| - 1]), pieces[|pieces| - 1])
  }

  lemma {:induction false} MergeAllMerges(pieces: seq<seq<Segment>>)
    ensures Merged(MergeAll(pieces), Flatten(pieces))
  {
    if pieces != [] {
      var n := |pieces| - 1;
      MergeAllMerges(pieces[..n]);
      MergeMerges(MergeAll(pieces[..n]), Flatten(pieces[..n]), pieces[n], Flatten(pieces));
    }
  }

  // ---------------------------------------------------------------- the merging loop

  /** Increasing lists with the same elements are the same list. */
  lemma {:induction false} IncreasingIsUnique(a: seq<Segment>, b: seq<Segment>)
    requires Increasing(a) && Increasing(b)
    requires forall s :: s in a <==> s in b
    ensures a == b
  {
    if a == [] {
      if b != [] {
        Sorting.HasElement(b);
        assert false;
      }
    } else {
      assert a[0] in b;
      assert b[0] in a;
      forall s ensures s in a[1..] <==> s in b[1..] {
        TailElements(b, s);
      }
      IncreasingIsUnique(a[1..], b[1..]);
    }
  }

  lemma TailElements(a: seq<Segment>, s: Segment)
    requires Increasing(a) && a != []
    ensures s in a[1..] <==> s in a && s != a[0]
  {}

  ghost predicate Sorted(ss: seq<Segment>) {
    forall i, j :: 0 <= i < j < |ss| ==> ss[i].seqNo <= ss[j].seqNo
  }

  method SortBySeqNo(ss: seq<Segment>) returns (r: seq<Segment>)
    ensures multiset(r) == multiset(ss)
    ensures Sorted(r)
  {
    var key := map s | s in ss :: -(s.seqNo as real);
    r := Sorting.SortDescending(ss, key);
    Sorting.SameElements(ss, r);
    assert forall i, j :: 0 <= i < j < |r| ==> r[i].seqNo <= r[j].seqNo;
  }

  /** Appending a new number and sorting puts the segment in its place. */
  lemma SortedIsInserted(ss: seq<Segment>, seg: Segment, r: seq<Segment>)
    requires Increasing(ss) && !Has(ss, seg.seqNo)
    requires multiset(r) == multiset(ss + [seg]) && Sorted(r)
    ensures r == Insert(ss, seg)
  {
    var all := ss + [seg];
    Sorting.DistinctPermutation(all, r);
    Sorting.SameElements(all, r);
    forall i, j | 0 <= i < j < |r| ensures r[i].seqNo < r[j].seqNo {
      assert r[i] in all && r[j] in all;
    }
    InsertKeeps(ss, seg);
    IncreasingIsUnique(r, Insert(ss, seg));
  }

  /** `sort.Search` for the first number not below `n`. */
  method Search(ss: seq<Segment>, n: SeqNo) returns (k: nat)
    requires Increasing(ss)
    ensures k == Position(ss, n)
  {
    var lo, hi := 0, |ss|;
    while lo < hi
      invariant 0 <= lo <= hi <= |ss|
      invariant forall j :: 0 <= j < lo ==> ss[j].seqNo < n
      invariant forall j :: hi <= j < |ss| ==> ss[j].seqNo >= n
    {
      var mid := (lo + hi) / 2;
      if ss[mid].seqNo >= n {
        hi := mid;
      } else {
        lo := mid + 1;
      }
    }
    k := lo;
    PositionIs(ss, n, k);
  }

  lemma PositionIs(ss: seq<Segment>, n: SeqNo, k: nat)
    requires k <= |ss|
    requires forall j :: 0 <= j < k ==> ss[j].seqNo < n
    requires k < |ss| ==> ss[k].seqNo >= n
    ensures Position(ss, n) == k
  {}

  /** One segment of the loop in `AddTrack`, with its shortcut for the common case that the
      segment belongs at the end. `lastSeq` is the last number, or 0 when there is none. */
  method AddSegment(cur: seq<Segment>, lastSeq: SeqNo, seg: Segment) returns (r: seq<Segment>)
    requires Increasing(cur)
    requires lastSeq == if cur == [] then 0 else cur[|cur| - 1].seqNo
    ensures r == Insert(cur, seg)
    ensures Increasing(r) && r != []
  {
    InsertKeeps(cur, seg);
    if seg.seqNo > lastSeq {
      return cur + [seg];
    }
    var i := Search(cur, seg.seqNo);
    PositionTaken(cur, seg.seqNo);
    if i < |cur| && cur[i].seqNo == seg.seqNo {
      return cur;
    }
    r := cur + [seg];
    if i < |cur| {
      r := SortBySeqNo(r);
      SortedIsInserted(cur, seg, r);
    }
  }

  /** Merges the segments of a piece into an increasing track, one by one. */
  method MergeInto(track: seq<Segment>, more: seq<Segment>) returns (cur: seq<Segment>)
    requires Increasing(track)
    ensures cur == Merge(track, more)
    ensures Increasing(cur)
  {
    cur := track;
    var lastSeq: SeqNo := 0;
    if |cur| > 0 {
      lastSeq := cur[|cur| - 1].seqNo;
    }
    for i := 0 to |more|
      invariant Increasing(cur)
      invariant lastSeq == if cur == [] then 0 else cur[|cur| - 1].seqNo
      invariant Merge(cur, more[i..]) == Merge(track, more)
    {
      cur := AddSegment(cur, lastSeq, more[i]);
      lastSeq := cur[|cur| - 1].seqNo;
    }
  }

  // ---------------------------------------------------------------- joining

  function Last(ss: seq<Segment>): Segment
    requires ss != []
  {
    ss[|ss| - 1]
  }

  function Offset(cur: seq<Segment>): SeqNo {
    if cur == [] then 0 else (Last(cur).seqNo + 1) % TWO_64
  }

  /** The `i`-th appended segment: renumbered, and flagged if it starts a new session. */
  function Shifted(cur: seq<Segment>, add: seq<Segment>, i: nat): Segment
    requires i < |add|
  {
    add[i].(seqNo := (add[i].seqNo + Offset(cur)) % TWO_64,
            discontinuity := if i == 0 then cur != [] else add[i].discontinuity)
  }

  function Join(cur: seq<Segment>, add: seq<Segment>): (r: seq<Segment>)
    ensures |r| == |cur| + |add|
    ensures forall i :: 0 <= i < |cur| ==> r[i] == cur[i]
    ensures forall i :: 0 <= i < |add| ==> r[|cur| + i] == Shifted(cur, add, i)
  {
    cur + seq(|add|, i requires 0 <= i < |add| => Shifted(cur, add, i))
  }

  /** One past the last number. */
  function Span(ss: seq<Segment>): nat {
    if ss == [] then 0 else Last(ss).seqNo + 1
  }

  lemma ShiftedNumber(cur: seq<Segment>, add: seq<Segment>, i: nat)
    requires Increasing(add) && i < |add| && Span(cur) + Span(add) <= TWO_64
    ensures Join(cur, add)[|cur| + i].seqNo == add[i].seqNo + Span(cur)
  {}

  /** The numbers go on from the one after the last, in 64 bits. */
  lemma JoinNumbers(cur: seq<Segment>, add: seq<Segment>, i: nat)
    requires i < |add|
    ensures Join(cur, add)[|cur| + i].seqNo ==
              (add[i].seqNo + if cur == [] then 0 else cur[|cur| - 1].seqNo + 1) % TWO_64
  {}

  lemma JoinFits(cur: seq<Segment>, add: seq<Segment>)
    requires Increasing(cur) && Increasing(add) && add != []
    requires Span(cur) + Span(add) <= TWO_64
    ensures Increasing(Join(cur, add))
    ensures Span(Join(cur, add)) == Span(cur) + Span(add)
  {
    var r := Join(cur, add);
    forall i, j | 0 <= i < j < |r| ensures r[i].seqNo < r[j].seqNo {
      if j >= |cur| {
        ShiftedNumber(cur, add, j - |cur|);
        if i >= |cur| {
          ShiftedNumber(cur, add, i - |cur|);
        }
      }
    }
    ShiftedNumber(cur, add, |add| - 1);
  }

  lemma JoinOverflows(cur: seq<Segment>, add: seq<Segment>)
    requires add != [] && Span(cur) + Span(add) > TWO_64
    ensures !Increasing(Join(cur, add))
  {
    var r := Join(cur, add);
    assert r[|cur| - 1].seqNo >= r[|r| - 1].seqNo;
  }

  /** Joining two increasing tracks gives an increasing one exactly when the new numbers fit
      into 64 bits. */
  lemma JoinIncreasing(cur: seq<Segment>, add: seq<Segment>)
    requires Increasing(cur) && Increasing(add)
    ensures Increasing(Join(cur, add)) <==> Span(cur) + Span(add) <= TWO_64
    ensures Span(cur) + Span(add) <= TWO_64 ==> Span(Join(cur, add)) == Span(cur) + Span(add)
  {
    if add == [] {
    } else if Span(cur) + Span(add) <= TWO_64 {
      JoinFits(cur, add);
    } else {
      JoinOverflows(cur, add);
    }
  }

  function JoinAll(tracks: seq<seq<Segment>>): seq<Segment> {
    if tracks == [] then [] else Join(JoinAll(tracks[..|tracks| - 1]), tracks[|tracks| - 1])
  }

  function TotalSpan(tracks: seq<seq<Segment>>): nat {
    if tracks == [] then 0 else TotalSpan(tracks[..|tracks| - 1]) + Span(tracks[|tracks| - 1])
  }

  ghost predicate AllIncreasing(tracks: seq<seq<Segment>>) {
    forall k :: 0 <= k < |tracks| ==> Increasing(tracks[k])
  }

  /** Any number of recorded sessions can be joined into an increasing track exactly when
      together they span at most 2^64 numbers. */
  lemma {:induction false} JoinAllIncreasing(tracks: seq<seq<Segment>>)
    requires AllIncreasing(tracks)
    ensures Increasing(JoinAll(tracks)) <==> TotalSpan(tracks) <= TWO_64
    ensures TotalSpan(tracks) <= TWO_64 ==> Span(JoinAll(tracks)) == TotalSpan(tracks)
  {
    if tracks != [] {
      var n := |tracks| - 1;
      JoinAllIncreasing(tracks[..n]);
      var cur := JoinAll(tracks[..n]);
      if Increasing(cur) {
        JoinIncreasing(cur, tracks[n]);
      }
    }
  }

  ghost predicate SamePayload(a: Segment, b: Segment) {
    a.uri == b.uri && a.durationMs == b.durationMs
  }

  /** Position `i` starts a session that follows a nonempty recording. */
  ghost predicate IsJoint(tracks: seq<seq<Segment>>, i: int) {
    exists k :: 0 <= k < |tracks| && tracks[k] != [] && i > 0 && i == |Flatten(tracks[..k])|
  }

  /** Joining loses no segment, keeps their order, and flags exactly the join points, when the
      recordings themselves carry no flags. */
  lemma {:induction false} JoinAllKeeps(tracks: seq<seq<Segment>>)
    requires forall k, i :: 0 <= k < |tracks| && 0 <= i < |tracks[k]| ==> !tracks[k][i].discontinuity
    ensures var r := JoinAll(tracks);
            var f := Flatten(tracks);
            && |r| == |f|
            && (forall i :: 0 <= i < |r| ==> SamePayload(r[i], f[i]))
            && (forall i :: 0 <= i < |r| ==> (r[i].discontinuity <==> IsJoint(tracks, i)))
  {
    if tracks != [] {
      var n := |tracks| - 1;
      var init := tracks[..n];
      JoinAllKeeps(init);
      var cur := JoinAll(init);
      var r := JoinAll(tracks);
      forall i | 0 <= i < |r| ensures r[i].discontinuity <==> IsJoint(tracks, i) {
        JointOfExtension(tracks, i);
        if i >= |cur| {
          JointsAreInside(init, i);
        }
      }
    }
  }

  lemma JointOfExtension(tracks: seq<seq<Segment>>, i: int)
    requires tracks != []
    ensures var n := |tracks| - 1;
            IsJoint(tracks, i) <==>
              IsJoint(tracks[..n], i) || (tracks[n] != [] && i > 0 && i == |Flatten(tracks[..n])|)
  {
    var n := |tracks| - 1;
    assert forall k :: 0 <= k <= n ==> tracks[..n][..k] == tracks[..k];
  }

  lemma {:induction false} JointsAreInside(tracks: seq<seq<Segment>>, i: int)
    requires i >= |Flatten(tracks)|
    ensures !IsJoint(tracks, i)
  {
    if tracks != [] {
      JointOfExtension(tracks, i);
      JointsAreInside(tracks[..|tracks| - 1], i);
    }
  }

  // ---------------------------------------------------------------- the playlist

  class JsonPlaylist {
    var segments: map<string, seq<Segment>>

    function Track(name: string): seq<Segment>
      reads this
    {
      if name in segments then segments[name] else []
    }

    constructor ()
      ensures segments == map[]
    {
      segments := map[];
    }

    /** Merges the pieces of a track into it. Binary search presupposes an increasing track,
        which every merge keeps. */
    method AddTrack(more: seq<Segment>, name: string)
      requires Increasing(Track(name))
      modifies this
      ensures segments == old(segments)[name := Merge(old(Track(name)), more)]
      ensures name in old(segments) ==> segments[name] == Merge(old(segments)[name], more)
      ensures name !in old(segments) ==> segments[name] == Merge([], more)
      ensures Increasing(Track(name))
    {
      var cur := MergeInto(Track(name), more);
      segments := segments[name := cur];
    }

    /** Appends the recording of a later session. */
    method AddDiscontinuedTrack(add: seq<Segment>, name: string)
      modifies this
      ensures segments == old(segments)[name := Join(old(Track(name)), add)]
      ensures name in old(segments) ==> segments[name] == Join(old(segments)[name], add)
      ensures name !in old(segments) ==> segments[name] == Join([], add)
    {
      var cur := Track(name);
      var lastSeq: SeqNo := 0;
      var disc := false;
      if |cur| > 0 {
        lastSeq := (cur[|cur| - 1].seqNo + 1) % TWO_64;
        disc := true;
      }
      for i := 0 to |add|
        invariant |cur| == |Track(name)| + i
        invariant forall j :: 0 <= j < |Track(name)| ==> cur[j] == Track(name)[j]
        invariant forall j :: 0 <= j < i ==> cur[|Track(name)| + j] == Shifted(Track(name), add, j)
      {
        var seg := add[i];
        if i == 0 {
          seg := seg.(discontinuity := disc);
        }
        seg := seg.(seqNo := (seg.seqNo + lastSeq) % TWO_64);
        cur := cur + [seg];
      }
      assert cur == Join(Track(name), add);
      segments := segments[name := cur];
    }
  }
}
