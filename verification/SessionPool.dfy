/** Selection of sessions from a pool (server/broadcast.go). */
module SessionPool {
  import opened Selection
  import Sorting

  /** Positions of a list whose session has not been selected yet. */
  ghost function Unselected(last: seq<BroadcastSession>, selected: seq<BroadcastSession>): nat {
    if last == [] then 0
    else (if last[0] in selected then 0 else 1) + Unselected(last[1..], selected)
  }

  lemma {:induction false} SelectingShrinks(last: seq<BroadcastSession>, selected: seq<BroadcastSession>,
                                            s: BroadcastSession)
    ensures Unselected(last, selected + [s]) <= Unselected(last, selected)
    ensures s in last && s !in selected ==> Unselected(last, selected + [s]) < Unselected(last, selected)
  {
    if last != [] {
      SelectingShrinks(last[1..], selected, s);
    }
  }

  function Without(ss: seq<BroadcastSession>, s: BroadcastSession): (r: seq<BroadcastSession>)
    ensures forall u :: u in r ==> u in ss && u != s
    ensures forall u :: u in ss && u != s ==> u in r
  {
    if ss == [] then []
    else (if ss[0] == s then [] else [ss[0]]) + Without(ss[1..], s)
  }

  lemma {:induction false} RemovingShrinks(last: seq<BroadcastSession>, selected: seq<BroadcastSession>,
                                           s: BroadcastSession)
    ensures Unselected(Without(last, s), selected) <= Unselected(last, selected)
    ensures s in last && s !in selected ==> Unselected(Without(last, s), selected) < Unselected(last, selected)
  {
    if last != [] {
      RemovingShrinks(last[1..], selected, s);
      if last[0] == s {
        assert Without(last, s) == Without(last[1..], s);
      }
    }
  }

  lemma {:induction false} WithoutAppend(ss: seq<BroadcastSession>, t: BroadcastSession, s: BroadcastSession)
    ensures Without(ss + [t], s) == Without(ss, s) + if t == s then [] else [t]
  {
    if ss == [] {
    } else {
      assert (ss + [t])[1..] == ss[1..] + [t];
      WithoutAppend(ss[1..], t, s);
    }
  }

  method RemoveSessionFromList(ss: seq<BroadcastSession>, s: BroadcastSession) returns (r: seq<BroadcastSession>)
    ensures r == Without(ss, s)
  {
    r := [];
    for i := 0 to |ss|
      invariant r == Without(ss[..i], s)
    {
      assert ss[..i + 1] == ss[..i] + [ss[i]];
      WithoutAppend(ss[..i], ss[i], s);
      if ss[i] != s {
        r := r + [ss[i]];
      }
    }
    assert ss[..|ss|] == ss;
  }

  /** The oldest segment in flight was sent less than `durMult` segment lengths ago. */
  predicate Reusable(s: BroadcastSession, exclude: seq<BroadcastSession>, durMult: int, now: int)
    reads s
  {
    && |s.segsInFlight| > 0
    && now - s.segsInFlight[0].startTime < durMult * s.segsInFlight[0].segDur
    && s !in exclude
  }

  /** A session with segments in flight can be reused up to a deadline, counted from when the
      oldest one was sent, and not after. */
  lemma ReusableUntilDeadline(s: BroadcastSession, exclude: seq<BroadcastSession>, durMult: int, now: int)
    requires s !in exclude && s.segsInFlight != []
    ensures var oldest := s.segsInFlight[0];
            Reusable(s, exclude, durMult, now) <==> now < oldest.startTime + durMult * oldest.segDur
  {}

  /** No entry is reusable at the time it is looked at, which `clock` gives. */
  ghost predicate NoneReusable(sessions: seq<BroadcastSession>, exclude: seq<BroadcastSession>, durMult: int,
                               clock: nat -> int)
    reads sessions
  {
    forall i :: 0 <= i < |sessions| ==> !Reusable(sessions[i], exclude, durMult, clock(i))
  }

  ghost predicate FirstReusable(sessions: seq<BroadcastSession>, exclude: seq<BroadcastSession>, durMult: int,
                                clock: nat -> int, r: BroadcastSession)
    reads sessions
  {
    exists i :: 0 <= i < |sessions| && sessions[i] == r && Reusable(sessions[i], exclude, durMult, clock(i)) &&
      forall j :: 0 <= j < i ==> !Reusable(sessions[j], exclude, durMult, clock(j))
  }

  method SelectSession(sessions: seq<BroadcastSession>, exclude: seq<BroadcastSession>, durMult: int, clock: nat -> int)
    returns (r: BroadcastSession?)
    ensures r == null ==> NoneReusable(sessions, exclude, durMult, clock)
    ensures r != null ==> FirstReusable(sessions, exclude, durMult, clock, r)
  {
    for i := 0 to |sessions|
      invariant forall j :: 0 <= j < i ==> !Reusable(sessions[j], exclude, durMult, clock(j))
    {
      if Reusable(sessions[i], exclude, durMult, clock(i)) {
        return sessions[i];
      }
    }
    r := null;
  }

  /** Wherever there is a reusable entry, the one returned is reusable there or before. */
  lemma FirstComesFirst(sessions: seq<BroadcastSession>, exclude: seq<BroadcastSession>, durMult: int,
                        clock: nat -> int, r: BroadcastSession, j: nat)
    requires j < |sessions| && Reusable(sessions[j], exclude, durMult, clock(j))
    ensures !NoneReusable(sessions, exclude, durMult, clock)
    ensures FirstReusable(sessions, exclude, durMult, clock, r) ==>
              exists i :: 0 <= i <= j && sessions[i] == r && Reusable(sessions[i], exclude, durMult, clock(i))
  {}

  /** What one iteration may observe: the clock during two scans, and the luck of a draw. */
  datatype Env = Env(clock1: nat -> int, clock2: nat -> int, luck: Luck)

  /** Each session exists once: in the selector, among the selected, or waiting in the list of
      last sessions. */
  ghost predicate Single(bag: multiset<BroadcastSession>, selected: seq<BroadcastSession>, last: seq<BroadcastSession>) {
    && (forall s :: s in bag ==> Places(bag, selected, last, s) <= 1)
    && (forall s :: s in selected ==> Places(bag, selected, last, s) <= 1)
  }

  ghost function Places(bag: multiset<BroadcastSession>, selected: seq<BroadcastSession>,
                        last: seq<BroadcastSession>, s: BroadcastSession): nat
  {
    bag[s] + multiset(selected)[s] + if s in last && s !in selected then 1 else 0
  }

  lemma SingleIsDistinct(bag: multiset<BroadcastSession>, selected: seq<BroadcastSession>, last: seq<BroadcastSession>)
    requires Single(bag, selected, last)
    ensures Sorting.Distinct(selected)
  {
    forall i, j | 0 <= i < j < |selected| ensures selected[i] != selected[j] {
      assert Places(bag, selected, last, selected[i]) <= 1;
      if selected[i] == selected[j] {
        Sorting.CountsTwice(selected, i, j);
        assert false;
      }
    }
  }

  lemma SingleMoves(bag: multiset<BroadcastSession>, selected: seq<BroadcastSession>,
                    last: seq<BroadcastSession>, s: BroadcastSession)
    ensures Single(bag, selected, last) && s in last && s !in selected ==> Single(bag, selected + [s], last)
    ensures Single(bag, selected, last) && s in last ==> Single(bag, selected, Without(last, s))
    ensures Single(bag, selected, last) && s in bag ==> Single(bag - multiset{s}, selected + [s], last)
    ensures Single(bag, selected, last) && s in bag ==> Single(bag - multiset{s}, selected, last)
  {
    if !Single(bag, selected, last) {
      return;
    }
    var more := selected + [s];
    if s in bag {
      var less := bag - multiset{s};
      forall u | u in more ensures Places(less, more, last, u) <= 1 { assert Places(bag, selected, last, u) <= 1; }
      forall u | u in selected ensures Places(less, selected, last, u) <= 1 { assert Places(bag, selected, last, u) <= 1; }
    }
  }

  function With(selected: seq<BroadcastSession>, picked: BroadcastSession?): seq<BroadcastSession> {
    if picked == null then selected else selected + [picked]
  }

  /** One session has left the selector, or the last sessions, or has been picked from among the
      last sessions. */
  ghost predicate Moved(bag: multiset<BroadcastSession>, last: seq<BroadcastSession>, selected: seq<BroadcastSession>,
                        bag': multiset<BroadcastSession>, last': seq<BroadcastSession>, picked: BroadcastSession?)
  {
    || (exists s :: s in bag && bag' == bag - multiset{s} && last' == last && (picked == null || picked == s))
    || (bag' == bag && last' == last && picked != null && picked in last && picked !in selected)
    || (bag' == bag && picked == null && exists s :: s in last && s !in selected && last' == Without(last, s))
  }

  lemma MovedShrinks(bag: multiset<BroadcastSession>, last: seq<BroadcastSession>, selected: seq<BroadcastSession>,
                     bag': multiset<BroadcastSession>, last': seq<BroadcastSession>, picked: BroadcastSession?)
    requires Moved(bag, last, selected, bag', last', picked)
    ensures |bag'| + Unselected(last', With(selected, picked)) < |bag| + Unselected(last, selected)
    ensures bag' <= bag && forall s :: s in last' ==> s in last
    ensures picked != null ==> picked in bag || picked in last
    ensures Single(bag, selected, last) ==> Single(bag', With(selected, picked), last')
  {
    if s :| s in bag && bag' == bag - multiset{s} && last' == last && (picked == null || picked == s) {
      SelectingShrinks(last, selected, s);
      SingleMoves(bag, selected, last, s);
    } else if picked != null {
      SelectingShrinks(last, selected, picked);
      SingleMoves(bag, selected, last, picked);
    } else {
      var s :| s in last && s !in selected && last' == Without(last, s);
      RemovingShrinks(last, selected, s);
      SingleMoves(bag, selected, last, s);
    }
  }

  /** Selected sessions are registered and were at hand when the selection began. */
  ghost predicate Legitimate(selected: seq<BroadcastSession>, sessMap: map<string, BroadcastSession>,
                             bag: multiset<BroadcastSession>, last: seq<BroadcastSession>)
  {
    forall s :: s in selected ==> s.transcoder in sessMap && (s in bag || s in last)
  }

  /** No session of a registered orchestrator is lost: it stays in the selector or is selected. */
  ghost predicate Kept(bag: multiset<BroadcastSession>, bag': multiset<BroadcastSession>,
                       selected: seq<BroadcastSession>, sessMap: map<string, BroadcastSession>)
  {
    forall s :: s in bag && s.transcoder in sessMap ==> bag'[s] + multiset(selected)[s] >= bag[s]
  }

  lemma KeptOneMore(bag: multiset<BroadcastSession>, bag': multiset<BroadcastSession>, bag'': multiset<BroadcastSession>,
                    selected: seq<BroadcastSession>, picked: BroadcastSession?, sessMap: map<string, BroadcastSession>)
    requires Kept(bag, bag', selected, sessMap) && Kept(bag', bag'', With([], picked), sessMap)
    ensures Kept(bag, bag'', With(selected, picked), sessMap)
  {
    forall s | s in bag && s.transcoder in sessMap
      ensures bag''[s] + multiset(With(selected, picked))[s] >= bag[s]
    {
      assert multiset(With(selected, picked))[s] == multiset(selected)[s] + multiset(With([], picked))[s];
    }
  }

  /** There is nothing to be had: no last session can be reused, and the selector gives none. */
  ghost predicate Exhausted(sel: MinLSSelector, last: seq<BroadcastSession>, selected: seq<BroadcastSession>, env: Env)
    reads sel, sel.knownSessions, last
  {
    && NoneReusable(last, selected, 1, env.clock1)
    && sel.GivesNothing(env.luck)
    && NoneReusable(last, selected, 2, env.clock2)
  }

  /** When nothing is to be had, every last session is selected already, has no segment in flight
      or is past its deadline, even the longer one; and the selector has no session with a score,
      and none without one that it could draw, or only such as it does not draw now. */
  lemma ExhaustedMeans(sel: MinLSSelector, last: seq<BroadcastSession>, selected: seq<BroadcastSession>, env: Env, i: nat)
    requires Exhausted(sel, last, selected, env) && i < |last|
    ensures last[i] in selected || last[i].segsInFlight == [] ||
            var oldest := last[i].segsInFlight[0];
            env.clock1(i) >= oldest.startTime + oldest.segDur && env.clock2(i) >= oldest.startTime + 2 * oldest.segDur
    ensures sel.unknownSessions == [] ==> sel.knownSessions == []
    ensures sel.unknownSessions != [] ==>
              && sel.hasStakeReader && env.luck.coin >= sel.randFreq
              && (env.luck.store.None? ||
                  forall k :: 0 <= k < |sel.unknownSessions| ==> sel.unknownSessions[k].recipient.None?)
  {
    assert !Reusable(last[i], selected, 1, env.clock1(i)) && !Reusable(last[i], selected, 2, env.clock2(i));
    if sel.unknownSessions != [] {
      assert forall k :: 0 <= k < |sel.unknownSessions| ==>
               Recipients(sel.unknownSessions)[k] == sel.unknownSessions[k].recipient;
    }
  }

  /** A session found is taken out of the selector or is among the last ones. */
  lemma FoundMoves(bag: multiset<BroadcastSession>, last: seq<BroadcastSession>, selected: seq<BroadcastSession>,
                   bag': multiset<BroadcastSession>, sess: BroadcastSession, fromLast: bool,
                   sessMap: map<string, BroadcastSession>)
    requires fromLast ==> bag' == bag && sess in last && sess !in selected
    requires !fromLast ==> sess in bag && bag' == bag - multiset{sess}
    ensures Moved(bag, last, selected, bag', last, sess)
    ensures Kept(bag, bag', [sess], sessMap)
    ensures sess.transcoder !in sessMap ==> Kept(bag, bag', [], sessMap)
    ensures fromLast ==> Moved(bag, last, selected, bag', Without(last, sess), null)
    ensures !fromLast ==> Moved(bag, last, selected, bag', last, null)
  {}

  /** A selection under way, from `bag` and `last` as they were at its start: selected are only
      registered sessions then at hand, and no registered session is lost. */
  ghost predicate Selecting(bag: multiset<BroadcastSession>, last: seq<BroadcastSession>,
                            bag': multiset<BroadcastSession>, last': seq<BroadcastSession>,
                            selected: seq<BroadcastSession>, sessMap: map<string, BroadcastSession>)
  {
    && Legitimate(selected, sessMap, bag, last)
    && Kept(bag, bag', selected, sessMap)
    && bag' <= bag
    && (forall s :: s in last' ==> s in last)
    && (forall s :: s in last && s.transcoder in sessMap ==> s in last')
    && (Single(bag, [], last) ==> Single(bag', selected, last'))
  }

  /** Spelled out for one session. */
  lemma SelectingMeans(bag: multiset<BroadcastSession>, last: seq<BroadcastSession>,
                       bag': multiset<BroadcastSession>, last': seq<BroadcastSession>,
                       selected: seq<BroadcastSession>, sessMap: map<string, BroadcastSession>, s: BroadcastSession)
    requires Selecting(bag, last, bag', last', selected, sessMap)
    ensures s in selected ==> s.transcoder in sessMap && (s in bag || s in last)
    ensures s in bag && s.transcoder in sessMap ==> s in bag' || s in selected
    ensures s in last && s.transcoder in sessMap ==> s in last'
    ensures bag'[s] <= bag[s] && (s in last' ==> s in last)
  {}

  /** Sessions that are in the selector once, or among the last ones instead, exist once. */
  lemma SingleWhen(bag: multiset<BroadcastSession>, last: seq<BroadcastSession>)
    requires forall s :: s in bag ==> bag[s] == 1 && s !in last
    ensures Single(bag, [], last)
  {}

  lemma SelectedAreDistinct(bag: multiset<BroadcastSession>, last: seq<BroadcastSession>,
                            bag': multiset<BroadcastSession>, last': seq<BroadcastSession>,
                            selected: seq<BroadcastSession>, sessMap: map<string, BroadcastSession>)
    requires Selecting(bag, last, bag', last', selected, sessMap)
    ensures Single(bag, [], last) ==> Sorting.Distinct(selected)
  {
    if Single(bag, [], last) {
      SingleIsDistinct(bag', selected, last');
    }
  }

  lemma SelectingAdvances(bag: multiset<BroadcastSession>, last: seq<BroadcastSession>,
                          bag': multiset<BroadcastSession>, last': seq<BroadcastSession>,
                          bag'': multiset<BroadcastSession>, last'': seq<BroadcastSession>,
                          selected: seq<BroadcastSession>, picked: BroadcastSession?,
                          sessMap: map<string, BroadcastSession>)
    requires Selecting(bag, last, bag', last', selected, sessMap)
    requires Moved(bag', last', selected, bag'', last'', picked)
    requires Kept(bag', bag'', With([], picked), sessMap)
    requires picked != null ==> picked.transcoder in sessMap
    requires forall s :: s in last' && s.transcoder in sessMap ==> s in last''
    ensures Selecting(bag, last, bag'', last'', With(selected, picked), sessMap)
    ensures |bag''| + Unselected(last'', With(selected, picked)) < |bag'| + Unselected(last', selected)
  {
    MovedShrinks(bag', last', selected, bag'', last'', picked);
    KeptOneMore(bag, bag', bag'', selected, picked, sessMap);
  }

  class SessionPool {
    var lastSess: seq<BroadcastSession>
    var sessMap: map<string, BroadcastSession>
    const sel: MinLSSelector
    const poolSize: int

    constructor (poolSize: int, sel: MinLSSelector)
      ensures lastSess == [] && sessMap == map[] && this.sel == sel && this.poolSize == poolSize
    {
      this.lastSess, this.sessMap, this.sel, this.poolSize := [], map[], sel, poolSize;
    }

    /** One attempt: a recently used session, else one from the selector, else a session used
        less recently. A session from the selector leaves it. */
    method NextSession(selected: seq<BroadcastSession>, env: Env) returns (sess: BroadcastSession?, fromLast: bool)
      modifies sel
      ensures sess == null ==>
                && sel.Bag() == old(sel.Bag())
                && Exhausted(sel, lastSess, selected, env)
      ensures sess != null && fromLast ==>
                sess in lastSess && sess !in selected && sel.Bag() == old(sel.Bag())
      ensures sess != null && fromLast ==>
                || FirstReusable(lastSess, selected, 1, env.clock1, sess)
                || (&& NoneReusable(lastSess, selected, 1, env.clock1)
                    && old(sel.GivesNothing(env.luck))
                    && FirstReusable(lastSess, selected, 2, env.clock2, sess))
      ensures sess != null && !fromLast ==>
                && NoneReusable(lastSess, selected, 1, env.clock1)
                && sess in old(sel.Bag()) && sel.Bag() == old(sel.Bag()) - multiset{sess}
    {
      fromLast := true;
      sess := SelectSession(lastSess, selected, 1, env.clock1);
      if sess != null {
        return;
      }
      sess := sel.Select(env.luck);
      if sess != null {
        fromLast := false;
        return;
      }
      sess := SelectSession(lastSess, selected, 2, env.clock2);
    }

    /** Stops tracking a session whose orchestrator is gone. */
    method Forget(sess: BroadcastSession)
      modifies this`lastSess, sess`segsInFlight
      ensures lastSess == Without(old(lastSess), sess) && sess.segsInFlight == []
    {
      sess.segsInFlight := [];
      lastSess := RemoveSessionFromList(lastSess, sess);
    }

    /** Picks a session if its orchestrator is still in the map, and stops tracking it otherwise. */
    method Take(sess: BroadcastSession, fromLast: bool) returns (picked: BroadcastSession?)
      requires fromLast ==> sess in lastSess
      modifies this`lastSess, set s | s in lastSess
      ensures picked == if sess.transcoder in sessMap then sess else null
      ensures lastSess == if picked == null && fromLast then Without(old(lastSess), sess) else old(lastSess)
      ensures forall s :: s in old(lastSess) && s.transcoder in sessMap ==> s.segsInFlight == old(s.segsInFlight)
    {
      picked := null;
      if sess.transcoder in sessMap {
        picked := sess;
      } else if fromLast {
        Forget(sess);
      }
    }

    /** One round of the selection: the session found is picked if its orchestrator is still in
        the map, and forgotten otherwise. Whatever it is, there is one session less to look at. */
    method Round(selected: seq<BroadcastSession>, env: Env) returns (picked: BroadcastSession?, stop: bool)
      modifies this`lastSess, sel, set s | s in lastSess
      ensures stop ==> picked == null && lastSess == old(lastSess) && sel.Bag() == old(sel.Bag())
      ensures stop ==> Exhausted(sel, lastSess, selected, env)
      ensures !stop ==>
                Moved(old(sel.Bag()), old(lastSess), selected, sel.Bag(), lastSess, picked)
      ensures picked != null ==> picked.transcoder in sessMap
      ensures Kept(old(sel.Bag()), sel.Bag(), With([], picked), sessMap)
      ensures forall s :: s in old(lastSess) && s.transcoder in sessMap ==>
                s in lastSess && s.segsInFlight == old(s.segsInFlight)
    {
      picked, stop := null, true;
      var sess, fromLast := NextSession(selected, env);
      if sess == null {
        return;
      }
      stop := false;
      FoundMoves(old(sel.Bag()), old(lastSess), selected, sel.Bag(), sess, fromLast, sessMap);
      picked := Take(sess, fromLast);
    }

    /** One round within a selection that started from `bag` and `last`. */
    method Advance(selected: seq<BroadcastSession>, env: Env,
                   ghost bag: multiset<BroadcastSession>, ghost last: seq<BroadcastSession>)
      returns (selected': seq<BroadcastSession>, stop: bool)
      requires Selecting(bag, last, sel.Bag(), lastSess, selected, sessMap)
      modifies this`lastSess, sel, set s | s in lastSess
      ensures Selecting(bag, last, sel.Bag(), lastSess, selected', sessMap)
      ensures |selected| <= |selected'| <= |selected| + 1
      ensures stop ==> selected' == selected && Exhausted(sel, lastSess, selected, env)
      ensures !stop ==>
                |sel.Bag()| + Unselected(lastSess, selected') < old(|sel.Bag()| + Unselected(lastSess, selected))
      ensures forall s :: s in last && s.transcoder in sessMap ==> s.segsInFlight == old(s.segsInFlight)
    {
      ghost var bag', last' := sel.Bag(), lastSess;
      var picked;
      picked, stop := Round(selected, env);
      selected' := With(selected, picked);
      if !stop {
        SelectingAdvances(bag, last, bag', last', sel.Bag(), lastSess, selected, picked, sessMap);
      }
    }

    /** The loop of the selection. It ends because each round takes a session out of the
        selector or out of those last used and not yet selected; and it ends short only when
        nothing more is to be had. */
    method SelectUpTo(sessionsNum: int, env: nat -> Env) returns (selected: seq<BroadcastSession>, ghost rounds: nat)
      modifies this`lastSess, sel, set s | s in lastSess
      ensures Selecting(old(sel.Bag()), old(lastSess), sel.Bag(), lastSess, selected, sessMap)
      ensures sessionsNum >= 1 ==> |selected| <= sessionsNum
      ensures |selected| != sessionsNum ==>
                || (sel.Bag() == multiset{} && lastSess == [])
                || Exhausted(sel, lastSess, selected, env(rounds))
      ensures forall s :: s in old(lastSess) && s.transcoder in sessMap ==> s.segsInFlight == old(s.segsInFlight)
    {
      selected, rounds := [], 0;
      var round := 0;
      while sel.Size() > 0 || |lastSess| > 0
        invariant Selecting(old(sel.Bag()), old(lastSess), sel.Bag(), lastSess, selected, sessMap)
        invariant sessionsNum >= 1 ==> |selected| < sessionsNum
        invariant forall s :: s in old(lastSess) && s.transcoder in sessMap ==> s.segsInFlight == old(s.segsInFlight)
        decreases |sel.Bag()| + Unselected(lastSess, selected)
      {
        var before, stop := |selected|, false;
        rounds := round;
        selected, stop := Advance(selected, env(round), old(sel.Bag()), old(lastSess));
        if stop || (|selected| > before && |selected| == sessionsNum) {
          return;
        }
        round := round + 1;
      }
      assert sel.Bag() == multiset{};
    }

    /** Selects up to `sessionsNum` sessions, whatever the clock says and the selector chooses.
        Only sessions whose orchestrator is still in the map are selected, and they become the
        last used ones. No session of such an orchestrator is lost, and its segments in flight
        are not forgotten. `left` are the last sessions when the selection ended. */
    method SelectSessions(sessionsNum: int, env: nat -> Env)
      returns (selected: seq<BroadcastSession>, ghost left: seq<BroadcastSession>, ghost rounds: nat)
      modifies this`lastSess, sel, set s | s in lastSess
      ensures poolSize == 0 ==> selected == [] && lastSess == old(lastSess) && sel.Bag() == old(sel.Bag())
      ensures poolSize != 0 ==> lastSess == selected
      ensures Selecting(old(sel.Bag()), old(lastSess), sel.Bag(), left, selected, sessMap)
      ensures old(Single(sel.Bag(), [], lastSess)) ==> Sorting.Distinct(selected)
      ensures sessionsNum >= 1 ==> |selected| <= sessionsNum
      ensures forall s :: s in old(lastSess) && s.transcoder in sessMap ==> s.segsInFlight == old(s.segsInFlight)
      ensures poolSize != 0 && |selected| != sessionsNum ==>
                (sel.Bag() == multiset{} && left == []) || Exhausted(sel, left, selected, env(rounds))
    {
      selected, left, rounds := [], lastSess, 0;
      if poolSize == 0 {
        return;
      }
      selected, rounds := SelectUpTo(sessionsNum, env);
      left := lastSess;
      SelectedAreDistinct(old(sel.Bag()), old(lastSess), sel.Bag(), left, selected, sessMap);
      lastSess := selected;
    }
  }
}
