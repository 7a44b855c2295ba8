/** When TEST_END goes out, told by what happened in a run and by none of the fields in which the client keeps it. */
module ControlHistory {
  import opened Streams
  import opened Control
  import opened ControlProofs
  import opened ControlRuns

  /** The client reads TEST_START; `omits` of the move tells of an omit period. */
  ghost predicate ReadsStart(w: World, a: Action) {
    a.ClientMoves? && Enabled(w, a) && w.client.pc == Loop && w.toClient.Head() == State(1)
  }

  /** Somewhere among these actions the omit timer fires. */
  ghost predicate OmitEnds(actions: seq<Action>) {
    exists k :: 0 <= k < |actions| && actions[k].ClientRuns? && actions[k].omitFires
  }

  /** Somewhere among these actions the test's timer fires. */
  ghost predicate TimeIsUp(actions: seq<Action>) {
    exists k :: 0 <= k < |actions| && actions[k].ClientRuns? && actions[k].timerFires
  }

  /** What the last of these turns, all behind TEST_START, must find to send TEST_END. */
  ghost predicate MustEnd(omits: bool, turns: seq<Action>)
    requires turns != []
  {
    var last := turns[|turns| - 1];
    last.ClientRuns? && (omits ==> OmitEnds(turns)) && (last.goalMet || TimeIsUp(turns))
  }

  // ---- Runs in pieces

  lemma {:induction false} RunConcat(w: World, a: seq<Action>, b: seq<Action>)
    ensures IsRun(w, a + b) <==> IsRun(w, a) && IsRun(After(w, a), b)
    ensures IsRun(w, a + b) ==> After(w, a + b) == After(After(w, a), b)
    decreases |a|
  {
    if a == [] {
      assert a + b == b;
    } else {
      assert (a + b)[1..] == a[1..] + b;
      if Enabled(w, a[0]) {
        RunConcat(Act(w, a[0]), a[1..], b);
      }
    }
  }

  lemma FirstOrLater(a: Action, rest: seq<Action>, all: seq<Action>)
    requires all == [a] + rest
    ensures OmitEnds(all) <==> (a.ClientRuns? && a.omitFires) || OmitEnds(rest)
    ensures TimeIsUp(all) <==> (a.ClientRuns? && a.timerFires) || TimeIsUp(rest)
  {
    assert all[0] == a;
    forall k | 0 <= k < |rest| ensures all[k + 1] == rest[k] {}
    if OmitEnds(all) {
      var k :| 0 <= k < |all| && all[k].ClientRuns? && all[k].omitFires;
      assert k > 0 ==> rest[k - 1] == all[k];
    }
    if TimeIsUp(all) {
      var k :| 0 <= k < |all| && all[k].ClientRuns? && all[k].timerFires;
      assert k > 0 ==> rest[k - 1] == all[k];
    }
    if OmitEnds(rest) {
      var k :| 0 <= k < |rest| && rest[k].ClientRuns? && rest[k].omitFires;
      assert all[k + 1] == rest[k];
    }
    if TimeIsUp(rest) {
      var k :| 0 <= k < |rest| && rest[k].ClientRuns? && rest[k].timerFires;
      assert all[k + 1] == rest[k];
    }
  }

  lemma LaterOrLast(rest: seq<Action>, a: Action, all: seq<Action>)
    requires all == rest + [a]
    ensures OmitEnds(all) <==> (a.ClientRuns? && a.omitFires) || OmitEnds(rest)
    ensures TimeIsUp(all) <==> (a.ClientRuns? && a.timerFires) || TimeIsUp(rest)
  {
    assert all[|rest|] == a;
    assert forall k :: 0 <= k < |rest| ==> all[k] == rest[k];
  }

  // ---- Where nobody can harm

  /** The client has read TEST_START and not sent TEST_END. */
  ghost predicate InTest(w: World) {
    Inv(w) && w.toClient.read >= 3 && |w.toServer.written| == 2
  }

  lemma ChannelsGrow(w: World, a: Action)
    requires Enabled(w, a)
    ensures Act(w, a).toClient.read >= w.toClient.read
    ensures |Act(w, a).toServer.written| >= |w.toServer.written|
  {
  }

  lemma OneStep(w: World, a: Action, v: World)
    requires Inv(w) && w.toClient.read >= 3 && Enabled(w, a) && v == Act(w, a)
    ensures Inv(v) && v.toClient.read >= 3 && |v.toServer.written| >= |w.toServer.written|
    ensures InTest(w) && InTest(v) ==>
      && v.client.omitting == (w.client.omitting && !(a.ClientRuns? && a.omitFires))
      && v.client.done == (w.client.done || (a.ClientRuns? && a.timerFires))
  {
    ActKeepsInv(w, a);
    ChannelsGrow(w, a);
    if a.ClientMoves? && w.client.pc == Loop {
      assert w.toClient.Head() == ServerScript(w.cfg)[w.toClient.read];
    }
  }

  /** As long as TEST_END is not sent, the fields say what has happened since. */
  lemma {:induction false} FieldsTell(w: World, actions: seq<Action>)
    requires Inv(w) && w.toClient.read >= 3 && IsRun(w, actions)
    ensures var r := After(w, actions);
      && Inv(r) && r.toClient.read >= 3 && |r.toServer.written| >= |w.toServer.written|
      && (InTest(w) && InTest(r) ==>
            && r.client.omitting == (w.client.omitting && !OmitEnds(actions))
            && r.client.done == (w.client.done || TimeIsUp(actions)))
    decreases |actions|
  {
    if actions != [] {
      var a, rest := actions[0], actions[1..];
      OneStep(w, a, Act(w, a));
      FieldsTell(Act(w, a), rest);
      FirstOrLater(a, rest, actions);
    }
  }

  lemma StartSetsFields(w: World, a: Action)
    requires Inv(w) && ReadsStart(w, a)
    ensures InTest(Act(w, a)) && Act(w, a).client.omitting == a.omits && !Act(w, a).client.done
  {
    ActKeepsInv(w, a);
    assert w.toClient.Head() == ServerScript(w.cfg)[w.toClient.read];
  }

  /** From the step that reads TEST_START on: a turn sends TEST_END exactly when it must. */
  lemma EndsFrom(w: World, start: Action, after: seq<Action>, a: Action)
    requires Inv(w) && ReadsStart(w, start) && IsRun(Act(w, start), after)
    requires a.ClientRuns? && Enabled(After(Act(w, start), after), a)
    ensures var v := After(Act(w, start), after);
      Act(v, a).toServer == if MustEnd(start.omits, after + [a]) then v.toServer.Write(State(4)) else v.toServer
  {
    StartSetsFields(w, start);
    FieldsTell(Act(w, start), after);
    LaterOrLast(after, a, after + [a]);
  }

  /** Until then TEST_END is not sent. */
  lemma {:induction false} NotYetSent(w: World, start: Action, after: seq<Action>)
    requires Inv(w) && ReadsStart(w, start) && IsRun(Act(w, start), after)
    requires forall k :: 0 < k <= |after| ==> !MustEnd(start.omits, after[..k])
    ensures InTest(After(Act(w, start), after))
    decreases |after|
  {
    if after == [] {
      StartSetsFields(w, start);
    } else {
      var before, a := after[..|after| - 1], after[|after| - 1];
      assert after == before + [a];
      RunConcat(Act(w, start), before, [a]);
      forall k | 0 < k <= |before| ensures !MustEnd(start.omits, before[..k]) {
        assert before[..k] == after[..k];
      }
      NotYetSent(w, start, before);
      var v := After(Act(w, start), before);
      OneStep(v, a, Act(v, a));
      assert after[..|after|] == after;
      if a.ClientRuns? {
        EndsFrom(w, start, before, a);
      }
    }
  }

  // ---- The same where a stranger may make the server fail, of which the client only sees that nothing more comes

  /** v is what w would be if strangers did no harm. */
  ghost predicate Alike(w: World, v: World) {
    && v == w.(cfg := w.cfg.(tos := false), server := v.server)
    && (w.server.pc == ServerPc.Failed || v.server == w.server)
    && (w.server.pc == ServerPc.Failed ==> v.server.pc != Idle)
  }

  lemma ClientAlike(w: World, v: World, a: Action)
    requires v == w.(cfg := w.cfg.(tos := false), server := v.server) && Enabled(w, a)
    requires a.ClientMoves? || a.ClientRuns?
    ensures Enabled(v, a) && Act(w, a).server == w.server && Act(v, a).server == v.server
    ensures Act(v, a) == Act(w, a).(cfg := w.cfg.(tos := false), server := v.server)
  {
  }

  lemma ServerAlike(w: World, v: World, a: Action)
    requires v == w.(cfg := w.cfg.(tos := false)) && Enabled(w, a)
    requires a == ServerMoves || a == ServerStarts || a == ServerAccepts
    ensures Enabled(v, a) && Alike(Act(w, a), Act(v, a))
  {
  }

  lemma AlikeStep(w: World, v: World, a: Action)
    requires Alike(w, v) && Enabled(w, a)
    ensures Enabled(v, a) && Alike(Act(w, a), Act(v, a))
  {
    match a
    case ClientMoves(_) => ClientAlike(w, v, a);
    case ClientRuns(_, _, _) => ClientAlike(w, v, a);
    case StrangerArrives =>
    case _ => ServerAlike(w, v, a);
  }

  lemma {:induction false} AlikeRun(w: World, v: World, actions: seq<Action>)
    requires Alike(w, v) && IsRun(w, actions)
    ensures IsRun(v, actions) && Alike(After(w, actions), After(v, actions))
    decreases |actions|
  {
    if actions != [] {
      AlikeStep(w, v, actions[0]);
      AlikeRun(Act(w, actions[0]), Act(v, actions[0]), actions[1..]);
    }
  }

  /** A run with parameters that are taken looks to the client like one in which the invariant holds. */
  lemma SeenByClient(cfg: Config, budget: nat, strangers: nat, actions: seq<Action>) returns (v: World)
    requires cfg.Valid() && !cfg.refused && IsRun(Init(cfg, budget, strangers), actions)
    ensures Alike(After(Init(cfg, budget, strangers), actions), v) && Inv(v)
  {
    var w := Init(cfg, budget, strangers);
    var harmless := Init(cfg.(tos := false), budget, strangers);
    InitInv(cfg.(tos := false), budget, strangers);
    AlikeRun(w, harmless, actions);
    RunKeepsInv(harmless, actions);
    v := After(harmless, actions);
  }

  lemma StartNeedsTaken(cfg: Config, budget: nat, strangers: nat, actions: seq<Action>, a: Action)
    requires IsRun(Init(cfg, budget, strangers), actions) && ReadsStart(After(Init(cfg, budget, strangers), actions), a)
    ensures !cfg.refused
  {
    if cfg.refused {
      RefusedRun(Init(cfg, budget, strangers), actions);
    }
  }

  // ---- The theorems, for every run of every client

  /**
   * Behind the step that reads TEST_START, a turn of the client's loop sends TEST_END if and only if the omit timer
   * has fired, should there be an omit period, and the byte or block goal is met or the test's timer has fired.
   */
  lemma TestEndExactlyWhen(cfg: Config, budget: nat, strangers: nat, before: seq<Action>, start: Action,
                           after: seq<Action>, a: Action)
    requires cfg.Valid() && IsRun(Init(cfg, budget, strangers), before)
    requires ReadsStart(After(Init(cfg, budget, strangers), before), start)
    requires IsRun(Act(After(Init(cfg, budget, strangers), before), start), after)
    requires a.ClientRuns? && Enabled(After(Act(After(Init(cfg, budget, strangers), before), start), after), a)
    ensures var v := After(Act(After(Init(cfg, budget, strangers), before), start), after);
      Act(v, a).toServer == if MustEnd(start.omits, after + [a]) then v.toServer.Write(State(4)) else v.toServer
  {
    StartNeedsTaken(cfg, budget, strangers, before, start);
    var w := After(Init(cfg, budget, strangers), before);
    var v := SeenByClient(cfg, budget, strangers, before);
    AlikeStep(w, v, start);
    AlikeRun(Act(w, start), Act(v, start), after);
    AlikeStep(After(Act(w, start), after), After(Act(v, start), after), a);
    EndsFrom(v, start, after, a);
  }

  /** With an omit period TEST_END is not sent before the omit timer has fired. */
  lemma OmitPeriodHolds(cfg: Config, budget: nat, strangers: nat, before: seq<Action>, after: seq<Action>)
    requires cfg.Valid() && IsRun(Init(cfg, budget, strangers), before)
    requires ReadsStart(After(Init(cfg, budget, strangers), before), ClientMoves(true))
    requires IsRun(Act(After(Init(cfg, budget, strangers), before), ClientMoves(true)), after) && !OmitEnds(after)
    ensures var w := Act(After(Init(cfg, budget, strangers), before), ClientMoves(true));
      State(4) !in After(w, after).toServer.written
  {
    var start := ClientMoves(true);
    StartNeedsTaken(cfg, budget, strangers, before, start);
    var w := After(Init(cfg, budget, strangers), before);
    var v := SeenByClient(cfg, budget, strangers, before);
    AlikeStep(w, v, start);
    AlikeRun(Act(w, start), Act(v, start), after);
    forall k | 0 < k <= |after| ensures !MustEnd(true, after[..k]) {
      assert forall i :: 0 <= i < k ==> after[..k][i] == after[i];
    }
    NotYetSent(v, start, after);
    TestEndOnce(After(Act(v, start), after));
  }

  /** No step of the run reads TEST_START. */
  ghost predicate NeverStarts(w: World, actions: seq<Action>)
    requires IsRun(w, actions)
    decreases |actions|
  {
    actions == [] || (!ReadsStart(w, actions[0]) && NeverStarts(Act(w, actions[0]), actions[1..]))
  }

  lemma ReadsNoFurther(w: World, a: Action)
    requires Inv(w) && w.toClient.read <= 2 && Enabled(w, a) && !ReadsStart(w, a)
    ensures Inv(Act(w, a)) && Act(w, a).toClient.read <= 2
  {
    ActKeepsInv(w, a);
    if a.ClientMoves? && w.client.pc == Loop {
      assert w.toClient.Head() == ServerScript(w.cfg)[w.toClient.read];
    }
  }

  lemma {:induction false} StaysBefore(w: World, v: World, actions: seq<Action>)
    requires Alike(w, v) && Inv(v) && v.toClient.read <= 2 && IsRun(w, actions) && NeverStarts(w, actions)
    ensures State(4) !in After(w, actions).toServer.written
    decreases |actions|
  {
    if actions == [] {
      TestEndOnce(v);
    } else {
      AlikeStep(w, v, actions[0]);
      ReadsNoFurther(v, actions[0]);
      StaysBefore(Act(w, actions[0]), Act(v, actions[0]), actions[1..]);
    }
  }

  /** Unless TEST_START is read TEST_END is not sent at all. */
  lemma NotBeforeStart(cfg: Config, budget: nat, strangers: nat, actions: seq<Action>)
    requires cfg.Valid() && IsRun(Init(cfg, budget, strangers), actions)
    requires NeverStarts(Init(cfg, budget, strangers), actions)
    ensures State(4) !in After(Init(cfg, budget, strangers), actions).toServer.written
  {
    var w := Init(cfg, budget, strangers);
    if cfg.refused {
      RefusedRun(w, actions);
      assert forall m <- ClientScript(cfg)[..2] :: m == Cookie || m.ParamsJson?;
    } else {
      InitInv(cfg.(tos := false), budget, strangers);
      StaysBefore(w, Init(cfg.(tos := false), budget, strangers), actions);
    }
  }
}
