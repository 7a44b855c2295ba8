/** Whole runs of the control protocol: they are safe, they end, and they end with both sides done. */
module ControlRuns {
  import opened Streams
  import opened Control
  import opened ControlProofs

  /** The actions can be taken one after the other. */
  ghost predicate IsRun(w: World, actions: seq<Action>)
    decreases |actions|
  {
    actions == [] || (Enabled(w, actions[0]) && IsRun(Act(w, actions[0]), actions[1..]))
  }

  ghost function After(w: World, actions: seq<Action>): World
    requires IsRun(w, actions)
    decreases |actions|
  {
    if actions == [] then w else After(Act(w, actions[0]), actions[1..])
  }

  /** Neither process can move; only other people's connections may still arrive. */
  ghost predicate Stuck(w: World) {
    forall a :: Enabled(w, a) ==> a == StrangerArrives
  }

  /** Both sides are through, nothing is left in either channel, and every stream was accepted. */
  ghost predicate Finished(w: World) {
    && w.client.pc == Exited && w.client.state == IPERF_DONE && w.server.pc == Serving && w.server.state == IPERF_DONE
    && w.toClient.Empty() && w.toServer.Empty()
    && w.toServer.written == ClientScript(w.cfg) && w.toClient.written == ServerScript(w.cfg)
  }

  /** What is still to come: reads and writes, streams, connections, and looks at the timers. */
  ghost function Measure(w: World): int {
    2 * (12 - w.toClient.read - |w.toServer.written|) + 2 * (12 - w.toServer.read - |w.toClient.written|)
    + 2 * (|w.cfg.Plan()| - |w.client.streams|) + |w.pending| + (if w.client.pc == CreatingStreams then 1 else 0)
    + 2 * w.strangers + w.budget
  }

  lemma MeasureIsNatural(w: World)
    requires Inv(w)
    ensures Measure(w) >= 0
    ensures w.server.pc != ServerPc.Failed && w.client.pc != ClientPc.Failed
  {
  }

  lemma ActDecreasesMeasure(w: World, a: Action)
    requires Enabled(w, a)
    ensures Measure(Act(w, a)) < Measure(w)
  {
  }

  lemma StuckClient(w: World)
    requires Inv(w) && Stuck(w)
    ensures w.toClient.Empty()
    ensures w.client.pc == Loop || w.client.pc == ClientPc.GettingResults || w.client.pc == Exited
    ensures w.client.pc == Loop ==> w.client.state != TEST_RUNNING
  {
    assert !Enabled(w, ClientMoves(false));
    assert !Enabled(w, ClientRuns(true, true, true));
  }

  lemma StuckServer(w: World)
    requires Inv(w) && Stuck(w)
    ensures w.toServer.Empty()
    ensures w.server.pc in {Idle, GettingParams, Serving, ServerPc.GettingResults}
    ensures w.server.pc == Serving && w.server.state == CREATE_STREAMS ==> w.pending == [] && !AllAccepted(w.server)
  {
    assert !Enabled(w, ServerMoves);
    assert !Enabled(w, ServerStarts);
    assert !Enabled(w, ServerAccepts);
  }

  /** Wherever both sides wait for each other, both are done: there is no deadlock. */
  lemma StuckIsFinished(w: World)
    requires Inv(w)
    ensures Stuck(w) ==> Finished(w)
  {
    if Stuck(w) {
      StuckClient(w);
      StuckServer(w);
      assert w.client.pc == Exited;
    }
  }

  /** Safety and termination: no run is longer than the measure, and none reaches a failed process. */
  lemma {:induction false} RunKeepsInv(w: World, actions: seq<Action>)
    requires Inv(w) && IsRun(w, actions)
    ensures Inv(After(w, actions))
    ensures |actions| + Measure(After(w, actions)) <= Measure(w)
    decreases |actions|
  {
    if actions != [] {
      var v := Act(w, actions[0]);
      ActKeepsInv(w, actions[0]);
      ActDecreasesMeasure(w, actions[0]);
      RunKeepsInv(v, actions[1..]);
    }
  }

  /** Every run that cannot go on has ended well, and it went on for no longer than the measure of its start. */
  lemma RunsFinish(cfg: Config, budget: nat, strangers: nat, actions: seq<Action>)
    requires cfg.Valid() && NoneCanHarm(cfg, [], strangers)
    requires IsRun(Init(cfg, budget, strangers), actions)
    ensures var w := After(Init(cfg, budget, strangers), actions);
      && w.client.pc != ClientPc.Failed && w.server.pc != ServerPc.Failed
      && |actions| <= 48 + 2 * |cfg.Plan()| + 2 * strangers + budget
      && (Stuck(w) ==> Finished(w))
  {
    var w := Init(cfg, budget, strangers);
    InitInv(cfg, budget, strangers);
    RunKeepsInv(w, actions);
    MeasureIsNatural(After(w, actions));
    StuckIsFinished(After(w, actions));
  }

  /** How often a message was sent. */
  ghost function Times(written: seq<Msg>, m: Msg): nat {
    multiset(written)[m]
  }

  /** TEST_END goes out at most once, outside the omit period, and exactly once in a run that ends. */
  lemma TestEndOnce(w: World)
    requires Inv(w)
    ensures Times(w.toServer.written, State(TEST_END)) == if |w.toServer.written| < 3 then 0 else 1
    ensures State(TEST_END) in w.toServer.written ==> w.client.done && !w.client.omitting
    ensures Finished(w) ==> Times(w.toServer.written, State(TEST_END)) == 1
  {
    var script := ClientScript(w.cfg);
    var t := |w.toServer.written|;
    assert script[..t] == if t == 0 then [] else if t == 1 then [script[0]] else if t == 2 then [script[0], script[1]]
      else if t == 3 then [script[0], script[1], script[2]]
      else if t == 4 then [script[0], script[1], script[2], script[3]] else script;
  }

  /** Once TEST_START is out, both sides hold the same identifiers, and on each exactly one side sends. */
  lemma StreamsPairedAtStart(w: World)
    requires Inv(w) && State(TEST_START) in w.toClient.written
    ensures w.client.streams == StreamsOf(w.cfg.Plan()) && w.server.streams == StreamsOf(Opposite(w.cfg.Plan()))
    ensures Paired(w.client.streams, w.server.streams)
    ensures AsAsked(w.client.streams, w.cfg.streams, w.cfg.reverse, w.cfg.bidirectional)
  {
    var k :| 0 <= k < |w.toClient.written| && w.toClient.written[k] == State(TEST_START);
    assert ServerScript(w.cfg)[k] == State(TEST_START);
    AllStreams(Opposite(w.cfg.Plan()), w.server.streams);
    assert |w.client.streams| == |w.cfg.Plan()|;
    AllStreams(w.cfg.Plan(), w.client.streams);
    OppositeIsPaired(w.cfg.Plan());
    PlanIsAsAsked(w.cfg.streams, w.cfg.reverse, w.cfg.bidirectional);
  }

  // ---- What the processes do not accept, in reachable states or not

  /** Every identifier belongs to one of the streams. */
  ghost predicate Known(streams: seq<Stream>, m: Msg) {
    m.ResultsJson? && forall id <- m.ids :: exists k :: 0 <= k < |streams| && streams[k].id == id
  }

  lemma KnownIsFound(streams: seq<Stream>, m: Msg)
    ensures Known(streams, m) <==> m.ResultsJson? && AllFound(streams, m.ids)
  {
    if m.ResultsJson? {
      if AllFound(streams, m.ids) {
        forall id | id in m.ids ensures exists k :: 0 <= k < |streams| && streams[k].id == id {
          var i :| 0 <= i < |m.ids| && m.ids[i] == id;
          assert HasId(streams, m.ids[i]);
        }
      } else {
        var i :| 0 <= i < |m.ids| && !HasId(streams, m.ids[i]);
        assert m.ids[i] in m.ids;
      }
    }
  }

  /** The client gives up on a message if and only if it is no state that it handles, or has unknown identifiers. */
  lemma ClientFailsExactlyWhen(w: World, omits: bool)
    requires Enabled(w, ClientMoves(omits)) && (w.client.pc == Loop || w.client.pc == ClientPc.GettingResults)
    ensures var m := w.toClient.Head();
      ClientStep(w, omits).client.pc == ClientPc.Failed
      <==> !(if w.client.pc == Loop then m.State? && m.code in {-2, 1, 2, 9, 10, 13, 14, 16}
             else Known(w.client.streams, m))
    ensures var m := w.toClient.Head();
      w.client.pc == Loop && m.State? ==> ClientStep(w, omits).client.state == m.code
  {
    KnownIsFound(w.client.streams, w.toClient.Head());
  }

  /** The server gives up on a message if and only if it is not one of those that it expects. */
  lemma ServerFailsExactlyWhen(w: World)
    requires Enabled(w, ServerMoves) && w.server.pc in {Idle, GettingParams, Serving, ServerPc.GettingResults}
    ensures var m, s := w.toServer.Head(), ServerStep(w).server;
      match w.server.pc
      case Idle => s.pc == ServerPc.Failed <==> !m.Cookie?
      case GettingParams => s.pc == SendingError <==> !m.ParamsJson? || w.cfg.refused
      case Serving =>
        && (s.pc == ServerPc.Failed <==> !(m.State? && m.code in {1, 4, 12, 16}))
        && (s.pc == SendingExchange <==> m == State(4))
        && (m.State? ==> s.state == if m.code == 12 then 16 else m.code)
      case _ => s.pc == ServerPc.Failed <==> !Known(w.server.streams, m)
  {
    KnownIsFound(w.server.streams, w.toServer.Head());
  }

  /** What a connection at the listener leads to: in any other state than CREATE_STREAMS to nothing. */
  lemma ConnectionExactly(w: World)
    requires Enabled(w, ServerAccepts)
    ensures var s, r := w.server, Act(w, ServerAccepts).server;
      var creating, own := s.state == 10, w.pending[0] == Own;
      && Act(w, ServerAccepts).pending == w.pending[1..]
      && (r.pc == ServerPc.Failed <==> creating && !own && w.cfg.tos)
      && (if creating && own && s.rec_streams_accepted != s.streams_to_rec then
            r.streams == AddStream(s.streams, false) && r.rec_streams_accepted == s.rec_streams_accepted + 1
            && r.send_streams_accepted == s.send_streams_accepted
          else if creating && own && s.send_streams_accepted != s.streams_to_send then
            r.streams == AddStream(s.streams, true) && r.send_streams_accepted == s.send_streams_accepted + 1
            && r.rec_streams_accepted == s.rec_streams_accepted
          else r == s.(pc := r.pc))
  {
  }

  // ---- Parameters that the server does not take

  /** Where the client stands before it learns that its parameters are not taken, and behind that. */
  ghost predicate ClientRefused(r: nat, t: nat, pc: ClientPc, state: int) {
    || (r == 0 && t == 0 && pc == Connecting && state == 0)
    || (r == 0 && t == 1 && pc == Loop && state == 0)
    || (r == 1 && t == 1 && pc == SendingParams && state == PARAM_EXCHANGE)
    || (r == 1 && t == 2 && pc == Loop && state == PARAM_EXCHANGE)
    || (r == 2 && t == 2 && pc == GettingError && state == SERVER_ERROR)
    || (r == 3 && t == 2 && pc == ClientPc.Failed && state == SERVER_ERROR)
  }

  ghost predicate ServerRefuses(r: nat, t: nat, pc: ServerPc, state: int) {
    || (r == 0 && t == 0 && pc == Idle && state == IPERF_START)
    || (r == 1 && t == 0 && pc == SendingParamExchange && state == IPERF_START)
    || (r == 1 && t == 1 && pc == GettingParams && state == PARAM_EXCHANGE)
    || (r == 2 && t == 1 && pc == SendingError && state == PARAM_EXCHANGE)
    || (r == 2 && t == 3 && pc == ServerPc.Failed && state == SERVER_ERROR)
  }

  const REFUSAL: seq<Msg> := [State(PARAM_EXCHANGE), State(SERVER_ERROR), ErrorCodes]

  ghost predicate RefusedInv(w: World) {
    && w.cfg.refused && w.toClient.Valid() && w.toServer.Valid()
    && |w.toServer.written| <= 2 && w.toServer.written == ClientScript(w.cfg)[..|w.toServer.written|]
    && |w.toClient.written| <= 3 && w.toClient.written == REFUSAL[..|w.toClient.written|]
    && ClientRefused(w.toClient.read, |w.toServer.written|, w.client.pc, w.client.state)
    && ServerRefuses(w.toServer.read, |w.toClient.written|, w.server.pc, w.server.state)
    && w.client.streams == [] && w.server.streams == []
  }

  lemma RefusedClientMoves(w: World, omits: bool)
    requires RefusedInv(w) && Enabled(w, ClientMoves(omits))
    ensures RefusedInv(ClientStep(w, omits))
  {
    var script, t := ClientScript(w.cfg), |w.toServer.written|;
    if w.client.pc == Loop {
      assert w.toClient.Head() == REFUSAL[w.toClient.read];
    } else if w.client.pc != GettingError {
      NextOfScript(script, t, script[t]);
    }
  }

  lemma RefusedServerMoves(w: World)
    requires RefusedInv(w) && Enabled(w, ServerMoves)
    ensures RefusedInv(ServerStep(w))
  {
    var t := |w.toClient.written|;
    match w.server.pc
    case Idle => assert w.toServer.Head() == ClientScript(w.cfg)[0];
    case SendingParamExchange => NextOfScript(REFUSAL, t, REFUSAL[t]);
    case SendingError => assert REFUSAL[..1] + [REFUSAL[1]] + [REFUSAL[2]] == REFUSAL[..3];
    case GettingParams =>
  }

  lemma {:induction false} RefusedRun(w: World, actions: seq<Action>)
    requires RefusedInv(w) && IsRun(w, actions)
    ensures RefusedInv(After(w, actions))
    ensures |actions| + Measure(After(w, actions)) <= Measure(w)
    decreases |actions|
  {
    if actions != [] {
      var a := actions[0];
      match a {
        case ClientMoves(omits) => RefusedClientMoves(w, omits);
        case ServerMoves => RefusedServerMoves(w);
        case _ =>
      }
      ActDecreasesMeasure(w, a);
      RefusedRun(Act(w, a), actions[1..]);
    }
  }

  lemma RefusedStuck(w: World)
    requires RefusedInv(w) && Stuck(w)
    ensures w.client.pc == ClientPc.Failed && w.server.pc == ServerPc.Failed && w.toClient.written == REFUSAL
  {
    assert !Enabled(w, ClientMoves(false));
    assert !Enabled(w, ServerMoves);
    assert REFUSAL[..3] == REFUSAL;
  }

  /** With refused parameters every run ends: the server has sent SERVER_ERROR, and both sides have given up. */
  lemma RefusedGivesUp(cfg: Config, budget: nat, strangers: nat, actions: seq<Action>)
    requires cfg.refused && IsRun(Init(cfg, budget, strangers), actions)
    ensures var w := After(Init(cfg, budget, strangers), actions);
      && w.client.pc != Exited && w.client.streams == [] && w.server.streams == []
      && |actions| <= 48 + 2 * |cfg.Plan()| + 2 * strangers + budget
      && (Stuck(w) ==> w.client.pc == ClientPc.Failed && w.server.pc == ServerPc.Failed
                       && w.toClient.written == REFUSAL)
  {
    var w := Init(cfg, budget, strangers);
    RefusedRun(w, actions);
    if Stuck(After(w, actions)) {
      RefusedStuck(After(w, actions));
    }
  }

  // ---- Runs that fail

  /** A run may begin with any enabled action. */
  lemma Before(w: World, a: Action, rest: seq<Action>)
    requires Enabled(w, a) && IsRun(Act(w, a), rest)
    ensures IsRun(w, [a] + rest) && After(w, [a] + rest) == After(Act(w, a), rest)
  {
    assert ([a] + rest)[1..] == rest;
  }

  ghost predicate CanFail(w: World) {
    exists actions :: IsRun(w, actions) && After(w, actions).server.pc == ServerPc.Failed
  }

  lemma CanFailLater(w: World, a: Action)
    requires Enabled(w, a) && CanFail(Act(w, a))
    ensures CanFail(w)
  {
    var rest :| IsRun(Act(w, a), rest) && After(Act(w, a), rest).server.pc == ServerPc.Failed;
    Before(w, a, rest);
  }

  lemma FailedAlready(w: World)
    requires w.server.pc == ServerPc.Failed
    ensures CanFail(w)
  {
    assert IsRun(w, []) && After(w, []) == w;
  }

  /** While it creates streams, a server with a TOS value fails on a stranger's connection. */
  lemma StrangerBreaksServer(w: World)
    requires w.server.pc == SendingCreateStreams && w.cfg.tos && w.server.num_streams > 0
    requires w.pending != [] && w.pending[0] == Stranger
    requires w.server.rec_streams_accepted == 0 && w.server.send_streams_accepted == 0
    ensures CanFail(w)
  {
    var v := Act(w, ServerMoves);
    FailedAlready(Act(v, ServerAccepts));
    CanFailLater(v, ServerAccepts);
    CanFailLater(w, ServerMoves);
  }

  /** Both sides can get from their first message to the moment when the server has read the parameters. */
  lemma ParametersExchanged(w: World)
    requires w.server.pc == SendingParamExchange && w.client.pc == Loop && w.client.state == 0
    requires w.toClient == Channel([], 0) && w.toServer.Valid() && w.toServer.Empty()
    requires w.cfg.refused || (w.cfg.tos && w.cfg.streams > 0 && w.pending != [] && w.pending[0] == Stranger)
    requires w.server.rec_streams_accepted == 0 && w.server.send_streams_accepted == 0
    ensures CanFail(w)
  {
    var w1 := Act(w, ServerMoves);
    assert w1.toClient.Head() == State(PARAM_EXCHANGE);
    var w2 := Act(w1, ClientMoves(false));
    var w3 := Act(w2, ClientMoves(false));
    assert w3.toServer.Head() == ParamsJson(w.cfg.streams, w.cfg.reverse, w.cfg.bidirectional);
    var w4 := Act(w3, ServerMoves);
    if w.cfg.refused {
      FailedAlready(Act(w4, ServerMoves));
      CanFailLater(w4, ServerMoves);
    } else {
      StrangerBreaksServer(w4);
    }
    CanFailLater(w3, ServerMoves);
    CanFailLater(w2, ClientMoves(false));
    CanFailLater(w1, ClientMoves(false));
    CanFailLater(w, ServerMoves);
  }

  /** A run to the failed socket option, or to the parameters that the server does not take. */
  lemma HarmBreaksTest(cfg: Config, budget: nat, strangers: nat)
    requires !NoneCanHarm(cfg, [], strangers)
    ensures CanFail(Init(cfg, budget, strangers))
  {
    var w := Init(cfg, budget, strangers);
    var w1 := Act(w, ClientMoves(false));
    var w2 := Act(w1, ServerMoves);
    if cfg.refused {
      ParametersExchanged(w2);
    } else {
      ParametersExchanged(Act(w2, StrangerArrives));
      CanFailLater(w2, StrangerArrives);
    }
    CanFailLater(w1, ServerMoves);
    CanFailLater(w, ClientMoves(false));
  }

  /**
   * Exactly when a run can end in failure: parameters that the server does not take, or a TOS value, a stream to
   * create, and somebody else who connects.
   */
  lemma FailsExactlyWhenHarmed(cfg: Config, budget: nat, strangers: nat)
    requires cfg.Valid()
    ensures CanFail(Init(cfg, budget, strangers))
       <==> cfg.refused || (cfg.tos && cfg.streams > 0 && strangers > 0)
  {
    if NoneCanHarm(cfg, [], strangers) {
      if CanFail(Init(cfg, budget, strangers)) {
        var actions :| IsRun(Init(cfg, budget, strangers), actions)
          && After(Init(cfg, budget, strangers), actions).server.pc == ServerPc.Failed;
        RunsFinish(cfg, budget, strangers, actions);
      }
    } else {
      HarmBreaksTest(cfg, budget, strangers);
    }
  }
}
