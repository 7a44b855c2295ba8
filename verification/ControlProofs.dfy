/** Safety, progress and termination of the control protocol, for every schedule of the two processes. */
module ControlProofs {
  import opened Streams
  import opened Control

  /** Everything the client ever writes, in order. */
  ghost function ClientScript(cfg: Config): (r: seq<Msg>)
    ensures |r| == 5
  {
    [Cookie, ParamsJson(cfg.streams, cfg.reverse, cfg.bidirectional), State(TEST_END),
     ResultsJson(Ids(StreamsOf(cfg.Plan()))), State(IPERF_DONE)]
  }

  /** Everything the server ever writes, in order. */
  ghost function ServerScript(cfg: Config): (r: seq<Msg>)
    ensures |r| == 7
  {
    [State(PARAM_EXCHANGE), State(CREATE_STREAMS), State(TEST_START), State(TEST_RUNNING), State(EXCHANGE_RESULTS),
     ResultsJson(Ids(StreamsOf(Opposite(cfg.Plan())))), State(DISPLAY_RESULTS)]
  }

  /** Where the client stands when it has read r and written t messages. */
  ghost predicate ClientStands(r: nat, t: nat, pc: ClientPc, state: int) {
    || (r == 0 && t == 0 && pc == Connecting && state == 0)
    || (r == 0 && t == 1 && pc == Loop && state == 0)
    || (r == 1 && t == 1 && pc == SendingParams && state == PARAM_EXCHANGE)
    || (r == 1 && t == 2 && pc == Loop && state == PARAM_EXCHANGE)
    || (r == 2 && t == 2 && (pc == CreatingStreams || pc == Loop) && state == CREATE_STREAMS)
    || (r == 3 && t == 2 && pc == Loop && state == TEST_START)
    || (r == 4 && t == 2 && pc == Loop && state == TEST_RUNNING)
    || (r == 4 && t == 3 && pc == Loop && state == TEST_END)
    || (r == 5 && t == 3 && pc == ClientPc.SendingResults && state == EXCHANGE_RESULTS)
    || (r == 5 && t == 4 && pc == ClientPc.GettingResults && state == EXCHANGE_RESULTS)
    || (r == 6 && t == 4 && pc == Loop && state == EXCHANGE_RESULTS)
    || (r == 7 && t == 4 && pc == Ending && state == DISPLAY_RESULTS)
    || (r == 7 && t == 5 && pc == Exited && state == IPERF_DONE)
  }

  /** Where the server stands when it has read r and written t messages. */
  ghost predicate ServerStands(r: nat, t: nat, pc: ServerPc, state: int) {
    || (r == 0 && t == 0 && pc == Idle && state == IPERF_START)
    || (r == 1 && t == 0 && pc == SendingParamExchange && state == IPERF_START)
    || (r == 1 && t == 1 && pc == GettingParams && state == PARAM_EXCHANGE)
    || (r == 2 && t == 1 && pc == SendingCreateStreams && state == PARAM_EXCHANGE)
    || (r == 2 && t == 2 && pc == Serving && state == CREATE_STREAMS)
    || (r == 2 && t == 3 && pc == SendingRunning && state == TEST_START)
    || (r == 2 && t == 4 && pc == Serving && state == TEST_RUNNING)
    || (r == 3 && t == 4 && pc == SendingExchange && state == TEST_END)
    || (r == 3 && t == 5 && pc == ServerPc.GettingResults && state == EXCHANGE_RESULTS)
    || (r == 4 && t == 5 && pc == ServerPc.SendingResults && state == EXCHANGE_RESULTS)
    || (r == 4 && t == 6 && pc == SendingDisplay && state == EXCHANGE_RESULTS)
    || (r == 4 && t == 7 && pc == Serving && state == DISPLAY_RESULTS)
    || (r == 5 && t == 7 && pc == Serving && state == IPERF_DONE)
  }

  ghost function OwnCount(pending: seq<Conn>): nat {
    if pending == [] then 0 else (if pending[0] == Own then 1 else 0) + OwnCount(pending[1..])
  }

  ghost predicate ClientInv(cfg: Config, c: Client, r: nat, written: seq<Msg>) {
    var plan := cfg.Plan();
    && |written| <= 5 && ClientStands(r, |written|, c.pc, c.state)
    && written == ClientScript(cfg)[..|written|]
    && |c.streams| <= |plan| && c.streams == StreamsOf(plan)[..|c.streams|]
    && (r < 2 ==> c.streams == [])
    && (r > 2 || (r == 2 && c.pc == Loop) ==> |c.streams| == |plan|)
    && (|written| > 2 ==> c.done && !c.omitting)
  }

  ghost predicate ServerInv(cfg: Config, s: Server, r: nat, written: seq<Msg>) {
    var plan, mode := Opposite(cfg.Plan()), ServerMode(cfg.reverse, cfg.bidirectional);
    var toRec := StreamsToReceive(mode, cfg.streams);
    && |written| <= 7 && ServerStands(r, |written|, s.pc, s.state)
    && written == ServerScript(cfg)[..|written|]
    && |s.streams| <= |plan| && s.streams == StreamsOf(plan)[..|s.streams|]
    && (|written| < 2 ==> s.streams == [])
    && (|written| > 2 ==> |s.streams| == |plan|)
    && s.rec_streams_accepted == (if |s.streams| < toRec then |s.streams| else toRec)
    && s.send_streams_accepted == |s.streams| - s.rec_streams_accepted
    && (r >= 2 ==> s.num_streams == cfg.streams && s.mode == mode)
    && (|written| >= 2 ==> s.streams_to_rec == toRec && s.streams_to_send == |plan| - toRec)
  }

  /** Parameters that the server takes, and no stranger for one that sets a TOS value on every socket it accepts. */
  ghost predicate NoneCanHarm(cfg: Config, pending: seq<Conn>, strangers: nat) {
    !cfg.refused && (cfg.tos && cfg.streams > 0 ==> strangers == 0 && Stranger !in pending)
  }

  /** The joint invariant: where both sides stand, and which connections are on their way. */
  ghost predicate Inv(w: World) {
    && w.cfg.Valid() && w.toClient.Valid() && w.toServer.Valid()
    && NoneCanHarm(w.cfg, w.pending, w.strangers)
    && ClientInv(w.cfg, w.client, w.toClient.read, w.toServer.written)
    && ServerInv(w.cfg, w.server, w.toServer.read, w.toClient.written)
    && OwnCount(w.pending) == |w.client.streams| - |w.server.streams|
  }

  // ---- Safety

  lemma InitInv(cfg: Config, budget: nat, strangers: nat)
    requires cfg.Valid() && NoneCanHarm(cfg, [], strangers)
    ensures Inv(Init(cfg, budget, strangers))
  {
  }

  lemma {:induction false} OwnCountAppend(pending: seq<Conn>, c: Conn)
    ensures OwnCount(pending + [c]) == OwnCount(pending) + if c == Own then 1 else 0
  {
    if pending != [] {
      assert (pending + [c])[1..] == pending[1..] + [c];
      OwnCountAppend(pending[1..], c);
    }
  }

  /** A process that sends what comes next in its script keeps to the script. */
  lemma NextOfScript(script: seq<Msg>, t: nat, m: Msg)
    requires t < |script| && script[t] == m
    ensures script[..t] + [m] == script[..t + 1]
  {
  }

  /** A prefix of the planned streams and one more of them. */
  lemma NextStream(plan: seq<bool>, streams: seq<Stream>)
    requires |streams| < |plan| && streams == StreamsOf(plan)[..|streams|]
    ensures AddStream(streams, plan[|streams|]) == StreamsOf(plan)[..|streams| + 1]
  {
  }

  lemma AllStreams(plan: seq<bool>, streams: seq<Stream>)
    requires |streams| == |plan| && streams == StreamsOf(plan)[..|streams|]
    ensures streams == StreamsOf(plan)
  {
  }

  /** Whatever the client writes next in its script finds a server that keeps its own half of the invariant. */
  lemma ClientSends(w: World, m: Msg, pc: ClientPc, state: int)
    requires Inv(w) && |w.toServer.written| < 5 && m == ClientScript(w.cfg)[|w.toServer.written|]
    requires ClientStands(w.toClient.read, |w.toServer.written| + 1, pc, state)
    requires w.toClient.read == 2 ==> w.client.pc == Loop
    requires |w.toServer.written| == 2 ==> w.client.done && !w.client.omitting
    ensures Inv(w.(toServer := w.toServer.Write(m), client := w.client.(pc := pc, state := state)))
  {
    NextOfScript(ClientScript(w.cfg), |w.toServer.written|, m);
  }

  lemma ServerSends(w: World, m: Msg, pc: ServerPc, state: int)
    requires Inv(w) && |w.toClient.written| < 7 && m == ServerScript(w.cfg)[|w.toClient.written|]
    requires |w.toClient.written| != 1
    requires ServerStands(w.toServer.read, |w.toClient.written| + 1, pc, state)
    requires |w.toClient.written| >= 2 ==> |w.server.streams| == |w.cfg.Plan()|
    ensures Inv(w.(toClient := w.toClient.Write(m), server := w.server.(pc := pc, state := state)))
  {
    NextOfScript(ServerScript(w.cfg), |w.toClient.written|, m);
  }

  lemma ClientLoopKeepsInv(w: World, omits: bool)
    requires Inv(w) && Enabled(w, ClientMoves(omits)) && w.client.pc == Loop
    ensures Inv(HandleMessageClient(w, omits))
  {
    assert w.toClient.Head() == ServerScript(w.cfg)[w.toClient.read];
  }

  lemma ResultsMatch(cfg: Config, own: seq<Stream>, peer: seq<Stream>)
    requires own == StreamsOf(cfg.Plan()) && peer == StreamsOf(Opposite(cfg.Plan()))
    ensures AllFound(own, Ids(peer)) && AllFound(peer, Ids(own))
  {
    OppositeIsPaired(cfg.Plan());
    PairedNumbers(own, peer);
  }

  lemma ClientResultsKeepsInv(w: World)
    requires Inv(w) && w.client.pc == ClientPc.GettingResults && !w.toClient.Empty()
    ensures Inv(ReadResultsClient(w))
  {
    var plan := w.cfg.Plan();
    AllStreams(plan, w.client.streams);
    ResultsMatch(w.cfg, w.client.streams, StreamsOf(Opposite(plan)));
    assert w.toClient.Head() == ServerScript(w.cfg)[5];
  }

  lemma CreateStreamKeepsInv(w: World)
    requires Inv(w) && w.client.pc == CreatingStreams
    ensures Inv(CreateStream(w))
  {
    var plan := w.cfg.Plan();
    if |w.client.streams| < |plan| {
      NextStream(plan, w.client.streams);
      OwnCountAppend(w.pending, Own);
    }
  }

  lemma ClientMovesKeepsInv(w: World, omits: bool)
    requires Inv(w) && Enabled(w, ClientMoves(omits))
    ensures Inv(ClientStep(w, omits))
  {
    match w.client.pc
    case Loop => ClientLoopKeepsInv(w, omits);
    case GettingResults => ClientResultsKeepsInv(w);
    case CreatingStreams => CreateStreamKeepsInv(w);
    case SendingResults =>
      AllStreams(w.cfg.Plan(), w.client.streams);
      ClientSends(w, ResultsJson(Ids(w.client.streams)), ClientPc.GettingResults, w.client.state);
    case Connecting => ClientSends(w, Cookie, Loop, w.client.state);
    case SendingParams =>
      ClientSends(w, ParamsJson(w.cfg.streams, w.cfg.reverse, w.cfg.bidirectional), Loop, w.client.state);
    case Ending => ClientSends(w, State(IPERF_DONE), Exited, IPERF_DONE);
  }

  lemma ClientRunsKeepsInv(w: World, omitFires: bool, timerFires: bool, goalMet: bool)
    requires Inv(w) && Enabled(w, ClientRuns(omitFires, timerFires, goalMet))
    ensures Inv(RunClient(w, omitFires, timerFires, goalMet))
  {
    var c := w.client.(omitting := w.client.omitting && !omitFires, done := w.client.done || timerFires);
    if !c.omitting && (c.done || goalMet) {
      var ended := c.(done := true);
      ClientSends(w.(client := ended), State(TEST_END), Loop, TEST_END);
    }
  }

  lemma ServingKeepsInv(w: World)
    requires Inv(w) && Enabled(w, ServerMoves) && w.server.pc == Serving
    ensures Inv(HandleMessageServer(w))
  {
    assert w.toServer.Head() == ClientScript(w.cfg)[w.toServer.read];
  }

  lemma ServerResultsKeepsInv(w: World)
    requires Inv(w) && w.server.pc == ServerPc.GettingResults && !w.toServer.Empty()
    ensures Inv(ReadResultsServer(w))
  {
    var plan := w.cfg.Plan();
    AllStreams(Opposite(plan), w.server.streams);
    ResultsMatch(w.cfg, StreamsOf(plan), w.server.streams);
    assert w.toServer.Head() == ClientScript(w.cfg)[3];
  }

  lemma SendCreateStreamsKeepsInv(w: World)
    requires Inv(w) && w.server.pc == SendingCreateStreams
    ensures Inv(SendCreateStreams(w))
  {
    NextOfScript(ServerScript(w.cfg), 1, State(CREATE_STREAMS));
  }

  lemma ServerMovesKeepsInv(w: World)
    requires Inv(w) && Enabled(w, ServerMoves)
    ensures Inv(ServerStep(w))
  {
    match w.server.pc
    case Idle => assert w.toServer.Head() == ClientScript(w.cfg)[0];
    case GettingParams => assert w.toServer.Head() == ClientScript(w.cfg)[1];
    case SendingParamExchange => ServerSends(w, State(PARAM_EXCHANGE), GettingParams, PARAM_EXCHANGE);
    case SendingCreateStreams => SendCreateStreamsKeepsInv(w);
    case SendingRunning => ServerSends(w, State(TEST_RUNNING), Serving, TEST_RUNNING);
    case SendingExchange => ServerSends(w, State(EXCHANGE_RESULTS), ServerPc.GettingResults, EXCHANGE_RESULTS);
    case SendingResults =>
      AllStreams(Opposite(w.cfg.Plan()), w.server.streams);
      ServerSends(w, ResultsJson(Ids(w.server.streams)), SendingDisplay, w.server.state);
    case SendingDisplay => ServerSends(w, State(DISPLAY_RESULTS), Serving, DISPLAY_RESULTS);
    case GettingResults => ServerResultsKeepsInv(w);
    case Serving => ServingKeepsInv(w);
  }

  lemma ServerStartsKeepsInv(w: World)
    requires Inv(w) && Enabled(w, ServerStarts)
    ensures Inv(Act(w, ServerStarts))
  {
    ServerSends(w, State(TEST_START), SendingRunning, TEST_START);
  }

  /** While the server creates streams, a connection of the client's is the next stream of the plan. */
  lemma AcceptsNextStream(w: World)
    requires Inv(w) && w.server.pc == Serving && w.server.state == CREATE_STREAMS
    requires w.pending != [] && w.pending[0] == Own
    ensures Inv(AcceptConnection(w))
  {
    var plan, k := w.cfg.Plan(), |w.server.streams|;
    assert k < |plan|;
    AcceptOrderIsCreateOrder(w.cfg.reverse, w.cfg.bidirectional, w.cfg.streams, k);
    NextStream(Opposite(plan), w.server.streams);
  }

  lemma ServerAcceptsKeepsInv(w: World)
    requires Inv(w) && Enabled(w, ServerAccepts)
    ensures Inv(AcceptConnection(w))
  {
    if w.pending[0] == Own {
      if w.server.state == CREATE_STREAMS {
        AcceptsNextStream(w);
      }
    } else if w.cfg.streams == 0 {
      assert |w.cfg.Plan()| == 0;
    }
  }

  lemma StrangerKeepsInv(w: World)
    requires Inv(w) && Enabled(w, StrangerArrives)
    ensures Inv(Act(w, StrangerArrives))
  {
    OwnCountAppend(w.pending, Stranger);
  }

  lemma ActKeepsInv(w: World, a: Action)
    requires Inv(w) && Enabled(w, a)
    ensures Inv(Act(w, a))
  {
    match a
    case ClientMoves(omits) => ClientMovesKeepsInv(w, omits);
    case ClientRuns(omitFires, timerFires, goalMet) => ClientRunsKeepsInv(w, omitFires, timerFires, goalMet);
    case ServerMoves => ServerMovesKeepsInv(w);
    case ServerStarts => ServerStartsKeepsInv(w);
    case ServerAccepts => ServerAcceptsKeepsInv(w);
    case StrangerArrives => StrangerKeepsInv(w);
  }
}
