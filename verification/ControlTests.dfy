/** The same protocol as the program writes it: two tests whose fields the handlers update in place. */
module ControlTests {
  import opened Streams
  import opened Control
  import opened ControlProofs
  import opened ControlRuns

  /** The control connection in both directions, and the connections that wait at the listener. */
  class Link {
    var toServer: Channel
    var toClient: Channel
    var pending: seq<Conn>

    constructor ()
      ensures toServer == Channel([], 0) && toClient == Channel([], 0) && pending == []
    {
      toServer, toClient, pending := Channel([], 0), Channel([], 0), [];
    }
  }

  class ClientTest {
    const cfg: Config
    var pc: ClientPc
    var state: int
    var done: bool
    var omitting: bool
    var streams: seq<Stream>
    var budget: nat

    constructor (cfg: Config, budget: nat)
      ensures this.cfg == cfg && this.budget == budget && Value() == Client(Connecting, 0, false, false, [])
    {
      this.cfg, this.budget := cfg, budget;
      pc, state, done, omitting, streams := Connecting, 0, false, false, [];
    }

    function Value(): Client
      reads this
    {
      Client(pc, state, done, omitting, streams)
    }

    method Send(link: Link, m: Msg)
      modifies link`toServer
      ensures link.toServer == old(link.toServer).Write(m)
    {
      link.toServer := link.toServer.Write(m);
    }

    method Receive(link: Link) returns (m: Msg)
      requires !link.toClient.Empty()
      modifies link`toClient
      ensures m == old(link.toClient).Head() && link.toClient == old(link.toClient).Read()
    {
      m := link.toClient.Head();
      link.toClient := link.toClient.Read();
    }

    /** iperf_handle_message_client */
    method HandleMessage(link: Link, omits: bool, ghost s: ServerTest, ghost strangers: nat)
      requires !link.toClient.Empty()
      modifies this, link`toClient
      ensures Snapshot(this, s, link, strangers) == HandleMessageClient(old(Snapshot(this, s, link, strangers)), omits)
    {
      var m := Receive(link);
      if !m.State? {
        pc := ClientPc.Failed;
        return;
      }
      state := m.code;
      if state == PARAM_EXCHANGE {
        pc := SendingParams;
      } else if state == CREATE_STREAMS {
        pc := CreatingStreams;
      } else if state == TEST_START {
        done := false;
        omitting := omits;
      } else if state == TEST_RUNNING {
      } else if state == EXCHANGE_RESULTS {
        pc := ClientPc.SendingResults;
      } else if state == DISPLAY_RESULTS {
        pc := Ending;
      } else if state == IPERF_DONE {
        pc := Exited;
      } else if state == SERVER_ERROR {
        pc := GettingError;
      } else {
        pc := ClientPc.Failed;
      }
    }

    /** One turn of the loop of iperf_create_streams. */
    method CreateOne(link: Link, ghost s: ServerTest, ghost strangers: nat)
      modifies this, link`pending
      ensures Snapshot(this, s, link, strangers) == CreateStream(old(Snapshot(this, s, link, strangers)))
    {
      var plan := cfg.Plan();
      if |streams| < |plan| {
        streams := AddStream(streams, plan[|streams|]);
        link.pending := link.pending + [Own];
      } else {
        pc := Loop;
      }
    }

    /** get_results, as far as identifiers go */
    method GetResults(link: Link, ghost s: ServerTest, ghost strangers: nat)
      requires !link.toClient.Empty()
      modifies this, link`toClient
      ensures Snapshot(this, s, link, strangers) == ReadResultsClient(old(Snapshot(this, s, link, strangers)))
    {
      var m := Receive(link);
      if m.ResultsJson? && AllFound(streams, m.ids) {
        pc := Loop;
      } else {
        pc := ClientPc.Failed;
      }
    }

    /** A turn of the loop of iperf_run_client in TEST_RUNNING. */
    method RunOnce(link: Link, omitFires: bool, timerFires: bool, goalMet: bool, ghost s: ServerTest,
                   ghost strangers: nat)
      modifies this, link`toServer
      ensures Snapshot(this, s, link, strangers)
           == RunClient(old(Snapshot(this, s, link, strangers)), omitFires, timerFires, goalMet)
    {
      if omitFires {
        omitting := false;
      }
      if timerFires {
        done := true;
      }
      if !omitting && (done || goalMet) {
        done := true;
        state := TEST_END;
        Send(link, State(TEST_END));
      } else if budget > 0 {
        budget := budget - 1;
      }
    }

    /** The client's next move, in whatever place it stands. */
    method Move(link: Link, omits: bool, ghost s: ServerTest, ghost strangers: nat)
      requires Enabled(Snapshot(this, s, link, strangers), ClientMoves(omits))
      modifies this, link
      ensures Snapshot(this, s, link, strangers) == ClientStep(old(Snapshot(this, s, link, strangers)), omits)
    {
      match pc
      case Connecting =>
        Send(link, Cookie);
        pc := Loop;
      case Loop => HandleMessage(link, omits, s, strangers);
      case SendingParams =>
        Send(link, ParamsJson(cfg.streams, cfg.reverse, cfg.bidirectional));
        pc := Loop;
      case CreatingStreams => CreateOne(link, s, strangers);
      case SendingResults =>
        Send(link, ResultsJson(Ids(streams)));
        pc := ClientPc.GettingResults;
      case GettingResults => GetResults(link, s, strangers);
      case Ending =>
        state := IPERF_DONE;
        Send(link, State(IPERF_DONE));
        pc := Exited;
      case GettingError =>
        var m := Receive(link);
        pc := ClientPc.Failed;
    }
  }

  class ServerTest {
    const tos: bool
    const refused: bool
    var pc: ServerPc
    var state: int
    var num_streams: nat
    var mode: Mode
    var streams_to_rec: nat
    var streams_to_send: nat
    var rec_streams_accepted: nat
    var send_streams_accepted: nat
    var streams: seq<Stream>

    constructor (tos: bool, refused: bool)
      ensures this.tos == tos && this.refused == refused
      ensures Value() == Server(Idle, IPERF_START, 0, RECEIVER, 0, 0, 0, 0, [])
    {
      this.tos, this.refused := tos, refused;
      pc, state, num_streams, mode, streams := Idle, IPERF_START, 0, RECEIVER, [];
      streams_to_rec, streams_to_send, rec_streams_accepted, send_streams_accepted := 0, 0, 0, 0;
    }

    function Value(): Server
      reads this
    {
      Server(pc, state, num_streams, mode, streams_to_rec, streams_to_send, rec_streams_accepted,
             send_streams_accepted, streams)
    }

    /** iperf_set_send_state */
    method SetSendState(link: Link, code: int)
      modifies this`state, link`toClient
      ensures state == code && link.toClient == old(link.toClient).Write(State(code))
    {
      state := code;
      link.toClient := link.toClient.Write(State(code));
    }

    method Receive(link: Link) returns (m: Msg)
      requires !link.toServer.Empty()
      modifies link`toServer
      ensures m == old(link.toServer).Head() && link.toServer == old(link.toServer).Read()
    {
      m := link.toServer.Head();
      link.toServer := link.toServer.Read();
    }

    /** Set streams number */
    method SetStreamsNumber()
      modifies this`streams_to_rec, this`streams_to_send
      ensures streams_to_rec == StreamsToReceive(mode, num_streams)
      ensures streams_to_send == StreamsToSend(mode, num_streams)
    {
      if mode == BIDIRECTIONAL {
        streams_to_send := num_streams;
        streams_to_rec := num_streams;
      } else if mode == RECEIVER {
        streams_to_rec := num_streams;
        streams_to_send := 0;
      } else {
        streams_to_send := num_streams;
        streams_to_rec := 0;
      }
    }

    /** A connection at the listener: a stream while streams are created, otherwise denied by iperf_accept. */
    method AcceptOne(link: Link, ghost c: ClientTest, ghost strangers: nat)
      requires link.pending != [] && tos == c.cfg.tos
      modifies this, link`pending
      ensures Snapshot(c, this, link, strangers) == AcceptConnection(old(Snapshot(c, this, link, strangers)))
    {
      var conn := link.pending[0];
      link.pending := link.pending[1..];
      if state != CREATE_STREAMS {
        return;
      }
      if conn == Stranger {
        if tos {
          pc := ServerPc.Failed;
        }
        return;
      }
      var sender;
      if rec_streams_accepted != streams_to_rec {
        sender := false;
        rec_streams_accepted := rec_streams_accepted + 1;
      } else if send_streams_accepted != streams_to_send {
        sender := true;
        send_streams_accepted := send_streams_accepted + 1;
      } else {
        return;
      }
      streams := AddStream(streams, sender);
    }

    /** iperf_handle_message_server */
    method HandleMessage(link: Link, ghost c: ClientTest, ghost strangers: nat)
      requires !link.toServer.Empty()
      modifies this, link`toServer
      ensures Snapshot(c, this, link, strangers) == HandleMessageServer(old(Snapshot(c, this, link, strangers)))
    {
      var m := Receive(link);
      if !m.State? {
        pc := ServerPc.Failed;
        return;
      }
      state := m.code;
      if state == TEST_START || state == IPERF_DONE {
      } else if state == TEST_END {
        pc := SendingExchange;
      } else if state == CLIENT_TERMINATE {
        state := IPERF_DONE;
      } else {
        pc := ServerPc.Failed;
      }
    }

    /** iperf_exchange_parameters, as far as streams, directions and refusal go */
    method GetParameters(link: Link, ghost c: ClientTest, ghost strangers: nat)
      requires !link.toServer.Empty() && refused == c.cfg.refused
      modifies this, link`toServer
      ensures Snapshot(c, this, link, strangers) == GetParams(old(Snapshot(c, this, link, strangers)))
    {
      var m := Receive(link);
      if m.ParamsJson? && !refused {
        num_streams, mode := m.streams, ServerMode(m.reverse, m.bidirectional);
        pc := SendingCreateStreams;
      } else {
        pc := SendingError;
      }
    }

    /** The server's next move, in whatever place it stands. */
    method Move(link: Link, ghost c: ClientTest, ghost strangers: nat)
      requires Enabled(Snapshot(c, this, link, strangers), ServerMoves) && refused == c.cfg.refused
      modifies this, link
      ensures Snapshot(c, this, link, strangers) == ServerStep(old(Snapshot(c, this, link, strangers)))
    {
      match pc
      case Idle =>
        var m := Receive(link);
        pc := if m.Cookie? then SendingParamExchange else ServerPc.Failed;
      case SendingParamExchange =>
        SetSendState(link, PARAM_EXCHANGE);
        pc := GettingParams;
      case GettingParams => GetParameters(link, c, strangers);
      case SendingCreateStreams =>
        SetSendState(link, CREATE_STREAMS);
        SetStreamsNumber();
        pc := Serving;
      case Serving => HandleMessage(link, c, strangers);
      case SendingRunning =>
        SetSendState(link, TEST_RUNNING);
        pc := Serving;
      case SendingExchange =>
        SetSendState(link, EXCHANGE_RESULTS);
        pc := ServerPc.GettingResults;
      case GettingResults =>
        var m := Receive(link);
        pc := if m.ResultsJson? && AllFound(streams, m.ids) then ServerPc.SendingResults else ServerPc.Failed;
      case SendingResults =>
        link.toClient := link.toClient.Write(ResultsJson(Ids(streams)));
        pc := SendingDisplay;
      case SendingDisplay =>
        SetSendState(link, DISPLAY_RESULTS);
        pc := Serving;
      case SendingError =>
        SetSendState(link, SERVER_ERROR);
        link.toClient := link.toClient.Write(ErrorCodes);
        pc := ServerPc.Failed;
    }
  }

  /** The world that two tests and their link amount to. */
  function Snapshot(c: ClientTest, s: ServerTest, link: Link, strangers: nat): World
    reads c, s, link
  {
    World(c.cfg, c.Value(), s.Value(), link.toServer, link.toClient, link.pending, c.budget, strangers)
  }

  /** A client, a server and their link, with other people's connections still to come. */
  class Session {
    const c: ClientTest
    const s: ServerTest
    const link: Link
    var strangers: nat

    constructor (cfg: Config, budget: nat, strangers: nat)
      ensures fresh({c, s, link}) && Agrees() && World() == Init(cfg, budget, strangers)
    {
      c := new ClientTest(cfg, budget);
      s := new ServerTest(cfg.tos, cfg.refused);
      link := new Link();
      this.strangers := strangers;
    }

    ghost predicate Agrees() {
      s.tos == c.cfg.tos && s.refused == c.cfg.refused
    }

    function World(): World
      reads this, c, s, link
    {
      Snapshot(c, s, link, strangers)
    }

    /** One move of one side, or one more connection of a stranger's. */
    method Step(a: Action)
      requires Agrees() && Enabled(World(), a)
      modifies this, c, s, link
      ensures World() == Act(old(World()), a)
      ensures old(Inv(World())) ==> Inv(World())
    {
      if Inv(World()) {
        ActKeepsInv(World(), a);
      }
      match a
      case ClientMoves(omits) => c.Move(link, omits, s, strangers);
      case ClientRuns(omitFires, timerFires, goalMet) => c.RunOnce(link, omitFires, timerFires, goalMet, s, strangers);
      case ServerMoves => s.Move(link, c, strangers);
      case ServerStarts =>
        s.SetSendState(link, TEST_START);
        s.pc := SendingRunning;
      case ServerAccepts => s.AcceptOne(link, c, strangers);
      case StrangerArrives =>
        link.pending := link.pending + [Stranger];
        strangers := strangers - 1;
    }

    /** Whatever is scheduled and possible happens, in that order; `taken` tells what did. */
    method Play(schedule: seq<Action>) returns (ghost taken: seq<Action>)
      requires Agrees() && Inv(World())
      modifies this, c, s, link
      ensures IsRun(old(World()), taken) && World() == After(old(World()), taken)
      ensures Inv(World()) && c.pc != ClientPc.Failed && s.pc != ServerPc.Failed
      ensures Stuck(World()) ==> Finished(World())
    {
      ghost var start := World();
      taken := [];
      var i := 0;
      while i < |schedule|
        invariant i <= |schedule| && IsRun(start, taken) && World() == After(start, taken) && Inv(World())
      {
        var a := schedule[i];
        if Enabled(World(), a) {
          OneMoreAction(start, taken, a);
          Step(a);
          taken := taken + [a];
        }
        i := i + 1;
      }
      MeasureIsNatural(World());
      StuckIsFinished(World());
    }
  }

  lemma {:induction false} OneMoreAction(w: World, actions: seq<Action>, a: Action)
    requires IsRun(w, actions) && Enabled(After(w, actions), a)
    ensures IsRun(w, actions + [a]) && After(w, actions + [a]) == Act(After(w, actions), a)
    decreases |actions|
  {
    if actions == [] {
      assert actions + [a] == [a];
      Before(w, a, []);
    } else {
      OneMoreAction(Act(w, actions[0]), actions[1..], a);
      Before(w, actions[0], actions[1..] + [a]);
      assert [actions[0]] + (actions[1..] + [a]) == actions + [a];
    }
  }
}
