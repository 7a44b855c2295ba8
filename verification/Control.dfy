/** The control protocol: two processes, two reliable first-in-first-out channels, and data connections. */
module Control {
  import opened Streams

  // States that travel as one byte, and the ones that only stand in a process.
  const SERVER_ERROR := -2
  const TEST_START := 1
  const TEST_RUNNING := 2
  const TEST_END := 4
  const PARAM_EXCHANGE := 9
  const CREATE_STREAMS := 10
  const CLIENT_TERMINATE := 12
  const EXCHANGE_RESULTS := 13
  const DISPLAY_RESULTS := 14
  const IPERF_START := 15
  const IPERF_DONE := 16

  datatype Msg =
    | Cookie
    | State(code: int)
    | ParamsJson(streams: nat, reverse: bool, bidirectional: bool)
    | ResultsJson(ids: seq<nat>)
    | ErrorCodes

  /** Everything that was ever written, and how much of it the other side has read. */
  datatype Channel = Channel(written: seq<Msg>, read: nat) {
    ghost predicate Valid() {
      read <= |written|
    }

    predicate Empty() {
      read >= |written|
    }

    function Head(): Msg
      requires !Empty()
    {
      written[read]
    }

    function Read(): Channel {
      Channel(written, read + 1)
    }

    function Write(m: Msg): Channel {
      Channel(written + [m], read)
    }
  }

  /**
   * What the user asked the client for; `tos` tells of a TOS value that the server sets on what its accept function
   * for TCP or SCTP returns, and `refused` that get_parameters fails at this server.
   */
  datatype Config = Config(streams: nat, reverse: bool, bidirectional: bool, tos: bool, refused: bool) {
    ghost predicate Valid() {
      !(reverse && bidirectional)
    }

    function Mode(): Mode {
      ClientMode(reverse, bidirectional)
    }

    function Plan(): seq<bool> {
      ClientPlan(Mode(), streams)
    }
  }

  /** Where a process stands between two operations that may block. */
  datatype ClientPc =
    | Connecting | Loop | SendingParams | CreatingStreams | SendingResults | GettingResults | Ending | Exited
    | GettingError | Failed

  datatype ServerPc =
    | Idle | SendingParamExchange | GettingParams | SendingCreateStreams | Serving | SendingRunning
    | SendingExchange | GettingResults | SendingResults | SendingDisplay | SendingError | Failed

  datatype Client = Client(pc: ClientPc, state: int, done: bool, omitting: bool, streams: seq<Stream>)

  datatype Server = Server(
    pc: ServerPc, state: int, num_streams: nat, mode: Mode,
    streams_to_rec: nat, streams_to_send: nat, rec_streams_accepted: nat, send_streams_accepted: nat,
    streams: seq<Stream>)

  /** A connection that waits at the listener: one of the client's, with its cookie, or anybody else's. */
  datatype Conn = Own | Stranger

  /** `budget` bounds how often the client may still look at its timers before both have fired. */
  datatype World = World(
    cfg: Config, client: Client, server: Server, toServer: Channel, toClient: Channel,
    pending: seq<Conn>, budget: nat, strangers: nat)

  function Init(cfg: Config, budget: nat, strangers: nat): World {
    World(cfg,
          Client(Connecting, 0, false, false, []),
          Server(Idle, IPERF_START, 0, RECEIVER, 0, 0, 0, 0, []),
          Channel([], 0), Channel([], 0), [], budget, strangers)
  }

  // ---- The client

  function ClientSend(w: World, m: Msg, pc: ClientPc): World {
    w.(toServer := w.toServer.Write(m), client := w.client.(pc := pc))
  }

  /** iperf_handle_message_client up to the first operation that may block; `omits` tells of an omit period. */
  function HandleMessageClient(w: World, omits: bool): World
    requires !w.toClient.Empty()
  {
    var m := w.toClient.Head();
    var v := w.(toClient := w.toClient.Read());
    if !m.State? then v.(client := v.client.(pc := ClientPc.Failed))
    else
      var c := v.client.(state := m.code);
      v.(client :=
           if m.code == PARAM_EXCHANGE then c.(pc := SendingParams)
           else if m.code == CREATE_STREAMS then c.(pc := CreatingStreams)
           else if m.code == TEST_START then c.(done := false, omitting := omits)
           else if m.code == TEST_RUNNING then c
           else if m.code == EXCHANGE_RESULTS then c.(pc := ClientPc.SendingResults)
           else if m.code == DISPLAY_RESULTS then c.(pc := Ending)
           else if m.code == IPERF_DONE then c.(pc := Exited)
           else if m.code == SERVER_ERROR then c.(pc := GettingError)
           else c.(pc := ClientPc.Failed))
  }

  /** One more connection of iperf_create_streams, or its end. */
  function CreateStream(w: World): World {
    var plan := w.cfg.Plan();
    if |w.client.streams| < |plan| then
      w.(client := w.client.(streams := AddStream(w.client.streams, plan[|w.client.streams|])),
         pending := w.pending + [Own])
    else w.(client := w.client.(pc := Loop))
  }

  function ReadResultsClient(w: World): World
    requires !w.toClient.Empty()
  {
    var m := w.toClient.Head();
    var ok := m.ResultsJson? && AllFound(w.client.streams, m.ids);
    w.(toClient := w.toClient.Read(), client := w.client.(pc := if ok then Loop else ClientPc.Failed))
  }

  /** A turn of the client's loop in TEST_RUNNING: timers fire or not, byte and block goals are met or not. */
  function RunClient(w: World, omitFires: bool, timerFires: bool, goalMet: bool): World {
    var c := w.client.(omitting := w.client.omitting && !omitFires, done := w.client.done || timerFires);
    if !c.omitting && (c.done || goalMet) then
      w.(client := c.(done := true, state := TEST_END), toServer := w.toServer.Write(State(TEST_END)))
    else w.(client := c, budget := if w.budget > 0 then w.budget - 1 else 0)
  }

  // ---- The server

  function ServerFails(w: World): World {
    w.(server := w.server.(pc := ServerPc.Failed))
  }

  /** iperf_set_send_state */
  function ServerSendState(w: World, code: int, pc: ServerPc): World {
    w.(server := w.server.(state := code, pc := pc), toClient := w.toClient.Write(State(code)))
  }

  function AcceptCookie(w: World): World
    requires !w.toServer.Empty()
  {
    var v := w.(toServer := w.toServer.Read());
    if w.toServer.Head().Cookie? then v.(server := v.server.(pc := SendingParamExchange)) else ServerFails(v)
  }

  /** get_parameters, as far as streams and directions go */
  function GetParams(w: World): World
    requires !w.toServer.Empty()
  {
    var m := w.toServer.Head();
    var v := w.(toServer := w.toServer.Read());
    v.(server :=
         if m.ParamsJson? && !w.cfg.refused then
           v.server.(num_streams := m.streams, mode := ServerMode(m.reverse, m.bidirectional),
                     pc := SendingCreateStreams)
         else v.server.(pc := SendingError))
  }

  /** iperf_exchange_parameters, when it cannot take the parameters: SERVER_ERROR, two numbers, and failure. */
  function SendError(w: World): World {
    var v := ServerSendState(w, SERVER_ERROR, ServerPc.Failed);
    v.(toClient := v.toClient.Write(ErrorCodes))
  }

  function SendCreateStreams(w: World): World {
    var v := ServerSendState(w, CREATE_STREAMS, Serving);
    v.(server := v.server.(streams_to_rec := StreamsToReceive(v.server.mode, v.server.num_streams),
                           streams_to_send := StreamsToSend(v.server.mode, v.server.num_streams)))
  }

  predicate AllAccepted(s: Server) {
    s.rec_streams_accepted == s.streams_to_rec && s.send_streams_accepted == s.streams_to_send
  }

  /** What the listener's becoming readable leads to. */
  function AcceptConnection(w: World): World
    requires w.pending != []
  {
    var v := w.(pending := w.pending[1..]);
    var s := v.server;
    if s.state != CREATE_STREAMS then v
    else if w.pending[0] == Stranger then
      if w.cfg.tos then ServerFails(v) else v
    else if s.rec_streams_accepted != s.streams_to_rec then
      v.(server := s.(rec_streams_accepted := s.rec_streams_accepted + 1, streams := AddStream(s.streams, false)))
    else if s.send_streams_accepted != s.streams_to_send then
      v.(server := s.(send_streams_accepted := s.send_streams_accepted + 1, streams := AddStream(s.streams, true)))
    else v
  }

  /** iperf_handle_message_server up to the first operation that may block */
  function HandleMessageServer(w: World): World
    requires !w.toServer.Empty()
  {
    var m := w.toServer.Head();
    var v := w.(toServer := w.toServer.Read());
    if !m.State? then ServerFails(v)
    else
      var s := v.server.(state := m.code);
      v.(server :=
           if m.code == TEST_START || m.code == IPERF_DONE then s
           else if m.code == TEST_END then s.(pc := SendingExchange)
           else if m.code == CLIENT_TERMINATE then s.(state := IPERF_DONE)
           else s.(pc := ServerPc.Failed))
  }

  function ReadResultsServer(w: World): World
    requires !w.toServer.Empty()
  {
    var m := w.toServer.Head();
    var ok := m.ResultsJson? && AllFound(w.server.streams, m.ids);
    w.(toServer := w.toServer.Read(),
       server := w.server.(pc := if ok then ServerPc.SendingResults else ServerPc.Failed))
  }

  // ---- Actions: who moves next, and what the environment does in that move

  datatype Action =
    | ClientMoves(omits: bool)
    | ClientRuns(omitFires: bool, timerFires: bool, goalMet: bool)
    | ServerMoves
    | ServerStarts
    | ServerAccepts
    | StrangerArrives

  /** The server tests this as soon as it has accepted a connection, before it waits for anything else. */
  predicate ServerReady(w: World) {
    w.server.pc == Serving && w.server.state == CREATE_STREAMS && AllAccepted(w.server)
  }

  predicate Enabled(w: World, a: Action) {
    match a
    case ClientMoves(_) =>
      (match w.client.pc
       case Loop => w.client.state != IPERF_DONE && !w.toClient.Empty()
       case GettingResults => !w.toClient.Empty()
       case GettingError => !w.toClient.Empty()
       case Exited => false
       case Failed => false
       case _ => true)
    case ClientRuns(omitFires, timerFires, _) =>
      w.client.pc == Loop && w.client.state == TEST_RUNNING && (w.budget == 0 ==> omitFires && timerFires)
    case ServerMoves =>
      (match w.server.pc
       case Idle => !w.toServer.Empty()
       case GettingParams => !w.toServer.Empty()
       case Serving => w.server.state != IPERF_DONE && !ServerReady(w) && !w.toServer.Empty()
       case GettingResults => !w.toServer.Empty()
       case Failed => false
       case _ => true)
    case ServerStarts => ServerReady(w)
    case ServerAccepts =>
      w.server.pc == Serving && w.server.state != IPERF_DONE && !ServerReady(w) && w.pending != []
    case StrangerArrives => w.server.pc != Idle && w.strangers > 0
  }

  function ClientStep(w: World, omits: bool): World
    requires Enabled(w, ClientMoves(omits))
  {
    match w.client.pc
    case Connecting => ClientSend(w, Cookie, Loop)
    case Loop => HandleMessageClient(w, omits)
    case SendingParams => ClientSend(w, ParamsJson(w.cfg.streams, w.cfg.reverse, w.cfg.bidirectional), Loop)
    case CreatingStreams => CreateStream(w)
    case SendingResults => ClientSend(w, ResultsJson(Ids(w.client.streams)), ClientPc.GettingResults)
    case GettingResults => ReadResultsClient(w)
    case Ending => ClientSend(w.(client := w.client.(state := IPERF_DONE)), State(IPERF_DONE), Exited)
    case GettingError => w.(toClient := w.toClient.Read(), client := w.client.(pc := ClientPc.Failed))
    case _ => w
  }

  function ServerStep(w: World): World
    requires Enabled(w, ServerMoves)
  {
    match w.server.pc
    case Idle => AcceptCookie(w)
    case SendingParamExchange => ServerSendState(w, PARAM_EXCHANGE, GettingParams)
    case GettingParams => GetParams(w)
    case SendingCreateStreams => SendCreateStreams(w)
    case Serving => HandleMessageServer(w)
    case SendingRunning => ServerSendState(w, TEST_RUNNING, Serving)
    case SendingExchange => ServerSendState(w, EXCHANGE_RESULTS, ServerPc.GettingResults)
    case GettingResults => ReadResultsServer(w)
    case SendingResults =>
      w.(toClient := w.toClient.Write(ResultsJson(Ids(w.server.streams))), server := w.server.(pc := SendingDisplay))
    case SendingDisplay => ServerSendState(w, DISPLAY_RESULTS, Serving)
    case SendingError => SendError(w)
    case _ => w
  }

  function Act(w: World, a: Action): World
    requires Enabled(w, a)
  {
    match a
    case ClientMoves(omits) => ClientStep(w, omits)
    case ClientRuns(omitFires, timerFires, goalMet) => RunClient(w, omitFires, timerFires, goalMet)
    case ServerMoves => ServerStep(w)
    case ServerStarts => ServerSendState(w, TEST_START, SendingRunning)
    case ServerAccepts => AcceptConnection(w)
    case StrangerArrives => w.(pending := w.pending + [Stranger], strangers := w.strangers - 1)
  }
}
