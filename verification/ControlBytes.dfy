/** The control connection as one stream of bytes in each direction: cookie, states, JSON frames and error codes. */
module ControlBytes {
  import opened Bytes
  import opened JsonTree
  import opened JsonGrammar
  import opened JsonRoundTrip
  import opened Wrappers
  import opened Widths
  import opened Wire
  import opened Streams
  import opened Control
  import opened ControlProofs
  import opened ControlRuns
  import opened ParamRuns
  import P = Params

  const COOKIE_SIZE := 37

  /** uint32_t */
  type Word = n: nat | n < TWO_32

  /** What one side puts into its messages: its cookie, the object behind each JSON message, and two error numbers. */
  datatype Contents = Contents(cookie: Text, payload: Msg -> Json, error: Word, errno: Word)

  /** A signed char, as the byte that it is. */
  function StateByte(code: int): byte {
    (code % 0x100) as byte
  }

  function StateOf(b: byte): int {
    if b < 0x80 then b as int else b as int - 0x100
  }

  function MsgBytes(m: Msg, c: Contents): Text {
    match m
    case Cookie => c.cookie
    case State(code) => [StateByte(code)]
    case ErrorCodes => TwoWords(c.error, c.errno)
    case _ => Frame(c.payload(m))
  }

  function TwoWords(a: Word, b: Word): Text {
    BigEndian(a) + BigEndian(b)
  }

  // ---- Reading

  /** What a process asks the connection for. */
  datatype Kind = ACookie | AState | AFrame(max: nat) | SomeCodes

  datatype Item =
    | CookieItem(cookie: Text) | StateItem(code: int) | TreeItem(j: Json) | CodesItem(error: nat, errno: nat)

  /** What a read makes of the bytes that are there, and what it leaves; None where it waits or fails. */
  function Take(kind: Kind, input: Text, strtod: Strtod): Option<(Item, Text)> {
    match kind
    case ACookie =>
      if |input| < COOKIE_SIZE then None else Some((CookieItem(input[..COOKIE_SIZE]), input[COOKIE_SIZE..]))
    case AState => if input == [] then None else Some((StateItem(StateOf(input[0])), input[1..]))
    case AFrame(max) =>
      var r := ReadFrame(input, max, strtod);
      if r.json.None? then None else Some((TreeItem(r.json.value), r.rest))
    case SomeCodes =>
      if |input| < 8 then None
      else Some((CodesItem(FromBigEndian(input[..4]), FromBigEndian(input[4..8])), input[8..]))
  }

  /** What the writer meant by a message. */
  function Meant(m: Msg, c: Contents): Item {
    match m
    case Cookie => CookieItem(c.cookie)
    case State(code) => StateItem(code)
    case ErrorCodes => CodesItem(c.error, c.errno)
    case _ => TreeItem(c.payload(m))
  }

  /** The message is of the kind that is asked for. */
  ghost predicate Answers(m: Msg, c: Contents, kind: Kind) {
    match kind
    case ACookie => m.Cookie? && |c.cookie| == COOKIE_SIZE
    case AState => m.State? && -0x80 <= m.code < 0x80
    case AFrame(max) =>
      && (m.ParamsJson? || m.ResultsJson?) && Sendable(c.payload(m))
      && (max == 0 || |Render(c.payload(m), false, 0)| <= max)
    case SomeCodes => m.ErrorCodes?
  }

  lemma CookieTaken(t: Text, rest: Text, input: Text, strtod: Strtod, r: Option<(Item, Text)>)
    requires |t| == COOKIE_SIZE && input == t + rest && r == Take(ACookie, input, strtod)
    ensures r == Some((CookieItem(t), rest))
  {
    assert input[..COOKIE_SIZE] == t && input[COOKIE_SIZE..] == rest;
  }

  lemma StateTaken(code: int, rest: Text, input: Text, strtod: Strtod, r: Option<(Item, Text)>)
    requires -0x80 <= code < 0x80 && input == [StateByte(code)] + rest && r == Take(AState, input, strtod)
    ensures r == Some((StateItem(code), rest))
  {
    assert input[1..] == rest;
  }

  lemma FrameTaken(j: Json, max: nat, rest: Text, input: Text, strtod: Strtod, r: Option<(Item, Text)>)
    requires ReadsIntegers(strtod) && Sendable(j) && (max == 0 || |Render(j, false, 0)| <= max)
    requires input == Frame(j) + rest && r == Take(AFrame(max), input, strtod)
    ensures r == Some((TreeItem(j), rest))
  {
    FrameRoundTrip(j, rest, max, strtod);
  }

  lemma CodesTaken(error: Word, errno: Word, rest: Text, input: Text, strtod: Strtod, r: Option<(Item, Text)>)
    requires input == TwoWords(error, errno) + rest && r == Take(SomeCodes, input, strtod)
    ensures r == Some((CodesItem(error, errno), rest))
  {
    assert input[..4] == BigEndian(error) && input[4..8] == BigEndian(errno) && input[8..] == rest;
  }

  /** Whatever follows, a read of the right kind takes one message, all of it, and nothing more. */
  lemma TakesWhole(m: Msg, c: Contents, kind: Kind, rest: Text, input: Text, strtod: Strtod, r: Option<(Item, Text)>)
    requires ReadsIntegers(strtod) && Answers(m, c, kind)
    requires input == MsgBytes(m, c) + rest && r == Take(kind, input, strtod)
    ensures r == Some((Meant(m, c), rest))
  {
    match kind
    case ACookie => CookieTaken(c.cookie, rest, input, strtod, r);
    case AState => StateTaken(m.code, rest, input, strtod, r);
    case AFrame(max) => FrameTaken(c.payload(m), max, rest, input, strtod, r);
    case SomeCodes => CodesTaken(c.error, c.errno, rest, input, strtod, r);
  }

  // ---- The bytes of a channel

  function AllBytes(ms: seq<Msg>, c: Contents): Text {
    if ms == [] then [] else MsgBytes(ms[0], c) + AllBytes(ms[1..], c)
  }

  /** What was written and not yet read. */
  function Unread(ch: Channel, c: Contents): Text
    requires ch.read <= |ch.written|
  {
    AllBytes(ch.written[ch.read..], c)
  }

  lemma {:induction false} AllBytesAppend(ms: seq<Msg>, m: Msg, c: Contents)
    ensures AllBytes(ms + [m], c) == AllBytes(ms, c) + MsgBytes(m, c)
  {
    if ms == [] {
      assert ms + [m] == [m] && [m][1..] == [];
    } else {
      assert (ms + [m])[1..] == ms[1..] + [m];
      AllBytesAppend(ms[1..], m, c);
    }
  }

  /** Writing a message puts its bytes behind the others. */
  lemma WriteAppends(ch: Channel, m: Msg, c: Contents)
    requires ch.read <= |ch.written|
    ensures Unread(ch.Write(m), c) == Unread(ch, c) + MsgBytes(m, c)
  {
    assert (ch.written + [m])[ch.read..] == ch.written[ch.read..] + [m];
    AllBytesAppend(ch.written[ch.read..], m, c);
  }

  /** Reading a message of the right kind moves from its bytes to those of the next one. */
  lemma ReadTakes(ch: Channel, c: Contents, kind: Kind, strtod: Strtod)
    requires ch.read < |ch.written| && ReadsIntegers(strtod) && Answers(ch.Head(), c, kind)
    ensures Take(kind, Unread(ch, c), strtod) == Some((Meant(ch.Head(), c), Unread(ch.Read(), c)))
  {
    assert ch.written[ch.read..][1..] == ch.written[ch.read + 1..];
    var input := Unread(ch, c);
    TakesWhole(ch.Head(), c, kind, Unread(ch.Read(), c), input, strtod, Take(kind, input, strtod));
  }

  // ---- What the processes ask for

  function ClientAsks(pc: ClientPc): Option<Kind> {
    match pc
    case Loop => Some(AState)
    case GettingResults => Some(AFrame(0))
    case GettingError => Some(SomeCodes)
    case _ => None
  }

  function ServerAsks(pc: ServerPc): Option<Kind> {
    match pc
    case Idle => Some(ACookie)
    case GettingParams => Some(AFrame(P.MAX_PARAMS_JSON_STRING))
    case Serving => Some(AState)
    case GettingResults => Some(AFrame(0))
    case _ => None
  }

  /** A cookie of the right size, and results that can be sent. */
  ghost predicate Proper(c: Contents) {
    |c.cookie| == 37 && forall m: Msg :: m.ResultsJson? ==> Sendable(c.payload(m))
  }

  /** The client's parameters stand behind its parameters message. */
  ghost predicate Carries(c: Contents, params: P.Params) {
    forall m: Msg :: m.ParamsJson? ==> c.payload(m) == P.ParametersJson(params)
  }

  /** Each state byte, result and error code that the client reads is exactly the next message of the server's. */
  lemma ClientTakesNext(w: World, omits: bool, c: Contents, strtod: Strtod)
    requires Inv(w) || RefusedInv(w)
    requires Enabled(w, ClientMoves(omits)) && ClientAsks(w.client.pc).Some? && Proper(c) && ReadsIntegers(strtod)
    ensures !w.toClient.Empty() && ClientStep(w, omits).toClient == w.toClient.Read()
    ensures Take(ClientAsks(w.client.pc).value, Unread(w.toClient, c), strtod)
         == Some((Meant(w.toClient.Head(), c), Unread(w.toClient.Read(), c)))
  {
    if Inv(w) {
      assert w.toClient.Head() == ServerScript(w.cfg)[w.toClient.read];
    } else {
      assert w.toClient.Head() == REFUSAL[w.toClient.read];
    }
    ReadTakes(w.toClient, c, ClientAsks(w.client.pc).value, strtod);
  }

  /** The parameters that the server takes fit into what it reads. */
  lemma ParamsFit(params: P.Params, j: Json)
    requires P.Fits(params) && j == P.ParametersJson(params)
    requires |Render(j, false, 0)| <= P.MAX_PARAMS_JSON_STRING
    ensures Sendable(j)
  {
    P.ParametersAreExact(params);
  }

  /** Cookie, parameters, state bytes and results that the server reads are exactly the next message of the client's. */
  lemma ServerTakesNext(w: World, c: Contents, params: P.Params, diskfile: bool, max_server_duration: int,
                        strtod: Strtod)
    requires Inv(w) && Enabled(w, ServerMoves) && ServerAsks(w.server.pc).Some? && ReadsIntegers(strtod)
    requires Proper(c) && Carries(c, params) && P.Fits(params)
    requires params.shape.num_streams >= 0 && w.cfg == ConfigOf(params, diskfile, max_server_duration)
    ensures !w.toServer.Empty() && ServerStep(w).toServer == w.toServer.Read()
    ensures Take(ServerAsks(w.server.pc).value, Unread(w.toServer, c), strtod)
         == Some((Meant(w.toServer.Head(), c), Unread(w.toServer.Read(), c)))
  {
    var m := w.toServer.Head();
    assert m == ClientScript(w.cfg)[w.toServer.read];
    if m.ParamsJson? {
      ParamsFit(params, c.payload(m));
    }
    ReadTakes(w.toServer, c, ServerAsks(w.server.pc).value, strtod);
  }

  // ---- Whole runs

  /** What a finished test has put on the connection, byte by byte. */
  lemma BytesOfFinished(w: World, client: Contents, server: Contents)
    requires Inv(w) && Finished(w)
    ensures AllBytes(w.toClient.written, server)
         == [0x09, 0x0A, 0x01, 0x02, 0x0D] + Frame(server.payload(ResultsJson(Ids(w.server.streams)))) + [0x0E]
    ensures var params := ParamsJson(w.cfg.streams, w.cfg.reverse, w.cfg.bidirectional);
      AllBytes(w.toServer.written, client)
      == client.cookie + Frame(client.payload(params)) + [0x04]
         + Frame(client.payload(ResultsJson(Ids(w.client.streams)))) + [0x10]
  {
    AllStreams(w.cfg.Plan(), w.client.streams);
    AllStreams(Opposite(w.cfg.Plan()), w.server.streams);
    var c, s := w.toServer.written, w.toClient.written;
    AllBytesOfFive(c[0], c[1], c[2], c[3], c[4], client, c);
    AllBytesOfFive(s[0], s[1], s[2], s[3], s[4], server, s[..5]);
    OneMore(s[..5], s[5], server, s[..6]);
    OneMore(s[..6], s[6], server, s);
  }

  /** What a server that refuses the parameters has put on the connection. */
  lemma BytesOfRefused(w: World, server: Contents)
    requires w.toClient.written == REFUSAL
    ensures AllBytes(w.toClient.written, server) == [0x09, 0xFE] + TwoWords(server.error, server.errno)
  {
    OneMessage(State(9), server);
    OneMore([State(9)], State(-2), server, [State(9), State(-2)]);
    OneMore([State(9), State(-2)], ErrorCodes, server, REFUSAL);
  }

  lemma OneMessage(m: Msg, c: Contents)
    ensures AllBytes([m], c) == MsgBytes(m, c)
  {
    assert [m][1..] == [] && MsgBytes(m, c) + [] == MsgBytes(m, c);
  }

  lemma OneMore(ms: seq<Msg>, m: Msg, c: Contents, all: seq<Msg>)
    requires all == ms + [m]
    ensures AllBytes(all, c) == AllBytes(ms, c) + MsgBytes(m, c)
  {
    AllBytesAppend(ms, m, c);
  }

  lemma AllBytesOfFive(a: Msg, b: Msg, d: Msg, e: Msg, f: Msg, c: Contents, ms: seq<Msg>)
    requires ms == [a, b, d, e, f]
    ensures AllBytes(ms, c)
         == MsgBytes(a, c) + MsgBytes(b, c) + MsgBytes(d, c) + MsgBytes(e, c) + MsgBytes(f, c)
  {
    OneMessage(a, c);
    OneMore([a], b, c, [a, b]);
    OneMore([a, b], d, c, [a, b, d]);
    OneMore([a, b, d], e, c, [a, b, d, e]);
    OneMore([a, b, d, e], f, c, ms);
  }

  lemma ActKeepsCfg(w: World, a: Action)
    requires Enabled(w, a)
    ensures Act(w, a).cfg == w.cfg
  {
  }

  lemma {:induction false} RunKeepsCfg(w: World, actions: seq<Action>)
    requires IsRun(w, actions)
    ensures After(w, actions).cfg == w.cfg
    decreases |actions|
  {
    if actions != [] {
      ActKeepsCfg(w, actions[0]);
      RunKeepsCfg(Act(w, actions[0]), actions[1..]);
    }
  }

  /** Both sides' next reads, if they are about to read, take exactly one message each. */
  ghost predicate InStep(w: World, client: Contents, server: Contents, strtod: Strtod) {
    && w.toClient.Valid() && w.toServer.Valid()
    && (Enabled(w, ClientMoves(false)) && ClientAsks(w.client.pc).Some? ==>
          && !w.toClient.Empty()
          && Take(ClientAsks(w.client.pc).value, Unread(w.toClient, server), strtod)
             == Some((Meant(w.toClient.Head(), server), Unread(w.toClient.Read(), server))))
    && (Enabled(w, ServerMoves) && ServerAsks(w.server.pc).Some? ==>
          && !w.toServer.Empty()
          && Take(ServerAsks(w.server.pc).value, Unread(w.toServer, client), strtod)
             == Some((Meant(w.toServer.Head(), client), Unread(w.toServer.Read(), client))))
  }

  /** In every run, under every schedule, the two processes never lose their place in the two streams of bytes. */
  lemma BytesStayInStep(client: Contents, server: Contents, params: P.Params, diskfile: bool,
                        max_server_duration: int, budget: nat, strangers: nat, actions: seq<Action>, strtod: Strtod)
    requires Proper(client) && Proper(server) && Carries(client, params) && P.Fits(params) && ReadsIntegers(strtod)
    requires params.shape.num_streams >= 0
    requires var cfg := ConfigOf(params, diskfile, max_server_duration);
      && cfg.Valid() && NoneCanHarm(cfg, [], strangers) && IsRun(Init(cfg, budget, strangers), actions)
    ensures var cfg := ConfigOf(params, diskfile, max_server_duration);
      InStep(After(Init(cfg, budget, strangers), actions), client, server, strtod)
  {
    var start := Init(ConfigOf(params, diskfile, max_server_duration), budget, strangers);
    var w := After(start, actions);
    InitInv(start.cfg, budget, strangers);
    RunKeepsInv(start, actions);
    RunKeepsCfg(start, actions);
    if Enabled(w, ClientMoves(false)) && ClientAsks(w.client.pc).Some? {
      ClientTakesNext(w, false, server, strtod);
    }
    if Enabled(w, ServerMoves) && ServerAsks(w.server.pc).Some? {
      ServerTakesNext(w, client, params, diskfile, max_server_duration, strtod);
    }
  }
}
