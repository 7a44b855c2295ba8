/** Runs of the control protocol for the parameters that a client has and the bytes that it sends. */
module ParamRuns {
  import opened Bytes
  import opened JsonTree
  import opened JsonGrammar
  import opened JsonRoundTrip
  import opened Wrappers
  import opened Wire
  import opened Streams
  import opened Control
  import opened ControlRuns
  import P = Params
  import opened Widths

  /**
   * The accept functions of TCP and SCTP close the socket of a stranger and return it, and the TOS value is set on what
   * they return. UDP takes its streams from another socket, and for QUIC no option is set.
   */
  predicate FailsOnStrangers(p: P.Params) {
    p.rates.tos != 0 && (p.protocol == P.TCP || p.protocol == P.SCTP)
  }

  /** What the protocol needs to know of a client's parameters, and of a server with this cap and maybe a disk file. */
  function ConfigOf(c: P.Params, diskfile: bool, max_server_duration: int): Config
    requires c.shape.num_streams >= 0
  {
    Config(c.shape.num_streams, c.shape.reverse, c.shape.bidirectional, FailsOnStrangers(c),
           P.Refused(c, diskfile, max_server_duration))
  }

  /** The bytes of the parameters, in front of what the client may already have sent behind them. */
  function Sending(c: P.Params, rest: Text): Text {
    Frame(P.ParametersJson(c)) + rest
  }

  /** The server's step on the message is what get_parameters does with the bytes. */
  lemma GetParamsReadsBytes(w: World, c: P.Params, diskfile: bool, max_server_duration: int, rest: Text, strtod: Strtod)
    requires P.Fits(c) && ReadsIntegers(strtod) && |Render(P.ParametersJson(c), false, 0)| < TWO_32
    requires c.shape.num_streams >= 0 && w.cfg == ConfigOf(c, diskfile, max_server_duration)
    requires w.server.pc == GettingParams && !w.toServer.Empty()
    requires w.toServer.Head() == ParamsJson(w.cfg.streams, w.cfg.reverse, w.cfg.bidirectional)
    ensures var s := GetParams(w).server;
      match P.Taken(P.DEFAULTS, RECEIVER, Sending(c, rest), diskfile, max_server_duration, strtod)
      case None => s.pc == SendingError
      case Some((p, mode)) =>
        s.pc == SendingCreateStreams && s.num_streams == p.shape.num_streams && s.mode == mode
        && (w.cfg.tos <==> FailsOnStrangers(p))
  {
    P.ParametersTaken(c, rest, diskfile, max_server_duration, strtod);
  }

  /**
   * Exactly when a test can fail, in terms of the client's parameters: the server does not take the bytes that carry
   * them, or it gets a TOS value for TCP or SCTP and a stream to create, and somebody else connects.
   */
  lemma TestFailsExactlyWhen(c: P.Params, diskfile: bool, max_server_duration: int, rest: Text, strtod: Strtod,
                             budget: nat, strangers: nat)
    requires P.Fits(c) && ReadsIntegers(strtod) && |Render(P.ParametersJson(c), false, 0)| < TWO_32
    requires c.shape.num_streams >= 0 && !(c.shape.reverse && c.shape.bidirectional)
    ensures CanFail(Init(ConfigOf(c, diskfile, max_server_duration), budget, strangers)) <==>
      match P.Taken(P.DEFAULTS, RECEIVER, Sending(c, rest), diskfile, max_server_duration, strtod)
      case None => true
      case Some((p, _)) => FailsOnStrangers(p) && p.shape.num_streams > 0 && strangers > 0
  {
    P.ParametersTaken(c, rest, diskfile, max_server_duration, strtod);
    FailsExactlyWhenHarmed(ConfigOf(c, diskfile, max_server_duration), budget, strangers);
  }
}
