/** The parameters of a test: what the client sends of them, and what the server makes of what it gets. */
module Params {
  import opened Bytes
  import opened JsonTree
  import opened JsonRoundTrip
  import opened JsonGrammar
  import opened Streams
  import opened Wire
  import opened Wrappers
  import JsonCompare
  import opened Widths

  const MAX_PARAMS_JSON_STRING := 8 * 1024

  datatype Protocol = TCP | UDP | SCTP | QUIC

  /** The fields of struct iperf_test and its settings that travel. */
  datatype Goals = Goals(quic_port: int, omit: int, server_affinity: int, duration: int, bytes: int, blocks: int)

  datatype Shape = Shape(mss: int, no_delay: bool, num_streams: int, reverse: bool, bidirectional: bool,
    mptcp: bool)

  datatype Rates = Rates(socket_bufsize: int, blksize: int, rate: int, fqrate: int, pacing_timer: int, burst: int,
    tos: int, flowlabel: int)

  datatype Texts = Texts(title: Option<Text>, extra_data: Option<Text>, congestion: Option<Text>,
    congestion_used: Option<Text>)

  datatype Flags = Flags(get_server_output: int, udp_counters_64bit: int, repeating_payload: int, zerocopy: int,
    dont_fragment: int, skip_rx_copy: int)

  datatype Params = Params(protocol: Protocol, goals: Goals, shape: Shape, rates: Rates, texts: Texts, flags: Flags)

  /** iperf_defaults */
  const DEFAULTS := Params(
    TCP,
    Goals(0, 0, -1, 10, 0, 0),
    Shape(0, false, 1, false, false, false),
    Rates(0, 128 * 1024, 0, 0, 1000, 0, 0, 0),
    Texts(None, None, None, None),
    Flags(0, 0, 0, 0, 0, 0))

  /** The keys of the parameters object. */
  datatype Key =
    | KTcp | KUdp | KSctp | KQuic | KQuicPort | KOmit | KServerAffinity | KTime | KNum | KBlockcount | KMss
    | KNodelay | KParallel | KReverse | KBidirectional | KMptcp | KWindow | KLen | KBandwidth | KFqrate
    | KPacingTimer | KBurst | KTos | KFlowlabel | KTitle | KExtraData | KCongestion | KCongestionUsed
    | KGetServerOutput | KUdpCounters64bit | KRepeatingPayload | KZerocopy | KDontFragment | KSkipRxCopy
    | KClientVersion

  const ORDER: seq<Key> := [
    KTcp, KUdp, KSctp, KQuic, KQuicPort, KOmit, KServerAffinity, KTime, KNum, KBlockcount, KMss, KNodelay,
    KParallel, KReverse, KBidirectional, KMptcp, KWindow, KLen, KBandwidth, KFqrate, KPacingTimer, KBurst,
    KTos, KFlowlabel, KTitle, KExtraData, KCongestion, KCongestionUsed, KGetServerOutput, KUdpCounters64bit,
    KRepeatingPayload, KZerocopy, KDontFragment, KSkipRxCopy, KClientVersion]

  /** C text of a Dafny string, for the plain characters that keys are made of. */
  function Ascii(s: string): (r: Text)
    ensures |r| == |s| && NulFree(r)
    ensures forall i :: 0 <= i < |s| && 0 < s[i] as int < 0x100 ==> r[i] as int == s[i] as int
  {
    seq(|s|, i requires 0 <= i < |s| => if 0 < s[i] as int < 0x100 then s[i] as int as byte else 0x3F)
  }

  function Name(k: Key): (r: Text)
    ensures NulFree(r)
  {
    match k
    case KTcp => Ascii("tcp")
    case KUdp => Ascii("udp")
    case KSctp => Ascii("sctp")
    case KQuic => Ascii("quic")
    case KQuicPort => Ascii("quic_port")
    case KOmit => Ascii("omit")
    case KServerAffinity => Ascii("server_affinity")
    case KTime => Ascii("time")
    case KNum => Ascii("num")
    case KBlockcount => Ascii("blockcount")
    case KMss => Ascii("MSS")
    case KNodelay => Ascii("nodelay")
    case KParallel => Ascii("parallel")
    case KReverse => Ascii("reverse")
    case KBidirectional => Ascii("bidirectional")
    case KMptcp => Ascii("mptcp")
    case KWindow => Ascii("window")
    case KLen => Ascii("len")
    case KBandwidth => Ascii("bandwidth")
    case KFqrate => Ascii("fqrate")
    case KPacingTimer => Ascii("pacing_timer")
    case KBurst => Ascii("burst")
    case KTos => Ascii("TOS")
    case KFlowlabel => Ascii("flowlabel")
    case KTitle => Ascii("title")
    case KExtraData => Ascii("extra_data")
    case KCongestion => Ascii("congestion")
    case KCongestionUsed => Ascii("congestion_used")
    case KGetServerOutput => Ascii("get_server_output")
    case KUdpCounters64bit => Ascii("udp_counters_64bit")
    case KRepeatingPayload => Ascii("repeating_payload")
    case KZerocopy => Ascii("zerocopy")
    case KDontFragment => Ascii("dont_fragment")
    case KSkipRxCopy => Ascii("skip_rx_copy")
    case KClientVersion => Ascii("client_version")
  }

  // ---- Looking up a key, in any case

  type Getter = Key -> Option<Json>

  /** Asking one object for its items: cJSON_GetObjectItem, which takes a key in any case. */
  function Items(j: Json): Getter {
    k => JsonCompare.Find(if j.Object? then j.members else [], Name(k), false)
  }

  // ---- Sending

  function IfSet(n: int): Option<Json> {
    if n != 0 then Some(Number(n)) else None
  }

  function IfTrue(b: bool): Option<Json> {
    if b then Some(True) else None
  }

  function IfText(t: Option<Text>): Option<Json> {
    match t case None => None case Some(s) => Some(String(s))
  }

  /** What send_parameters puts under a key, if anything. */
  function Sent(c: Params, k: Key): Option<Json> {
    match k
    case KTcp => IfTrue(c.protocol == TCP)
    case KUdp => IfTrue(c.protocol == UDP)
    case KSctp => IfTrue(c.protocol == SCTP)
    case KQuic => IfTrue(c.protocol == QUIC)
    case KQuicPort => if c.goals.quic_port > 0 then Some(Number(c.goals.quic_port)) else None
    case KOmit => Some(Number(c.goals.omit))
    case KServerAffinity => if c.goals.server_affinity != -1 then Some(Number(c.goals.server_affinity)) else None
    case KTime => Some(Number(c.goals.duration))
    case KNum => Some(Number(c.goals.bytes))
    case KBlockcount => Some(Number(c.goals.blocks))
    case KMss => IfSet(c.shape.mss)
    case KNodelay => IfTrue(c.shape.no_delay)
    case KParallel => Some(Number(c.shape.num_streams))
    case KReverse => IfTrue(c.shape.reverse)
    case KBidirectional => IfTrue(c.shape.bidirectional)
    case KMptcp => IfTrue(c.shape.mptcp)
    case KWindow => IfSet(c.rates.socket_bufsize)
    case KLen => IfSet(c.rates.blksize)
    case KBandwidth => IfSet(c.rates.rate)
    case KFqrate => IfSet(c.rates.fqrate)
    case KPacingTimer => IfSet(c.rates.pacing_timer)
    case KBurst => IfSet(c.rates.burst)
    case KTos => IfSet(c.rates.tos)
    case KFlowlabel => IfSet(c.rates.flowlabel)
    case KTitle => IfText(c.texts.title)
    case KExtraData => IfText(c.texts.extra_data)
    case KCongestion => IfText(c.texts.congestion)
    case KCongestionUsed => IfText(c.texts.congestion_used)
    case KGetServerOutput => IfSet(c.flags.get_server_output)
    case KUdpCounters64bit => IfSet(c.flags.udp_counters_64bit)
    case KRepeatingPayload => IfSet(c.flags.repeating_payload)
    case KZerocopy => IfSet(c.flags.zerocopy)
    case KDontFragment => IfSet(c.flags.dont_fragment)
    case KSkipRxCopy => IfSet(c.flags.skip_rx_copy)
    case KClientVersion => Some(String(Ascii("3.20+")))
  }

  function Entry(k: Key, v: Option<Json>): seq<Member> {
    if v.Some? then [Member(Name(k), v.value)] else []
  }

  function Entries(keys: seq<Key>, c: Params): seq<Member> {
    if keys == [] then [] else Entry(keys[0], Sent(c, keys[0])) + Entries(keys[1..], c)
  }

  /** The object that send_parameters builds, key by key in its order. */
  function ParametersJson(c: Params): Json {
    Object(Entries(ORDER, c))
  }

  // ---- Receiving

  function IntOr(get: Getter, k: Key, otherwise: int): int {
    match get(k) case Some(Number(n)) => n case _ => otherwise
  }

  /** The type check for true also lets false pass. */
  function HasBool(get: Getter, k: Key): bool {
    match get(k) case Some(True) => true case Some(False) => true case _ => false
  }

  function HasNumber(get: Getter, k: Key): bool {
    match get(k) case Some(Number(_)) => true case _ => false
  }

  function TextOr(get: Getter, k: Key, otherwise: Option<Text>): Option<Text> {
    match get(k) case Some(String(s)) => Some(s) case _ => otherwise
  }

  /** The one value that is taken whatever its type. */
  function ValueIntOr(get: Getter, k: Key, otherwise: int): int {
    match get(k)
    case None => otherwise
    case Some(Number(n)) => n
    case Some(True) => 1
    case Some(_) => 0
  }

  function ReceivedProtocol(p: Protocol, get: Getter, diskfile: bool): Protocol {
    if HasBool(get, KQuic) then QUIC
    else if HasBool(get, KSctp) then SCTP
    else if HasBool(get, KUdp) && !diskfile then UDP
    else if HasBool(get, KTcp) then TCP
    else p
  }

  function ReceivedGoals(s: Goals, get: Getter): Goals {
    Goals(
      IntOr(get, KQuicPort, s.quic_port),
      IntOr(get, KOmit, s.omit),
      IntOr(get, KServerAffinity, s.server_affinity),
      IntOr(get, KTime, s.duration),
      IntOr(get, KNum, 0),
      IntOr(get, KBlockcount, 0))
  }

  function ReceivedShape(s: Shape, get: Getter): Shape {
    Shape(
      IntOr(get, KMss, s.mss),
      HasBool(get, KNodelay) || s.no_delay,
      IntOr(get, KParallel, s.num_streams),
      HasBool(get, KReverse) || s.reverse,
      HasBool(get, KBidirectional) || s.bidirectional,
      HasBool(get, KMptcp) || s.mptcp)
  }

  function ReceivedRates(s: Rates, get: Getter): Rates {
    Rates(
      IntOr(get, KWindow, s.socket_bufsize),
      IntOr(get, KLen, s.blksize),
      IntOr(get, KBandwidth, s.rate),
      IntOr(get, KFqrate, s.fqrate),
      IntOr(get, KPacingTimer, s.pacing_timer),
      IntOr(get, KBurst, s.burst),
      IntOr(get, KTos, s.tos),
      IntOr(get, KFlowlabel, s.flowlabel))
  }

  function ReceivedTexts(s: Texts, get: Getter): Texts {
    Texts(
      TextOr(get, KTitle, s.title),
      TextOr(get, KExtraData, s.extra_data),
      TextOr(get, KCongestion, s.congestion),
      TextOr(get, KCongestionUsed, s.congestion_used))
  }

  function ReceivedFlags(s: Flags, get: Getter): Flags {
    Flags(
      if HasNumber(get, KGetServerOutput) then 1 else s.get_server_output,
      if HasNumber(get, KUdpCounters64bit) then 1 else s.udp_counters_64bit,
      if HasNumber(get, KRepeatingPayload) then 1 else s.repeating_payload,
      IntOr(get, KZerocopy, s.zerocopy),
      IntOr(get, KDontFragment, s.dont_fragment),
      ValueIntOr(get, KSkipRxCopy, s.skip_rx_copy))
  }

  /** What a server's parameters are after it got this object. */
  function Received(s: Params, get: Getter, diskfile: bool): Params {
    Params(ReceivedProtocol(s.protocol, get, diskfile), ReceivedGoals(s.goals, get), ReceivedShape(s.shape, get),
           ReceivedRates(s.rates, get), ReceivedTexts(s.texts, get), ReceivedFlags(s.flags, get))
  }

  /** iperf_set_test_reverse and iperf_set_test_bidirectional of a server, where the object asks for them. */
  function ReceivedMode(mode: Mode, get: Getter): Mode {
    if HasBool(get, KBidirectional) then BIDIRECTIONAL else if HasBool(get, KReverse) then SENDER else mode
  }

  // ---- No two keys are the same name

  /** The key whose name has this length and these first two letters. */
  function KeyOf(length: nat, first: char, second: char): Key {
    match (length, first, second)
    case (3, 't', 'c') => KTcp
    case (3, 'u', 'd') => KUdp
    case (4, 's', 'c') => KSctp
    case (4, 'q', 'u') => KQuic
    case (9, 'q', 'u') => KQuicPort
    case (4, 'o', 'm') => KOmit
    case (15, 's', 'e') => KServerAffinity
    case (4, 't', 'i') => KTime
    case (3, 'n', 'u') => KNum
    case (10, 'b', 'l') => KBlockcount
    case (3, 'm', 's') => KMss
    case (7, 'n', 'o') => KNodelay
    case (8, 'p', 'a') => KParallel
    case (7, 'r', 'e') => KReverse
    case (13, 'b', 'i') => KBidirectional
    case (5, 'm', 'p') => KMptcp
    case (6, 'w', 'i') => KWindow
    case (3, 'l', 'e') => KLen
    case (9, 'b', 'a') => KBandwidth
    case (6, 'f', 'q') => KFqrate
    case (12, 'p', 'a') => KPacingTimer
    case (5, 'b', 'u') => KBurst
    case (3, 't', 'o') => KTos
    case (9, 'f', 'l') => KFlowlabel
    case (5, 't', 'i') => KTitle
    case (10, 'e', 'x') => KExtraData
    case (10, 'c', 'o') => KCongestion
    case (15, 'c', 'o') => KCongestionUsed
    case (17, 'g', 'e') => KGetServerOutput
    case (18, 'u', 'd') => KUdpCounters64bit
    case (17, 'r', 'e') => KRepeatingPayload
    case (8, 'z', 'e') => KZerocopy
    case (13, 'd', 'o') => KDontFragment
    case (12, 's', 'k') => KSkipRxCopy
    case _ => KClientVersion
  }

  function Known(t: Text): Key
    requires |t| >= 2
  {
    KeyOf(|t|, JsonCompare.Lower(t[0]) as char, JsonCompare.Lower(t[1]) as char)
  }

  function Small(c: char): char {
    if 'A' <= c <= 'Z' then c + 0x20 as char else c
  }

  lemma Spelled(s: string, first: char, second: char, k: Key)
    requires |s| >= 2 && 0 < s[0] as int < 0x100 && 0 < s[1] as int < 0x100
    requires first == Small(s[0]) && second == Small(s[1]) && KeyOf(|s|, first, second) == k
    ensures |Ascii(s)| >= 2 && Known(Ascii(s)) == k
  {
  }

  lemma Names3(k: Key)
    ensures k in {KTcp, KUdp, KNum, KMss, KLen, KTos} ==> |Name(k)| >= 2 && Known(Name(k)) == k
  {
    match k
    case KTcp => Spelled("tcp", 't', 'c', k);
    case KUdp => Spelled("udp", 'u', 'd', k);
    case KNum => Spelled("num", 'n', 'u', k);
    case KMss => Spelled("MSS", 'm', 's', k);
    case KLen => Spelled("len", 'l', 'e', k);
    case KTos => Spelled("TOS", 't', 'o', k);
    case _ =>
  }

  lemma Names4(k: Key)
    ensures k in {KSctp, KQuic, KOmit, KTime} ==> |Name(k)| >= 2 && Known(Name(k)) == k
  {
    match k
    case KSctp => Spelled("sctp", 's', 'c', k);
    case KQuic => Spelled("quic", 'q', 'u', k);
    case KOmit => Spelled("omit", 'o', 'm', k);
    case KTime => Spelled("time", 't', 'i', k);
    case _ =>
  }

  lemma Names5(k: Key)
    ensures k in {KMptcp, KBurst, KTitle} ==> |Name(k)| >= 2 && Known(Name(k)) == k
  {
    match k
    case KMptcp => Spelled("mptcp", 'm', 'p', k);
    case KBurst => Spelled("burst", 'b', 'u', k);
    case KTitle => Spelled("title", 't', 'i', k);
    case _ =>
  }

  lemma Names6And7(k: Key)
    ensures k in {KNodelay, KReverse, KWindow, KFqrate} ==> |Name(k)| >= 2 && Known(Name(k)) == k
  {
    match k
    case KNodelay => Spelled("nodelay", 'n', 'o', k);
    case KReverse => Spelled("reverse", 'r', 'e', k);
    case KWindow => Spelled("window", 'w', 'i', k);
    case KFqrate => Spelled("fqrate", 'f', 'q', k);
    case _ =>
  }

  lemma Names8And9(k: Key)
    ensures k in {KQuicPort, KParallel, KBandwidth, KFlowlabel, KZerocopy} ==> |Name(k)| >= 2 && Known(Name(k)) == k
  {
    match k
    case KQuicPort => Spelled("quic_port", 'q', 'u', k);
    case KParallel => Spelled("parallel", 'p', 'a', k);
    case KBandwidth => Spelled("bandwidth", 'b', 'a', k);
    case KFlowlabel => Spelled("flowlabel", 'f', 'l', k);
    case KZerocopy => Spelled("zerocopy", 'z', 'e', k);
    case _ =>
  }

  lemma Names10And11(k: Key)
    ensures k in {KBlockcount, KExtraData, KCongestion} ==> |Name(k)| >= 2 && Known(Name(k)) == k
  {
    match k
    case KBlockcount => Spelled("blockcount", 'b', 'l', k);
    case KExtraData => Spelled("extra_data", 'e', 'x', k);
    case KCongestion => Spelled("congestion", 'c', 'o', k);
    case _ =>
  }

  lemma Names12And13(k: Key)
    ensures k in {KBidirectional, KPacingTimer, KDontFragment, KSkipRxCopy} ==> |Name(k)| >= 2 && Known(Name(k)) == k
  {
    match k
    case KBidirectional => Spelled("bidirectional", 'b', 'i', k);
    case KPacingTimer => Spelled("pacing_timer", 'p', 'a', k);
    case KDontFragment => Spelled("dont_fragment", 'd', 'o', k);
    case KSkipRxCopy => Spelled("skip_rx_copy", 's', 'k', k);
    case _ =>
  }

  lemma Names14And15(k: Key)
    ensures k in {KServerAffinity, KCongestionUsed, KClientVersion} ==> |Name(k)| >= 2 && Known(Name(k)) == k
  {
    match k
    case KServerAffinity => Spelled("server_affinity", 's', 'e', k);
    case KCongestionUsed => Spelled("congestion_used", 'c', 'o', k);
    case KClientVersion => Spelled("client_version", 'c', 'l', k);
    case _ =>
  }

  lemma Names17(k: Key)
    ensures k in {KGetServerOutput, KRepeatingPayload} ==> |Name(k)| >= 2 && Known(Name(k)) == k
  {
    match k
    case KGetServerOutput => Spelled("get_server_output", 'g', 'e', k);
    case KRepeatingPayload => Spelled("repeating_payload", 'r', 'e', k);
    case _ =>
  }

  lemma Names18(k: Key)
    ensures k in {KUdpCounters64bit} ==> |Name(k)| >= 2 && Known(Name(k)) == k
  {
    match k
    case KUdpCounters64bit => Spelled("udp_counters_64bit", 'u', 'd', k);
    case _ =>
  }

  lemma NameIsKnown(k: Key)
    ensures |Name(k)| >= 2 && Known(Name(k)) == k
  {
    Names3(k);
    Names4(k);
    Names5(k);
    Names6And7(k);
    Names8And9(k);
    Names10And11(k);
    Names12And13(k);
    Names14And15(k);
    Names17(k);
    Names18(k);
  }

  lemma NamesDiffer(a: Key, b: Key)
    ensures JsonCompare.SameName(Name(a), Name(b), false) <==> a == b
  {
    if JsonCompare.SameName(Name(a), Name(b), false) {
      NameIsKnown(a);
      NameIsKnown(b);
    }
  }

  // ---- Every key is found as it was sent

  lemma {:induction false} LookupEntries(keys: seq<Key>, c: Params, k: Key)
    ensures JsonCompare.Find(Entries(keys, c), Name(k), false) == if k in keys then Sent(c, k) else None
  {
    if keys != [] {
      LookupEntries(keys[1..], c, k);
      NamesDiffer(k, keys[0]);
      var v := Sent(c, keys[0]);
      if v.Some? {
        var all := [Member(Name(keys[0]), v.value)] + Entries(keys[1..], c);
        assert all[1..] == Entries(keys[1..], c);
      } else {
        assert [] + Entries(keys[1..], c) == Entries(keys[1..], c);
      }
    }
  }

  lemma AllOrdered(k: Key)
    ensures k in ORDER
  {
    match k
    case KTcp => assert ORDER[0] == k;
    case KUdp => assert ORDER[1] == k;
    case KSctp => assert ORDER[2] == k;
    case KQuic => assert ORDER[3] == k;
    case KQuicPort => assert ORDER[4] == k;
    case KOmit => assert ORDER[5] == k;
    case KServerAffinity => assert ORDER[6] == k;
    case KTime => assert ORDER[7] == k;
    case KNum => assert ORDER[8] == k;
    case KBlockcount => assert ORDER[9] == k;
    case KMss => assert ORDER[10] == k;
    case KNodelay => assert ORDER[11] == k;
    case KParallel => assert ORDER[12] == k;
    case KReverse => assert ORDER[13] == k;
    case KBidirectional => assert ORDER[14] == k;
    case KMptcp => assert ORDER[15] == k;
    case KWindow => assert ORDER[16] == k;
    case KLen => assert ORDER[17] == k;
    case KBandwidth => assert ORDER[18] == k;
    case KFqrate => assert ORDER[19] == k;
    case KPacingTimer => assert ORDER[20] == k;
    case KBurst => assert ORDER[21] == k;
    case KTos => assert ORDER[22] == k;
    case KFlowlabel => assert ORDER[23] == k;
    case KTitle => assert ORDER[24] == k;
    case KExtraData => assert ORDER[25] == k;
    case KCongestion => assert ORDER[26] == k;
    case KCongestionUsed => assert ORDER[27] == k;
    case KGetServerOutput => assert ORDER[28] == k;
    case KUdpCounters64bit => assert ORDER[29] == k;
    case KRepeatingPayload => assert ORDER[30] == k;
    case KZerocopy => assert ORDER[31] == k;
    case KDontFragment => assert ORDER[32] == k;
    case KSkipRxCopy => assert ORDER[33] == k;
    case KClientVersion => assert ORDER[34] == k;
  }

  lemma FindsSent(c: Params, k: Key)
    ensures Items(ParametersJson(c))(k) == Sent(c, k)
  {
    AllOrdered(k);
    LookupEntries(ORDER, c, k);
  }

  // ---- What a fresh server ends up with

  function Flag(n: int): int {
    if n != 0 then 1 else 0
  }

  /** A value of 0 is not sent, and leaves the server with its default. */
  function OrDefault(n: int, otherwise: int): int {
    if n != 0 then n else otherwise
  }

  function Arriving(c: Params): Params {
    Params(
      c.protocol,
      c.goals.(quic_port := if c.goals.quic_port > 0 then c.goals.quic_port else DEFAULTS.goals.quic_port),
      c.shape,
      c.rates.(blksize := OrDefault(c.rates.blksize, DEFAULTS.rates.blksize),
               pacing_timer := OrDefault(c.rates.pacing_timer, DEFAULTS.rates.pacing_timer)),
      c.texts,
      c.flags.(get_server_output := Flag(c.flags.get_server_output),
               udp_counters_64bit := Flag(c.flags.udp_counters_64bit),
               repeating_payload := Flag(c.flags.repeating_payload)))
  }

  lemma GoalsArrive(c: Params, get: Getter)
    requires get(KQuicPort) == Sent(c, KQuicPort) && get(KOmit) == Sent(c, KOmit)
    requires get(KServerAffinity) == Sent(c, KServerAffinity) && get(KTime) == Sent(c, KTime)
    requires get(KNum) == Sent(c, KNum) && get(KBlockcount) == Sent(c, KBlockcount)
    ensures ReceivedGoals(DEFAULTS.goals, get) == Arriving(c).goals
  {
  }

  lemma ShapeArrives(c: Params, get: Getter)
    requires get(KMss) == Sent(c, KMss) && get(KNodelay) == Sent(c, KNodelay)
    requires get(KParallel) == Sent(c, KParallel) && get(KReverse) == Sent(c, KReverse)
    requires get(KBidirectional) == Sent(c, KBidirectional) && get(KMptcp) == Sent(c, KMptcp)
    ensures ReceivedShape(DEFAULTS.shape, get) == c.shape
    ensures ReceivedMode(RECEIVER, get) == ServerMode(c.shape.reverse, c.shape.bidirectional)
  {
  }

  lemma RatesArrive(c: Params, get: Getter)
    requires get(KWindow) == Sent(c, KWindow) && get(KLen) == Sent(c, KLen)
    requires get(KBandwidth) == Sent(c, KBandwidth) && get(KFqrate) == Sent(c, KFqrate)
    requires get(KPacingTimer) == Sent(c, KPacingTimer) && get(KBurst) == Sent(c, KBurst)
    requires get(KTos) == Sent(c, KTos) && get(KFlowlabel) == Sent(c, KFlowlabel)
    ensures ReceivedRates(DEFAULTS.rates, get) == Arriving(c).rates
  {
  }

  lemma TextsArrive(c: Params, get: Getter)
    requires get(KTitle) == Sent(c, KTitle) && get(KExtraData) == Sent(c, KExtraData)
    requires get(KCongestion) == Sent(c, KCongestion) && get(KCongestionUsed) == Sent(c, KCongestionUsed)
    ensures ReceivedTexts(DEFAULTS.texts, get) == c.texts
  {
  }

  lemma FlagsArrive(c: Params, get: Getter)
    requires get(KGetServerOutput) == Sent(c, KGetServerOutput)
    requires get(KUdpCounters64bit) == Sent(c, KUdpCounters64bit)
    requires get(KRepeatingPayload) == Sent(c, KRepeatingPayload)
    requires get(KZerocopy) == Sent(c, KZerocopy)
    requires get(KDontFragment) == Sent(c, KDontFragment) && get(KSkipRxCopy) == Sent(c, KSkipRxCopy)
    ensures ReceivedFlags(DEFAULTS.flags, get) == Arriving(c).flags
  {
  }

  lemma ProtocolArrives(c: Params, get: Getter)
    requires get(KTcp) == Sent(c, KTcp) && get(KUdp) == Sent(c, KUdp)
    requires get(KSctp) == Sent(c, KSctp) && get(KQuic) == Sent(c, KQuic)
    ensures ReceivedProtocol(DEFAULTS.protocol, get, false) == c.protocol
  {
  }

  lemma AllArrive(c: Params, get: Getter)
    requires forall k {:trigger get(k)} :: get(k) == Sent(c, k)
    ensures Received(DEFAULTS, get, false) == Arriving(c)
    ensures ReceivedMode(RECEIVER, get) == ServerMode(c.shape.reverse, c.shape.bidirectional)
  {
    ProtocolArrives(c, get);
    GoalsArrive(c, get);
    ShapeArrives(c, get);
    RatesArrive(c, get);
    TextsArrive(c, get);
    FlagsArrive(c, get);
  }

  /** A fresh server takes over what the client sent, and the complementary mode. */
  lemma ParametersArrive(c: Params)
    ensures Received(DEFAULTS, Items(ParametersJson(c)), false) == Arriving(c)
    ensures ReceivedMode(RECEIVER, Items(ParametersJson(c))) == ServerMode(c.shape.reverse, c.shape.bidirectional)
  {
    var get := Items(ParametersJson(c));
    forall k ensures get(k) == Sent(c, k) {
      FindsSent(c, k);
    }
    AllArrive(c, get);
  }

  /** Exactly which parameters reach the server unchanged. */
  lemma UnchangedExactlyWhen(c: Params)
    ensures Received(DEFAULTS, Items(ParametersJson(c)), false) == c
      <==> (c.goals.quic_port >= 0 && c.rates.blksize != 0 && c.rates.pacing_timer != 0
            && c.flags.get_server_output in {0, 1} && c.flags.udp_counters_64bit in {0, 1}
            && c.flags.repeating_payload in {0, 1})
  {
    ParametersArrive(c);
  }

  // ---- The same through the connection

  ghost predicate FitsInt(n: int) {
    -EXACT <= n <= EXACT
  }

  ghost predicate FitsText(t: Option<Text>) {
    t.Some? ==> NulFree(t.value)
  }

  /** Counts that a double holds exactly, and C strings. */
  ghost predicate Fits(c: Params) {
    && FitsInt(c.goals.quic_port) && FitsInt(c.goals.omit) && FitsInt(c.goals.server_affinity)
    && FitsInt(c.goals.duration) && FitsInt(c.goals.bytes) && FitsInt(c.goals.blocks)
    && FitsInt(c.shape.mss) && FitsInt(c.shape.num_streams)
    && FitsInt(c.rates.socket_bufsize) && FitsInt(c.rates.blksize) && FitsInt(c.rates.rate) && FitsInt(c.rates.fqrate)
    && FitsInt(c.rates.pacing_timer) && FitsInt(c.rates.burst) && FitsInt(c.rates.tos) && FitsInt(c.rates.flowlabel)
    && FitsText(c.texts.title) && FitsText(c.texts.extra_data)
    && FitsText(c.texts.congestion) && FitsText(c.texts.congestion_used)
    && FitsInt(c.flags.get_server_output) && FitsInt(c.flags.udp_counters_64bit)
    && FitsInt(c.flags.repeating_payload) && FitsInt(c.flags.zerocopy)
    && FitsInt(c.flags.dont_fragment) && FitsInt(c.flags.skip_rx_copy)
  }

  lemma SentFits(c: Params, k: Key)
    requires Fits(c) && Sent(c, k).Some?
    ensures Exact(Sent(c, k).value) && Nesting(Sent(c, k).value) == 0
  {
  }

  lemma {:induction false} EntriesFit(keys: seq<Key>, c: Params, m: seq<Member>)
    requires Fits(c) && m == Entries(keys, c)
    ensures NestingMembers(m) == 0 && ExactMembers(m)
  {
    if keys != [] {
      var rest := Entries(keys[1..], c);
      EntriesFit(keys[1..], c, rest);
      if Sent(c, keys[0]).Some? {
        SentFits(c, keys[0]);
        assert m[1..] == rest;
      } else {
        assert m == rest;
      }
    }
  }

  lemma ParametersAreExact(c: Params)
    requires Fits(c)
    ensures Exact(ParametersJson(c)) && Nesting(ParametersJson(c)) == 1
  {
    EntriesFit(ORDER, c, Entries(ORDER, c));
  }

  /** Through print, frame, read and parse the server gets the object, if its text is no longer than 8 KB. */
  lemma ParametersCross(c: Params, rest: Text, strtod: Strtod)
    requires Fits(c) && ReadsIntegers(strtod)
    ensures var j := ParametersJson(c);
      var text := Render(j, false, 0);
      |text| < TWO_32 ==>
        ReadFrame(Frame(j) + rest, MAX_PARAMS_JSON_STRING, strtod)
        == if |text| <= MAX_PARAMS_JSON_STRING then Reading(Some(j), rest) else Reading(None, text + rest)
  {
    ParametersAreExact(c);
    if |Render(ParametersJson(c), false, 0)| < TWO_32 {
      FrameRoundTrip(ParametersJson(c), rest, MAX_PARAMS_JSON_STRING, strtod);
    }
  }

  /** What get_parameters refuses: a text above 8 KB, UDP over a disk file, and a test longer than the server's cap. */
  predicate Refused(c: Params, diskfile: bool, max_server_duration: int) {
    || |Render(ParametersJson(c), false, 0)| > MAX_PARAMS_JSON_STRING
    || (diskfile && c.protocol == UDP)
    || Exceeds(c.goals, max_server_duration)
  }

  predicate Exceeds(goals: Goals, max_server_duration: int) {
    max_server_duration > 0 && (goals.duration + goals.omit > max_server_duration || goals.duration == 0)
  }

  /** What get_parameters makes of an object: the parameters and the mode, unless it fails. */
  function TakenFrom(s: Params, mode: Mode, get: Getter, diskfile: bool, max_server_duration: int)
    : Option<(Params, Mode)>
  {
    var p := Received(s, get, diskfile);
    if (diskfile && HasBool(get, KUdp)) || Exceeds(p.goals, max_server_duration) then None
    else Some((p, ReceivedMode(mode, get)))
  }

  /** And of the bytes that come. */
  function Taken(s: Params, mode: Mode, input: Text, diskfile: bool, max_server_duration: int, strtod: Strtod)
    : Option<(Params, Mode)>
  {
    var json := ReadFrame(input, MAX_PARAMS_JSON_STRING, strtod).json;
    if json.None? then None else TakenFrom(s, mode, Items(json.value), diskfile, max_server_duration)
  }

  lemma TakenAsSent(c: Params, get: Getter, diskfile: bool, max_server_duration: int)
    requires forall k {:trigger get(k)} :: get(k) == Sent(c, k)
    ensures TakenFrom(DEFAULTS, RECEIVER, get, diskfile, max_server_duration)
         == if (diskfile && c.protocol == UDP) || Exceeds(c.goals, max_server_duration) then None
            else Some((Arriving(c), ServerMode(c.shape.reverse, c.shape.bidirectional)))
  {
    AllArrive(c, get);
    GoalsArrive(c, get);
    assert HasBool(get, KUdp) == (c.protocol == UDP);
    if !diskfile || c.protocol != UDP {
      assert ReceivedProtocol(DEFAULTS.protocol, get, diskfile) == ReceivedProtocol(DEFAULTS.protocol, get, false);
    }
  }

  /** From the client's fields to the server's, through the bytes between them; None for what the server refuses. */
  lemma ParametersTaken(c: Params, rest: Text, diskfile: bool, max_server_duration: int, strtod: Strtod)
    requires Fits(c) && ReadsIntegers(strtod) && |Render(ParametersJson(c), false, 0)| < TWO_32
    ensures Taken(DEFAULTS, RECEIVER, Frame(ParametersJson(c)) + rest, diskfile, max_server_duration, strtod)
         == if Refused(c, diskfile, max_server_duration) then None
            else Some((Arriving(c), ServerMode(c.shape.reverse, c.shape.bidirectional)))
  {
    ParametersCross(c, rest, strtod);
    var get := Items(ParametersJson(c));
    forall k ensures get(k) == Sent(c, k) {
      FindsSent(c, k);
    }
    TakenAsSent(c, get, diskfile, max_server_duration);
  }

  class Test {
    var mode: Mode
    var protocol: Protocol
    var goals: Goals
    var shape: Shape
    var rates: Rates
    var texts: Texts
    var flags: Flags

    function Snapshot(): Params
      reads this
    {
      Params(protocol, goals, shape, rates, texts, flags)
    }

    /** A server as iperf_defaults and iperf_set_test_role leave it. */
    constructor Server()
      ensures Snapshot() == DEFAULTS && mode == RECEIVER
    {
      mode, protocol := RECEIVER, DEFAULTS.protocol;
      goals, shape, rates, texts, flags :=
        DEFAULTS.goals, DEFAULTS.shape, DEFAULTS.rates, DEFAULTS.texts, DEFAULTS.flags;
    }

    /** The lines of get_parameters that read the goals of the test. */
    method GetGoals(get: Getter)
      modifies `goals
      ensures goals == ReceivedGoals(old(goals), get)
    {
      goals := goals.(quic_port := IntOr(get, KQuicPort, goals.quic_port));
      goals := goals.(omit := IntOr(get, KOmit, goals.omit));
      goals := goals.(server_affinity := IntOr(get, KServerAffinity, goals.server_affinity));
      goals := goals.(duration := IntOr(get, KTime, goals.duration));
      goals := goals.(bytes := 0);
      goals := goals.(bytes := IntOr(get, KNum, goals.bytes));
      goals := goals.(blocks := 0);
      goals := goals.(blocks := IntOr(get, KBlockcount, goals.blocks));
    }

    /** The lines of get_parameters that read streams and directions. */
    method GetShape(get: Getter)
      modifies `shape, `mode
      ensures mode == ReceivedMode(old(mode), get)
      ensures shape == ReceivedShape(old(shape), get)
    {
      shape := shape.(mss := IntOr(get, KMss, shape.mss));
      if HasBool(get, KNodelay) {
        shape := shape.(no_delay := true);
      }
      shape := shape.(num_streams := IntOr(get, KParallel, shape.num_streams));
      if HasBool(get, KReverse) {
        shape := shape.(reverse := true);
        mode := SENDER;
      }
      if HasBool(get, KBidirectional) {
        shape := shape.(bidirectional := true);
        mode := BIDIRECTIONAL;
      }
      if HasBool(get, KMptcp) {
        shape := shape.(mptcp := true);
      }
    }

    /** The lines of get_parameters that read sizes and rates. */
    method GetRates(get: Getter)
      modifies `rates
      ensures rates == ReceivedRates(old(rates), get)
    {
      rates := rates.(socket_bufsize := IntOr(get, KWindow, rates.socket_bufsize));
      rates := rates.(blksize := IntOr(get, KLen, rates.blksize));
      rates := rates.(rate := IntOr(get, KBandwidth, rates.rate));
      rates := rates.(fqrate := IntOr(get, KFqrate, rates.fqrate));
      rates := rates.(pacing_timer := IntOr(get, KPacingTimer, rates.pacing_timer));
      rates := rates.(burst := IntOr(get, KBurst, rates.burst));
      rates := rates.(tos := IntOr(get, KTos, rates.tos));
      rates := rates.(flowlabel := IntOr(get, KFlowlabel, rates.flowlabel));
    }

    /** The lines of get_parameters that read texts. */
    method GetTexts(get: Getter)
      modifies `texts
      ensures texts == ReceivedTexts(old(texts), get)
    {
      texts := texts.(title := TextOr(get, KTitle, texts.title));
      texts := texts.(extra_data := TextOr(get, KExtraData, texts.extra_data));
      texts := texts.(congestion := TextOr(get, KCongestion, texts.congestion));
      texts := texts.(congestion_used := TextOr(get, KCongestionUsed, texts.congestion_used));
    }

    /** The lines of get_parameters that read flags. */
    method GetFlags(get: Getter)
      modifies `flags
      ensures flags == ReceivedFlags(old(flags), get)
    {
      if HasNumber(get, KGetServerOutput) {
        flags := flags.(get_server_output := 1);
      }
      if HasNumber(get, KUdpCounters64bit) {
        flags := flags.(udp_counters_64bit := 1);
      }
      if HasNumber(get, KRepeatingPayload) {
        flags := flags.(repeating_payload := 1);
      }
      flags := flags.(zerocopy := IntOr(get, KZerocopy, flags.zerocopy));
      flags := flags.(dont_fragment := IntOr(get, KDontFragment, flags.dont_fragment));
      flags := flags.(skip_rx_copy := ValueIntOr(get, KSkipRxCopy, flags.skip_rx_copy));
    }

    method GetProtocol(get: Getter, diskfile: bool)
      modifies `protocol
      ensures protocol == ReceivedProtocol(old(protocol), get, diskfile)
    {
      if HasBool(get, KTcp) {
        protocol := TCP;
      }
      if HasBool(get, KUdp) && !diskfile {
        protocol := UDP;
      }
      if HasBool(get, KSctp) {
        protocol := SCTP;
      }
      if HasBool(get, KQuic) {
        protocol := QUIC;
      }
    }

    method GetAll(get: Getter, diskfile: bool)
      modifies this
      ensures Snapshot() == Received(old(Snapshot()), get, diskfile)
      ensures mode == ReceivedMode(old(mode), get)
    {
      GetProtocol(get, diskfile);
      GetGoals(get);
      GetShape(get);
      GetRates(get);
      GetTexts(get);
      GetFlags(get);
    }

    /** get_parameters of a server, from the object that was read */
    method GetParameters(j: Json, diskfile: bool, max_server_duration: int) returns (ok: bool)
      modifies this
      ensures Snapshot() == Received(old(Snapshot()), Items(j), diskfile)
      ensures mode == ReceivedMode(old(mode), Items(j))
      ensures ok == (!(diskfile && HasBool(Items(j), KUdp)) && !Exceeds(goals, max_server_duration))
      ensures TakenFrom(old(Snapshot()), old(mode), Items(j), diskfile, max_server_duration)
           == if ok then Some((Snapshot(), mode)) else None
    {
      GetAll(Items(j), diskfile);
      ok := !(HasBool(Items(j), KUdp) && diskfile);
      if max_server_duration > 0 && (goals.duration + goals.omit > max_server_duration || goals.duration == 0) {
        ok := false;
      }
    }
  }
}
