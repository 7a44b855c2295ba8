/** The bytes of the parameters message, written out parameter by parameter. */
module ParamText {
  import opened Bytes
  import opened JsonTree
  import opened Wrappers
  import opened Params

  // ---- The text

  /** The keys in the order in which they are sent. */
  function Word(i: nat): string {
    match i
    case 0 => "tcp"
    case 1 => "udp"
    case 2 => "sctp"
    case 3 => "quic"
    case 4 => "quic_port"
    case 5 => "omit"
    case 6 => "server_affinity"
    case 7 => "time"
    case 8 => "num"
    case 9 => "blockcount"
    case 10 => "MSS"
    case 11 => "nodelay"
    case 12 => "parallel"
    case 13 => "reverse"
    case 14 => "bidirectional"
    case 15 => "mptcp"
    case 16 => "window"
    case 17 => "len"
    case 18 => "bandwidth"
    case 19 => "fqrate"
    case 20 => "pacing_timer"
    case 21 => "burst"
    case 22 => "TOS"
    case 23 => "flowlabel"
    case 24 => "title"
    case 25 => "extra_data"
    case 26 => "congestion"
    case 27 => "congestion_used"
    case 28 => "get_server_output"
    case 29 => "udp_counters_64bit"
    case 30 => "repeating_payload"
    case 31 => "zerocopy"
    case 32 => "dont_fragment"
    case 33 => "skip_rx_copy"
    case 34 => "client_version"
    case _ => ""
  }

  function Flag(present: bool): Option<Text> {
    if present then Some([0x74, 0x72, 0x75, 0x65]) else None
  }

  function Count(present: bool, n: int): Option<Text> {
    if present then Some(Decimal(n)) else None
  }

  function Quote(t: Option<Text>): Option<Text> {
    match t case None => None case Some(s) => Some(Quoted(s))
  }

  /** What stands behind each of them, if it is sent. */
  function Value(i: nat, c: Params): Option<Text> {
    match i
    case 0 => Flag(c.protocol == TCP)
    case 1 => Flag(c.protocol == UDP)
    case 2 => Flag(c.protocol == SCTP)
    case 3 => Flag(c.protocol == QUIC)
    case 4 => Count(c.goals.quic_port > 0, c.goals.quic_port)
    case 5 => Some(Decimal(c.goals.omit))
    case 6 => Count(c.goals.server_affinity != -1, c.goals.server_affinity)
    case 7 => Some(Decimal(c.goals.duration))
    case 8 => Some(Decimal(c.goals.bytes))
    case 9 => Some(Decimal(c.goals.blocks))
    case 10 => Count(c.shape.mss != 0, c.shape.mss)
    case 11 => Flag(c.shape.no_delay)
    case 12 => Some(Decimal(c.shape.num_streams))
    case 13 => Flag(c.shape.reverse)
    case 14 => Flag(c.shape.bidirectional)
    case 15 => Flag(c.shape.mptcp)
    case 16 => Count(c.rates.socket_bufsize != 0, c.rates.socket_bufsize)
    case 17 => Count(c.rates.blksize != 0, c.rates.blksize)
    case 18 => Count(c.rates.rate != 0, c.rates.rate)
    case 19 => Count(c.rates.fqrate != 0, c.rates.fqrate)
    case 20 => Count(c.rates.pacing_timer != 0, c.rates.pacing_timer)
    case 21 => Count(c.rates.burst != 0, c.rates.burst)
    case 22 => Count(c.rates.tos != 0, c.rates.tos)
    case 23 => Count(c.rates.flowlabel != 0, c.rates.flowlabel)
    case 24 => Quote(c.texts.title)
    case 25 => Quote(c.texts.extra_data)
    case 26 => Quote(c.texts.congestion)
    case 27 => Quote(c.texts.congestion_used)
    case 28 => Count(c.flags.get_server_output != 0, c.flags.get_server_output)
    case 29 => Count(c.flags.udp_counters_64bit != 0, c.flags.udp_counters_64bit)
    case 30 => Count(c.flags.repeating_payload != 0, c.flags.repeating_payload)
    case 31 => Count(c.flags.zerocopy != 0, c.flags.zerocopy)
    case 32 => Count(c.flags.dont_fragment != 0, c.flags.dont_fragment)
    case 33 => Count(c.flags.skip_rx_copy != 0, c.flags.skip_rx_copy)
    case 34 => Some(Quoted(Ascii("3.20+")))
    case _ => None
  }

  /** The parameters from the i-th on, each with a comma in front of it. */
  function Listed(i: nat, c: Params): Text
    decreases 35 - i
  {
    if i >= 35 then []
    else
      (match Value(i, c)
       case None => []
       case Some(t) => [0x2C] + Quoted(Ascii(Word(i))) + [0x3A] + t)
      + Listed(i + 1, c)
  }

  /** All of them between braces; there is always a first one, which has no comma in front of it. */
  function ParametersText(c: Params): Text {
    var all := Listed(0, c);
    [0x7B] + (if all == [] then [] else all[1..]) + [0x7D]
  }

  // ---- Each key

  function Place(k: Key): nat {
    match k
    case KTcp => 0
    case KUdp => 1
    case KSctp => 2
    case KQuic => 3
    case KQuicPort => 4
    case KOmit => 5
    case KServerAffinity => 6
    case KTime => 7
    case KNum => 8
    case KBlockcount => 9
    case KMss => 10
    case KNodelay => 11
    case KParallel => 12
    case KReverse => 13
    case KBidirectional => 14
    case KMptcp => 15
    case KWindow => 16
    case KLen => 17
    case KBandwidth => 18
    case KFqrate => 19
    case KPacingTimer => 20
    case KBurst => 21
    case KTos => 22
    case KFlowlabel => 23
    case KTitle => 24
    case KExtraData => 25
    case KCongestion => 26
    case KCongestionUsed => 27
    case KGetServerOutput => 28
    case KUdpCounters64bit => 29
    case KRepeatingPayload => 30
    case KZerocopy => 31
    case KDontFragment => 32
    case KSkipRxCopy => 33
    case KClientVersion => 34
  }

  lemma FirstWords(k: Key)
    requires Place(k) < 10
    ensures Name(k) == Ascii(Word(Place(k)))
  {
  }

  lemma NextWords(k: Key)
    requires 10 <= Place(k) < 20
    ensures Name(k) == Ascii(Word(Place(k)))
  {
  }

  lemma LaterWords(k: Key)
    requires 20 <= Place(k) < 28
    ensures Name(k) == Ascii(Word(Place(k)))
  {
  }

  lemma LastWords(k: Key)
    requires Place(k) >= 28
    ensures Name(k) == Ascii(Word(Place(k)))
  {
  }

  lemma FirstValues(k: Key, c: Params)
    requires Place(k) < 16
    ensures Value(Place(k), c) == match Sent(c, k) case None => None case Some(v) => Some(Render(v, false, 1))
  {
  }

  lemma LaterValues(k: Key, c: Params)
    requires Place(k) >= 16
    ensures Value(Place(k), c) == match Sent(c, k) case None => None case Some(v) => Some(Render(v, false, 1))
  {
  }

  lemma FirstPlaces(i: nat)
    requires i < 18
    ensures Place(ORDER[i]) == i
  {
  }

  lemma LaterPlaces(i: nat)
    requires 18 <= i < 27
    ensures Place(ORDER[i]) == i
  {
  }

  lemma LastPlaces(i: nat)
    requires 27 <= i < 35
    ensures Place(ORDER[i]) == i
  {
  }

  /** Everything about the i-th parameter. */
  lemma SentInPlace(i: nat, k: Key, c: Params)
    requires i < 35 && k == ORDER[i]
    ensures Name(k) == Ascii(Word(i))
    ensures Value(i, c) == match Sent(c, k) case None => None case Some(v) => Some(Render(v, false, 1))
  {
    if i < 18 {
      FirstPlaces(i);
    } else if i < 27 {
      LaterPlaces(i);
    } else {
      LastPlaces(i);
    }
    if i < 10 {
      FirstWords(k);
    } else if i < 20 {
      NextWords(k);
    } else if i < 28 {
      LaterWords(k);
    } else {
      LastWords(k);
    }
    if i < 16 {
      FirstValues(k, c);
    } else {
      LaterValues(k, c);
    }
  }

  // ---- The whole text

  /** The members of an object, unformatted, each with a comma in front of it. */
  function Prefixed(m: seq<Member>): Text {
    if m == [] then []
    else [COMMA] + Quoted(m[0].key) + [COLON] + Render(m[0].value, false, 1) + Prefixed(m[1..])
  }

  lemma MemberText(m: Member, last: bool)
    ensures RenderMember(m, last, false, 1)
         == Quoted(m.key) + [COLON] + Render(m.value, false, 1) + if last then [] else [COMMA]
  {
    assert [] + Quoted(m.key) == Quoted(m.key);
    assert (if last then [] else [COMMA]) + [] == if last then [] else [COMMA];
  }

  lemma Regroup(a: Text, b: Text, c: Text, d: Text, e: Text, rest: Text)
    ensures a + (b + c + d + e + rest) == a + b + c + d + (e + rest)
  {
  }

  lemma {:induction false} MembersPrefixed(m: seq<Member>)
    requires m != []
    ensures [COMMA] + RenderMembers(m, false, 1) == Prefixed(m)
  {
    var first, last := m[0], |m| == 1;
    var comma: Text := if last then [] else [COMMA];
    var rest := RenderMembers(m[1..], false, 1);
    MemberText(first, last);
    Regroup([COMMA], Quoted(first.key), [COLON], Render(first.value, false, 1), comma, rest);
    if !last {
      MembersPrefixed(m[1..]);
    }
  }

  lemma EntryListed(k: Key, v: Option<Json>, rest: seq<Member>)
    ensures Prefixed(Entry(k, v) + rest)
         == (if v.Some? then [COMMA] + Quoted(Name(k)) + [COLON] + Render(v.value, false, 1) else []) + Prefixed(rest)
  {
    if v.Some? {
      assert (Entry(k, v) + rest)[1..] == rest;
    } else {
      assert [] + rest == rest && [] + Prefixed(rest) == Prefixed(rest);
    }
  }

  lemma {:induction false} EntriesListed(i: nat, keys: seq<Key>, c: Params)
    requires i <= 35 && keys == ORDER[i..]
    ensures Prefixed(Entries(keys, c)) == Listed(i, c)
    decreases 35 - i
  {
    if i < 35 {
      SentInPlace(i, keys[0], c);
      EntriesListed(i + 1, keys[1..], c);
      EntryListed(keys[0], Sent(c, keys[0]), Entries(keys[1..], c));
    }
  }

  lemma ObjectText(m: seq<Member>, all: Text)
    requires all == Prefixed(m)
    ensures Render(Object(m), false, 0) == [0x7B] + (if all == [] then [] else all[1..]) + [0x7D]
  {
    var rest := RenderMembers(m, false, 1);
    assert Closing(false, 0) == [RBRACE];
    if m != [] {
      MembersPrefixed(m);
      assert ([COMMA] + rest)[1..] == rest;
    }
  }

  lemma ParametersAreEntries(c: Params, m: seq<Member>)
    requires m == Entries(ORDER, c)
    ensures ParametersJson(c) == Object(m) && Prefixed(m) == Listed(0, c)
  {
    assert ORDER[0..] == ORDER;
    EntriesListed(0, ORDER, c);
  }

  /** What the client writes is this text, whatever its parameters. */
  lemma ParametersAreWritten(c: Params)
    ensures Render(ParametersJson(c), false, 0) == ParametersText(c)
  {
    ParametersAreEntries(c, Entries(ORDER, c));
    ObjectText(Entries(ORDER, c), Listed(0, c));
  }
}
