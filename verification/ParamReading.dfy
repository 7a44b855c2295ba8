/** What a server makes of any parameters object, its own client's or not. */
module ParamReading {
  import opened JsonTree
  import opened Streams
  import opened Wrappers
  import opened Params

  /** The values of the parameters that are counts: whatever is no number is not looked at. */
  ghost predicate Numeric(k: Key) {
    k in {KQuicPort, KOmit, KServerAffinity, KTime, KNum, KBlockcount, KMss, KParallel, KWindow, KLen, KBandwidth,
          KFqrate, KPacingTimer, KBurst, KTos, KFlowlabel, KGetServerOutput, KUdpCounters64bit, KRepeatingPayload,
          KZerocopy, KDontFragment}
  }

  ghost predicate Boolean(k: Key) {
    k in {KTcp, KUdp, KSctp, KQuic, KNodelay, KReverse, KBidirectional, KMptcp}
  }

  ghost predicate Textual(k: Key) {
    k in {KTitle, KExtraData, KCongestion, KCongestionUsed}
  }

  /** The types that count; of the last key the program takes any value. */
  ghost predicate Counts(k: Key, j: Json) {
    || (Numeric(k) && j.Number?) || (Boolean(k) && (j.True? || j.False?)) || (Textual(k) && j.String?)
    || k == KSkipRxCopy
  }

  /** What two objects have in common if they differ only in values of a type that does not count. */
  ghost predicate Alike(a: Getter, b: Getter, k: Key) {
    var x, y := a(k), b(k);
    if x.Some? && Counts(k, x.value) then y == x else y.None? || !Counts(k, y.value)
  }

  lemma NumbersAlike(a: Getter, b: Getter, k: Key, n: int)
    requires Alike(a, b, k) && Numeric(k)
    ensures IntOr(a, k, n) == IntOr(b, k, n) && HasNumber(a, k) == HasNumber(b, k)
  {
  }

  lemma BooleansAlike(a: Getter, b: Getter, k: Key)
    requires Alike(a, b, k) && Boolean(k)
    ensures HasBool(a, k) == HasBool(b, k)
  {
  }

  lemma TextsAlike(a: Getter, b: Getter, s: Texts)
    requires forall k :: Alike(a, b, k)
    ensures ReceivedTexts(s, a) == ReceivedTexts(s, b)
  {
    assert Alike(a, b, KTitle) && Alike(a, b, KExtraData) && Alike(a, b, KCongestion) && Alike(a, b, KCongestionUsed);
  }

  lemma GoalsAlike(a: Getter, b: Getter, s: Goals)
    requires forall k :: Alike(a, b, k)
    ensures ReceivedGoals(s, a) == ReceivedGoals(s, b)
  {
    NumbersAlike(a, b, KQuicPort, s.quic_port);
    NumbersAlike(a, b, KOmit, s.omit);
    NumbersAlike(a, b, KServerAffinity, s.server_affinity);
    NumbersAlike(a, b, KTime, s.duration);
    NumbersAlike(a, b, KNum, 0);
    NumbersAlike(a, b, KBlockcount, 0);
  }

  lemma ShapeAlike(a: Getter, b: Getter, s: Shape, mode: Mode)
    requires forall k :: Alike(a, b, k)
    ensures ReceivedShape(s, a) == ReceivedShape(s, b) && ReceivedMode(mode, a) == ReceivedMode(mode, b)
  {
    NumbersAlike(a, b, KMss, s.mss);
    NumbersAlike(a, b, KParallel, s.num_streams);
    BooleansAlike(a, b, KNodelay);
    BooleansAlike(a, b, KReverse);
    BooleansAlike(a, b, KBidirectional);
    BooleansAlike(a, b, KMptcp);
  }

  lemma RatesAlike(a: Getter, b: Getter, s: Rates)
    requires forall k :: Alike(a, b, k)
    ensures ReceivedRates(s, a) == ReceivedRates(s, b)
  {
    NumbersAlike(a, b, KWindow, s.socket_bufsize);
    NumbersAlike(a, b, KLen, s.blksize);
    NumbersAlike(a, b, KBandwidth, s.rate);
    NumbersAlike(a, b, KFqrate, s.fqrate);
    NumbersAlike(a, b, KPacingTimer, s.pacing_timer);
    NumbersAlike(a, b, KBurst, s.burst);
    NumbersAlike(a, b, KTos, s.tos);
    NumbersAlike(a, b, KFlowlabel, s.flowlabel);
  }

  lemma FlagsAlike(a: Getter, b: Getter, s: Flags)
    requires forall k :: Alike(a, b, k)
    ensures ReceivedFlags(s, a) == ReceivedFlags(s, b)
  {
    NumbersAlike(a, b, KGetServerOutput, 0);
    NumbersAlike(a, b, KUdpCounters64bit, 0);
    NumbersAlike(a, b, KRepeatingPayload, 0);
    NumbersAlike(a, b, KZerocopy, s.zerocopy);
    NumbersAlike(a, b, KDontFragment, s.dont_fragment);
    assert Alike(a, b, KSkipRxCopy);
  }

  lemma ProtocolAlike(a: Getter, b: Getter, p: Protocol, diskfile: bool)
    requires forall k :: Alike(a, b, k)
    ensures ReceivedProtocol(p, a, diskfile) == ReceivedProtocol(p, b, diskfile) && HasBool(a, KUdp) == HasBool(b, KUdp)
  {
    BooleansAlike(a, b, KTcp);
    BooleansAlike(a, b, KUdp);
    BooleansAlike(a, b, KSctp);
    BooleansAlike(a, b, KQuic);
  }

  /** A value of a type that does not count for its key is as good as none. */
  lemma OnlyTypedValuesCount(a: Getter, b: Getter, s: Params, mode: Mode, diskfile: bool, max_server_duration: int)
    requires forall k :: Alike(a, b, k)
    ensures Received(s, a, diskfile) == Received(s, b, diskfile) && ReceivedMode(mode, a) == ReceivedMode(mode, b)
    ensures TakenFrom(s, mode, a, diskfile, max_server_duration) == TakenFrom(s, mode, b, diskfile, max_server_duration)
  {
    ProtocolAlike(a, b, s.protocol, diskfile);
    GoalsAlike(a, b, s.goals);
    ShapeAlike(a, b, s.shape, mode);
    RatesAlike(a, b, s.rates);
    TextsAlike(a, b, s.texts);
    FlagsAlike(a, b, s.flags);
  }

  /** Values of the right types: a number for each count, and for the others a value or none. */
  ghost predicate Filled(get: Getter, p: Params) {
    && get(KQuicPort) == Some(Number(p.goals.quic_port)) && get(KOmit) == Some(Number(p.goals.omit))
    && get(KServerAffinity) == Some(Number(p.goals.server_affinity)) && get(KTime) == Some(Number(p.goals.duration))
    && get(KNum) == Some(Number(p.goals.bytes)) && get(KBlockcount) == Some(Number(p.goals.blocks))
    && get(KMss) == Some(Number(p.shape.mss)) && get(KParallel) == Some(Number(p.shape.num_streams))
    && get(KWindow) == Some(Number(p.rates.socket_bufsize)) && get(KLen) == Some(Number(p.rates.blksize))
    && get(KBandwidth) == Some(Number(p.rates.rate)) && get(KFqrate) == Some(Number(p.rates.fqrate))
    && get(KPacingTimer) == Some(Number(p.rates.pacing_timer)) && get(KBurst) == Some(Number(p.rates.burst))
    && get(KTos) == Some(Number(p.rates.tos)) && get(KFlowlabel) == Some(Number(p.rates.flowlabel))
    && get(KZerocopy) == Some(Number(p.flags.zerocopy)) && get(KDontFragment) == Some(Number(p.flags.dont_fragment))
    && get(KSkipRxCopy) == Some(Number(p.flags.skip_rx_copy))
  }

  /** Every number that is there is taken as it is, 0 and negative ones included, whatever the server had before. */
  lemma NumbersAreTaken(get: Getter, p: Params, s: Params, diskfile: bool)
    requires Filled(get, p)
    ensures var r := Received(s, get, diskfile);
      && r.goals == p.goals && r.rates == p.rates
      && r.shape.mss == p.shape.mss && r.shape.num_streams == p.shape.num_streams
      && r.flags.zerocopy == p.flags.zerocopy && r.flags.dont_fragment == p.flags.dont_fragment
      && r.flags.skip_rx_copy == p.flags.skip_rx_copy
  {
  }

  /** A flag is there, with either of its values: the program takes false for true. */
  ghost predicate There(get: Getter, k: Key) {
    get(k) == Some(True) || get(k) == Some(False)
  }

  ghost predicate HasNumberAt(get: Getter, k: Key) {
    get(k).Some? && get(k).value.Number?
  }

  /** Flags only ever switch something on; false does so too, and so does a count of 0 for those that are counts. */
  lemma FlagsSwitchOn(get: Getter, s: Params, mode: Mode, diskfile: bool)
    ensures var r := Received(s, get, diskfile);
      && r.shape.no_delay == (s.shape.no_delay || There(get, KNodelay))
      && r.shape.reverse == (s.shape.reverse || There(get, KReverse))
      && r.shape.bidirectional == (s.shape.bidirectional || There(get, KBidirectional))
      && r.shape.mptcp == (s.shape.mptcp || There(get, KMptcp))
      && ReceivedMode(mode, get)
         == (if There(get, KBidirectional) then BIDIRECTIONAL else if There(get, KReverse) then SENDER else mode)
      && (r.protocol == QUIC <==> There(get, KQuic) || (s.protocol == QUIC && !There(get, KSctp)
                                  && !(There(get, KUdp) && !diskfile) && !There(get, KTcp)))
      && (There(get, KSctp) && !There(get, KQuic) ==> r.protocol == SCTP)
      && (There(get, KUdp) && !diskfile && !There(get, KSctp) && !There(get, KQuic) ==> r.protocol == UDP)
      && (There(get, KTcp) && (diskfile || !There(get, KUdp)) && !There(get, KSctp) && !There(get, KQuic)
          ==> r.protocol == TCP)
      && r.flags.get_server_output == (if HasNumberAt(get, KGetServerOutput) then 1 else s.flags.get_server_output)
      && r.flags.udp_counters_64bit == (if HasNumberAt(get, KUdpCounters64bit) then 1 else s.flags.udp_counters_64bit)
      && r.flags.repeating_payload == (if HasNumberAt(get, KRepeatingPayload) then 1 else s.flags.repeating_payload)
  {
  }

  /** The one key whose value is taken whatever its type: true counts as 1, what has no number as 0. */
  lemma AnyValueIsTaken(get: Getter, s: Flags)
    ensures ReceivedFlags(s, get).skip_rx_copy
         == match get(KSkipRxCopy)
            case None => s.skip_rx_copy
            case Some(v) => if v.Number? then v.valueint else if v == True then 1 else 0
  {
  }

  /** What an empty object leaves: everything as it was, but for the two goals that are reset. */
  lemma NothingIsKept(get: Getter, s: Params, mode: Mode, diskfile: bool)
    requires forall k {:trigger get(k)} :: get(k) == None
    ensures Received(s, get, diskfile) == s.(goals := s.goals.(bytes := 0, blocks := 0))
    ensures ReceivedMode(mode, get) == mode
  {
  }

  /** Texts that are there replace those that were. */
  lemma TextsAreTaken(get: Getter, s: Texts)
    ensures var r := ReceivedTexts(s, get);
      && r.title == (match get(KTitle) case Some(String(t)) => Some(t) case _ => s.title)
      && r.extra_data == (match get(KExtraData) case Some(String(t)) => Some(t) case _ => s.extra_data)
      && r.congestion == (match get(KCongestion) case Some(String(t)) => Some(t) case _ => s.congestion)
      && r.congestion_used == (match get(KCongestionUsed) case Some(String(t)) => Some(t) case _ => s.congestion_used)
  {
  }

  /** Exactly what a server refuses of what its client sends: a long text, UDP over a file, or too long a test. */
  lemma RefusedExactlyWhen(c: Params, diskfile: bool, max_server_duration: int)
    ensures Refused(c, diskfile, max_server_duration) <==>
      || |Render(ParametersJson(c), false, 0)| > 8192
      || (diskfile && c.protocol == UDP)
      || (max_server_duration > 0 && c.goals.duration == 0)
      || (max_server_duration > 0 && c.goals.duration + c.goals.omit > max_server_duration)
  {
  }

  /** What a fresh server keeps where its client sends nothing. */
  lemma DefaultsRemain(c: Params)
    ensures var r := Received(DEFAULTS, Items(ParametersJson(c)), false);
      && r.rates.blksize == (if c.rates.blksize == 0 then 131072 else c.rates.blksize)
      && r.rates.pacing_timer == (if c.rates.pacing_timer == 0 then 1000 else c.rates.pacing_timer)
      && r.goals.quic_port == (if c.goals.quic_port > 0 then c.goals.quic_port else 0)
  {
    ParametersArrive(c);
  }
}
