/** Roles, modes and stream numbers: what the two sides must agree on without telling each other. */
module Streams {

  datatype Mode = SENDER | RECEIVER | BIDIRECTIONAL

  datatype Stream = Stream(id: nat, sender: bool)

  /** The number that iperf_add_stream gives to the stream behind `count` others. */
  function StreamId(count: nat): nat {
    if count == 0 then 1 else count + 2
  }

  /** iperf_add_stream */
  function AddStream(streams: seq<Stream>, sender: bool): seq<Stream> {
    streams + [Stream(StreamId(|streams|), sender)]
  }

  function ClientMode(reverse: bool, bidirectional: bool): Mode {
    if bidirectional then BIDIRECTIONAL else if reverse then RECEIVER else SENDER
  }

  /** The mode of a server whose client asked for these flags. */
  function ServerMode(reverse: bool, bidirectional: bool): Mode {
    if bidirectional then BIDIRECTIONAL else if reverse then SENDER else RECEIVER
  }

  /** The directions in which the client creates its streams, as seen by the client. */
  function ClientPlan(mode: Mode, n: nat): seq<bool> {
    match mode
    case BIDIRECTIONAL => seq(n, _ => true) + seq(n, _ => false)
    case SENDER => seq(n, _ => true)
    case RECEIVER => seq(n, _ => false)
  }

  function StreamsToReceive(mode: Mode, n: nat): nat {
    if mode == SENDER then 0 else n
  }

  function StreamsToSend(mode: Mode, n: nat): nat {
    if mode == RECEIVER then 0 else n
  }

  /** The streams that result from adding one after the other. */
  function StreamsOf(plan: seq<bool>): (r: seq<Stream>)
    ensures |r| == |plan|
    ensures forall k :: 0 <= k < |plan| ==> r[k] == Stream(StreamId(k), plan[k])
  {
    seq(|plan|, k requires 0 <= k < |plan| => Stream(StreamId(k), plan[k]))
  }

  /** The same connections seen from the other end. */
  function Opposite(plan: seq<bool>): (r: seq<bool>)
    ensures |r| == |plan|
    ensures forall k :: 0 <= k < |plan| ==> r[k] == !plan[k]
  {
    seq(|plan|, k requires 0 <= k < |plan| => !plan[k])
  }

  predicate HasId(streams: seq<Stream>, id: nat) {
    exists k :: 0 <= k < |streams| && streams[k].id == id
  }

  function Ids(streams: seq<Stream>): (r: seq<nat>)
    ensures |r| == |streams|
    ensures forall k :: 0 <= k < |streams| ==> r[k] == streams[k].id
  {
    seq(|streams|, k requires 0 <= k < |streams| => streams[k].id)
  }

  /** get_results finds the stream of every identifier that the peer reports. */
  predicate AllFound(streams: seq<Stream>, ids: seq<nat>) {
    forall k :: 0 <= k < |ids| ==> HasId(streams, ids[k])
  }

  /** The server takes all streams it receives on first, then those it sends on; that is the client's order. */
  lemma AcceptOrderIsCreateOrder(reverse: bool, bidirectional: bool, n: nat, k: nat)
    requires !(reverse && bidirectional)
    requires k < |ClientPlan(ClientMode(reverse, bidirectional), n)|
    ensures |ClientPlan(ClientMode(reverse, bidirectional), n)|
         == StreamsToReceive(ServerMode(reverse, bidirectional), n)
            + StreamsToSend(ServerMode(reverse, bidirectional), n)
    ensures ClientPlan(ClientMode(reverse, bidirectional), n)[k]
         == (k < StreamsToReceive(ServerMode(reverse, bidirectional), n))
  {
  }

  /** Both sides hold the numbers 1, 3, 4 and so on, and on each exactly one side sends. */
  predicate Paired(a: seq<Stream>, b: seq<Stream>) {
    && |a| == |b|
    && (forall k :: 0 <= k < |a| ==>
          a[k].id == b[k].id == (if k == 0 then 1 else k + 2) && a[k].sender != b[k].sender)
  }

  /** The client sends on all streams, or receives on all of them, or sends on the first half of them. */
  ghost predicate AsAsked(streams: seq<Stream>, n: nat, reverse: bool, bidirectional: bool) {
    && |streams| == (if bidirectional then 2 * n else n)
    && forall k :: 0 <= k < |streams| ==> streams[k].sender == (if bidirectional then k < n else !reverse)
  }

  lemma PlanIsAsAsked(n: nat, reverse: bool, bidirectional: bool)
    ensures AsAsked(StreamsOf(ClientPlan(ClientMode(reverse, bidirectional), n)), n, reverse, bidirectional)
  {
  }

  lemma PairedNumbers(a: seq<Stream>, b: seq<Stream>)
    requires Paired(a, b)
    ensures forall j, k :: 0 <= j < k < |a| ==> a[j].id < a[k].id
    ensures AllFound(a, Ids(b)) && AllFound(b, Ids(a))
  {
    forall k | 0 <= k < |a| ensures HasId(a, Ids(b)[k]) && HasId(b, Ids(a)[k]) {
      assert a[k].id == Ids(b)[k] && b[k].id == Ids(a)[k];
    }
  }

  lemma OppositeIsPaired(plan: seq<bool>)
    ensures Paired(StreamsOf(plan), StreamsOf(Opposite(plan)))
  {
  }
}
