/** The bound on sends that a QUIC stream leaves with the transport. */
module QuicSend {

  const QUIC_MAX_PENDING_SENDS := 32

  /** What can happen to one stream's sends, one critical section or one call into the transport at a time. */
  datatype Event = Reserve | Accepted | Rejected | Completed

  /**
   * One stream's counter, and what has become of the blocks for which its worker has passed the gate: the one that
   * is on its way to the transport, and those that the transport holds. A rejected block ends the worker.
   */
  datatype Sends = Sends(pending_sends: nat, reserved: nat, outstanding: nat, ended: bool) {

    /** The counter is exact but for a rejected block, which it never gives back. */
    ghost predicate Valid() {
      && pending_sends == reserved + outstanding + (if ended then 1 else 0) <= QUIC_MAX_PENDING_SENDS
      && reserved <= (if ended then 0 else 1)
    }
  }

  const START := Sends(0, 0, 0, false)

  predicate Enabled(s: Sends, e: Event) {
    match e
    case Reserve => !s.ended && s.reserved == 0 && s.pending_sends < QUIC_MAX_PENDING_SENDS
    case Accepted => s.reserved > 0
    case Rejected => s.reserved > 0
    case Completed => s.outstanding > 0
  }

  function Step(s: Sends, e: Event): Sends
    requires Enabled(s, e)
  {
    match e
    case Reserve => s.(pending_sends := s.pending_sends + 1, reserved := s.reserved + 1)
    case Accepted => s.(reserved := s.reserved - 1, outstanding := s.outstanding + 1)
    case Rejected => s.(reserved := s.reserved - 1, ended := true)
    case Completed =>
      s.(pending_sends := if s.pending_sends > 0 then s.pending_sends - 1 else 0, outstanding := s.outstanding - 1)
  }

  // ---- The critical sections

  class SendGate {
    var pending_sends: nat
    ghost var sends: Sends

    ghost predicate Valid()
      reads this
    {
      sends.Valid() && sends.pending_sends == pending_sends
    }

    constructor ()
      ensures Valid() && sends == START
    {
      pending_sends := 0;
      sends := START;
    }

    /** The critical section of iperf_quic_send; `over` tells that the stream or the test is over. */
    method Pass(over: bool) returns (through: bool)
      requires Valid() && !sends.ended && sends.reserved == 0
      modifies this
      ensures Valid() && through == (!over && Enabled(old(sends), Reserve))
      ensures through == (!over && old(pending_sends) < 32)
      ensures sends == if through then Step(old(sends), Reserve) else old(sends)
    {
      through := pending_sends < QUIC_MAX_PENDING_SENDS && !over;
      if through {
        pending_sends := pending_sends + 1;
        sends := Step(sends, Reserve);
      }
    }

    /** StreamSend after the gate: the transport takes the block, or the send fails and the worker with it. */
    ghost method Submit(accepted: bool)
      requires Valid() && sends.reserved > 0
      modifies this`sends
      ensures Valid() && sends == Step(old(sends), if accepted then Accepted else Rejected)
    {
      sends := Step(sends, if accepted then Accepted else Rejected);
    }

    /** The send-complete case of stream_cb, for a block that the transport had accepted. */
    method Complete()
      requires Valid() && sends.outstanding > 0
      modifies this
      ensures Valid() && sends == Step(old(sends), Completed)
    {
      if pending_sends > 0 {
        pending_sends := pending_sends - 1;
      }
      sends := Step(sends, Completed);
    }
  }

  // ---- Every interleaving

  ghost predicate IsRun(s: Sends, events: seq<Event>)
    decreases |events|
  {
    events == [] || (Enabled(s, events[0]) && IsRun(Step(s, events[0]), events[1..]))
  }

  ghost function After(s: Sends, events: seq<Event>): Sends
    requires IsRun(s, events)
    decreases |events|
  {
    if events == [] then s else After(Step(s, events[0]), events[1..])
  }

  ghost function Times(events: seq<Event>, e: Event): nat {
    if events == [] then 0 else (if events[0] == e then 1 else 0) + Times(events[1..], e)
  }

  lemma {:induction false} RunCounts(s: Sends, events: seq<Event>, r: Sends)
    requires s.Valid() && IsRun(s, events) && r == After(s, events)
    ensures r.Valid()
    ensures r.reserved + r.outstanding
         == s.reserved + s.outstanding + Times(events, Reserve) - Times(events, Rejected) - Times(events, Completed)
    ensures (if r.ended then 1 else 0) == (if s.ended then 1 else 0) + Times(events, Rejected)
    decreases |events|
  {
    if events != [] {
      RunCounts(Step(s, events[0]), events[1..], r);
    }
  }

  /**
   * Over every interleaving at most one send is rejected, the transport never holds more than 32 blocks, the counter
   * is the number of blocks on their way or held if and only if none was rejected, and the gate is open as long as
   * the worker has no block on its way and the counter is below 32.
   */
  lemma CounterIsExact(events: seq<Event>)
    requires IsRun(START, events)
    ensures var r := After(START, events);
      && Times(events, Rejected) <= 1
      && r.outstanding <= r.pending_sends <= 32
      && (Enabled(r, Reserve) <==> Times(events, Rejected) == 0 && r.reserved == 0 && r.pending_sends < 32)
      && r.reserved + r.outstanding == Times(events, Reserve) - Times(events, Rejected) - Times(events, Completed)
      && (r.pending_sends == r.reserved + r.outstanding <==> Times(events, Rejected) == 0)
  {
    RunCounts(START, events, After(START, events));
  }

  /** n sends, each of which the transport takes. */
  ghost function Filling(n: nat): seq<Event> {
    if n == 0 then [] else [Reserve, Accepted] + Filling(n - 1)
  }

  lemma {:induction false} FillsUp(s: Sends, n: nat)
    requires s.Valid() && !s.ended && s.reserved == 0 && s.outstanding + n <= 32
    ensures IsRun(s, Filling(n)) && After(s, Filling(n)) == s.(pending_sends := s.pending_sends + n,
                                                               outstanding := s.outstanding + n)
    decreases n
  {
    if n > 0 {
      var one, two := Step(s, Reserve), Step(Step(s, Reserve), Accepted);
      FillsUp(two, n - 1);
      var rest := Filling(n - 1);
      assert Filling(n)[1..] == [Accepted] + rest && ([Accepted] + rest)[1..] == rest;
      assert IsRun(one, [Accepted] + rest);
    }
  }

  /** All 32 places can be taken, and then the next send has to wait. */
  lemma ThirtyTwoFit()
    ensures IsRun(START, Filling(32)) && After(START, Filling(32)).outstanding == 32
    ensures !Enabled(After(START, Filling(32)), Reserve)
  {
    FillsUp(START, 32);
  }

  /** Behind a rejected send there are only completions, and when the last one is in the counter still stands at 1. */
  lemma {:induction false} RejectedIsLast(s: Sends, events: seq<Event>, r: Sends)
    requires s.Valid() && s.ended && IsRun(s, events) && r == After(s, events)
    ensures r.ended && forall i :: 0 <= i < |events| ==> events[i] == Completed
    ensures |events| == s.outstanding - r.outstanding && r.pending_sends == r.outstanding + 1
    decreases |events|
  {
    if events != [] {
      RejectedIsLast(Step(s, events[0]), events[1..], r);
    }
  }
}
