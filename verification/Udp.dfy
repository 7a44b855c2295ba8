/** UDP sequence accounting: loss estimated in constant storage, against the set of numbers that never came. */
module Udp {
  import opened Widths

  // ---- What a receiver should report, from all numbers that arrived

  ghost function Highest(arrivals: seq<nat>): nat {
    if arrivals == [] then 0
    else
      var h, p := Highest(arrivals[..|arrivals| - 1]), arrivals[|arrivals| - 1];
      if p > h then p else h
  }

  ghost function Seen(arrivals: seq<nat>): set<nat> {
    set p | p in arrivals && p >= 1
  }

  ghost function UpTo(n: nat): (r: set<nat>)
    ensures forall k :: k in r <==> 1 <= k <= n
  {
    if n == 0 then {} else UpTo(n - 1) + {n}
  }

  /** The numbers below the highest that never arrived. */
  ghost function Missing(arrivals: seq<nat>): set<nat> {
    UpTo(Highest(arrivals)) - Seen(arrivals)
  }

  /** Arrivals that bring no new number: duplicates, and the number 0, which no sender uses. */
  ghost function Surplus(arrivals: seq<nat>): int {
    |arrivals| - |Seen(arrivals)|
  }

  ghost predicate NoDuplicates(arrivals: seq<nat>) {
    (forall i :: 0 <= i < |arrivals| ==> arrivals[i] >= 1)
    && forall i, j :: 0 <= i < j < |arrivals| ==> arrivals[i] != arrivals[j]
  }

  // ---- What the receiver computes

  datatype Counters = Counters(packet_count: nat, outoforder_packets: nat, cnt_error: nat)

  ghost function Count(c: Counters, pcount: nat): Counters {
    if pcount > c.packet_count then
      Counters(pcount, c.outoforder_packets, c.cnt_error + (pcount - 1 - c.packet_count))
    else Counters(c.packet_count, c.outoforder_packets + 1, if c.cnt_error > 0 then c.cnt_error - 1 else 0)
  }

  ghost function CountAll(arrivals: seq<nat>): Counters {
    if arrivals == [] then Counters(0, 0, 0)
    else Count(CountAll(arrivals[..|arrivals| - 1]), arrivals[|arrivals| - 1])
  }

  class Receiver {
    var packet_count: nat
    var outoforder_packets: nat
    var cnt_error: nat
    ghost var arrivals: seq<nat>

    ghost predicate Valid()
      reads this
    {
      Counters(packet_count, outoforder_packets, cnt_error) == CountAll(arrivals)
    }

    constructor ()
      ensures Valid() && arrivals == []
    {
      packet_count, outoforder_packets, cnt_error, arrivals := 0, 0, 0, [];
    }

    /** The part of iperf_udp_recv that looks at sequence numbers. */
    method Receive(pcount: nat)
      requires Valid()
      modifies this
      ensures Valid() && arrivals == old(arrivals) + [pcount]
    {
      if pcount >= packet_count + 1 {
        if pcount > packet_count + 1 {
          cnt_error := cnt_error + ((pcount - 1) - packet_count);
        }
        packet_count := pcount;
      } else {
        outoforder_packets := outoforder_packets + 1;
        if cnt_error > 0 {
          cnt_error := cnt_error - 1;
        }
      }
      arrivals := arrivals + [pcount];
      assert arrivals[..|arrivals| - 1] == old(arrivals);
    }

    /** What the three counters mean to whoever reads them off, after any arrivals in any order. */
    method Report() returns (highest: nat, lost: nat, late: nat)
      requires Valid()
      ensures highest == Highest(arrivals)
      ensures |Missing(arrivals)| - Surplus(arrivals) <= lost <= |Missing(arrivals)|
      ensures NoDuplicates(arrivals) ==> lost == |Missing(arrivals)| && lost + |arrivals| == highest
      ensures RisenBy(arrivals, lost) && late == |Late(arrivals)|
    {
      LossBounds(arrivals);
      LossExactly(arrivals);
      OutOfOrderExactly(arrivals);
      MissingCount(arrivals);
      if NoDuplicates(arrivals) {
        NoSurplus(arrivals);
      }
      highest, lost, late := packet_count, cnt_error, outoforder_packets;
    }
  }

  // ---- The estimate is right

  lemma SeenGrows(arrivals: seq<nat>, p: nat)
    ensures Seen(arrivals + [p]) == if p >= 1 then Seen(arrivals) + {p} else Seen(arrivals)
  {
  }

  lemma {:induction false} SeenBelowHighest(arrivals: seq<nat>)
    ensures Seen(arrivals) <= UpTo(Highest(arrivals))
  {
    if arrivals != [] {
      var rest, p := arrivals[..|arrivals| - 1], arrivals[|arrivals| - 1];
      assert arrivals == rest + [p];
      SeenBelowHighest(rest);
      SeenGrows(rest, p);
    }
  }

  lemma {:induction false} UpToCount(n: nat)
    ensures |UpTo(n)| == n
  {
    if n > 0 {
      UpToCount(n - 1);
    }
  }

  lemma MissingCount(arrivals: seq<nat>)
    ensures |Missing(arrivals)| == Highest(arrivals) - |Seen(arrivals)|
  {
    SeenBelowHighest(arrivals);
    UpToCount(Highest(arrivals));
    assert Missing(arrivals) + Seen(arrivals) == UpTo(Highest(arrivals));
  }

  lemma {:induction false} HighestCounted(arrivals: seq<nat>)
    ensures CountAll(arrivals).packet_count == Highest(arrivals)
  {
    if arrivals != [] {
      HighestCounted(arrivals[..|arrivals| - 1]);
    }
  }

  /** The loss count never exceeds what is missing, and falls short of it by the surplus arrivals at most. */
  lemma {:induction false} LossBounds(arrivals: seq<nat>)
    ensures CountAll(arrivals).packet_count == Highest(arrivals)
    ensures |Missing(arrivals)| - Surplus(arrivals) <= CountAll(arrivals).cnt_error <= |Missing(arrivals)|
  {
    HighestCounted(arrivals);
    MissingCount(arrivals);
    if arrivals != [] {
      var rest, p := arrivals[..|arrivals| - 1], arrivals[|arrivals| - 1];
      assert arrivals == rest + [p];
      LossBounds(rest);
      MissingCount(rest);
      SeenGrows(rest, p);
      SeenBelowHighest(rest);
      if p in UpTo(Highest(rest)) && p !in Seen(rest) {
        assert p in Missing(rest);
      }
    }
  }

  // ---- What the counters are, whatever arrives

  /** How far the highest number is ahead of the number of arrivals; negative when there are more of those. */
  ghost function Lead(arrivals: seq<nat>): int {
    Highest(arrivals) - |arrivals|
  }

  lemma LeadGrows(arrivals: seq<nat>, p: nat, all: seq<nat>)
    requires all == arrivals + [p]
    ensures Highest(all) == if p > Highest(arrivals) then p else Highest(arrivals)
    ensures Lead(all) == Lead(arrivals) - 1 + if p > Highest(arrivals) then p - Highest(arrivals) else 0
  {
    assert all[..|all| - 1] == arrivals;
  }

  /** The loss count is how much the lead has risen above its lowest point. */
  ghost predicate RisenBy(arrivals: seq<nat>, n: nat) {
    && (forall k :: 0 <= k <= |arrivals| ==> Lead(arrivals) - Lead(arrivals[..k]) <= n)
    && exists k :: 0 <= k <= |arrivals| && Lead(arrivals) - Lead(arrivals[..k]) == n
  }

  lemma RisenOn(rest: seq<nat>, p: nat, all: seq<nat>, before: nat, after: nat)
    requires all == rest + [p] && RisenBy(rest, before)
    requires var d := Lead(all) - Lead(rest); after == if before + d > 0 then before + d else 0
    ensures RisenBy(all, after)
  {
    forall k | 0 <= k <= |rest| ensures all[..k] == rest[..k] {}
    assert all[..|all|] == all;
    var d := Lead(all) - Lead(rest);
    if before + d > 0 {
      var k :| 0 <= k <= |rest| && Lead(rest) - Lead(rest[..k]) == before;
      assert Lead(all) - Lead(all[..k]) == after;
    } else {
      assert Lead(all) - Lead(all[..|all|]) == after;
    }
    forall k | 0 <= k <= |all| ensures Lead(all) - Lead(all[..k]) <= after {
      if k <= |rest| {
        assert Lead(rest) - Lead(rest[..k]) <= before;
      }
    }
  }

  /** For every arrival sequence, duplicates and all: the exact loss count. */
  lemma {:induction false} LossExactly(arrivals: seq<nat>)
    ensures RisenBy(arrivals, CountAll(arrivals).cnt_error)
  {
    if arrivals == [] {
      assert arrivals[..0] == arrivals;
    } else {
      var rest, p := arrivals[..|arrivals| - 1], arrivals[|arrivals| - 1];
      assert arrivals == rest + [p];
      LossExactly(rest);
      HighestCounted(rest);
      LeadGrows(rest, p, arrivals);
      RisenOn(rest, p, arrivals, CountAll(rest).cnt_error, CountAll(arrivals).cnt_error);
    }
  }

  /** The places at which a number arrived that was no higher than all before it. */
  ghost function Late(arrivals: seq<nat>): set<nat> {
    set k | 0 <= k < |arrivals| && arrivals[k] <= Highest(arrivals[..k])
  }

  lemma LateGrows(rest: seq<nat>, p: nat, all: seq<nat>)
    requires all == rest + [p]
    ensures Late(all) == Late(rest) + if p <= Highest(rest) then {|rest|} else {}
  {
    assert forall k :: 0 <= k < |rest| ==> all[k] == rest[k];
    forall k | 0 <= k <= |rest| ensures all[..k] == rest[..k] {}
    assert rest[..|rest|] == rest;
  }

  lemma {:induction false} OutOfOrderExactly(arrivals: seq<nat>)
    ensures CountAll(arrivals).outoforder_packets == |Late(arrivals)|
  {
    if arrivals == [] {
      assert Late(arrivals) == {};
    } else {
      var rest, p := arrivals[..|arrivals| - 1], arrivals[|arrivals| - 1];
      assert arrivals == rest + [p];
      OutOfOrderExactly(rest);
      HighestCounted(rest);
      LateGrows(rest, p, arrivals);
    }
  }

  lemma {:induction false} NoSurplus(arrivals: seq<nat>)
    requires NoDuplicates(arrivals)
    ensures Surplus(arrivals) == 0
  {
    if arrivals != [] {
      var rest, p := arrivals[..|arrivals| - 1], arrivals[|arrivals| - 1];
      assert arrivals == rest + [p];
      NoSurplus(rest);
      SeenGrows(rest, p);
    }
  }

  /** Without duplicates the order of arrival does not matter to the loss count. */
  lemma OrderDoesNotMatter(a: seq<nat>, b: seq<nat>)
    requires NoDuplicates(a) && NoDuplicates(b) && (forall p :: p in a <==> p in b)
    ensures CountAll(a).cnt_error == CountAll(b).cnt_error == |Missing(a)|
    ensures CountAll(a).packet_count == CountAll(b).packet_count
  {
    LossBounds(a);
    LossBounds(b);
    NoSurplus(a);
    NoSurplus(b);
    assert Seen(a) == Seen(b);
    HighestInSeen(a);
    HighestInSeen(b);
    SeenBelowHighest(a);
    SeenBelowHighest(b);
  }

  lemma {:induction false} HighestInSeen(arrivals: seq<nat>)
    ensures Highest(arrivals) == 0 || Highest(arrivals) in Seen(arrivals)
  {
    if arrivals != [] {
      var rest, p := arrivals[..|arrivals| - 1], arrivals[|arrivals| - 1];
      assert arrivals == rest + [p];
      HighestInSeen(rest);
      SeenGrows(rest, p);
    }
  }

  // ---- The sender's numbers

  /** What a packet carries: 64 bits, or only the low 32. */
  function OnWire(number: nat, wide: bool): nat {
    if wide then number else number % TWO_32
  }

  class Sender {
    const wide: bool
    var packet_count: nat
    /** The numbers of all packets that went out. */
    ghost var sent: seq<nat>

    ghost predicate Valid()
      reads this
    {
      |sent| == packet_count && forall k :: 0 <= k < |sent| ==> sent[k] == OnWire(k + 1, wide)
    }

    constructor (wide: bool)
      ensures Valid() && sent == [] && this.wide == wide
    {
      this.wide := wide;
      packet_count, sent := 0, [];
    }

    /** The numbering of iperf_udp_send; `r` is what Nwrite returns. */
    method Send(r: int) returns (pcount: nat)
      requires Valid()
      modifies this
      ensures Valid() && sent == if r > 0 then old(sent) + [pcount] else old(sent)
    {
      packet_count := packet_count + 1;
      pcount := OnWire(packet_count, wide);
      if r <= 0 {
        packet_count := packet_count - 1;
      } else {
        sent := sent + [pcount];
      }
    }
  }

  ghost predicate Numbered(sent: seq<nat>, wide: bool) {
    forall k :: 0 <= k < |sent| ==> sent[k] == OnWire(k + 1, wide)
  }

  /** The packets that went out are numbered 1 to n exactly when the counter on the wire is wide enough. */
  lemma WideEnough(sent: seq<nat>, wide: bool)
    requires Numbered(sent, wide)
    ensures (forall k :: 0 <= k < |sent| ==> sent[k] == k + 1) <==> wide || |sent| < 4_294_967_296
  {
    if !wide && |sent| >= TWO_32 {
      assert sent[TWO_32 - 1] == 0;
    }
  }

  /** Whatever the network loses, reorders or repeats, nobody sees more than was sent. */
  lemma EndToEnd(sent: seq<nat>, arrivals: seq<nat>)
    requires forall k :: 0 <= k < |sent| ==> sent[k] == k + 1
    requires forall p <- arrivals :: p in sent
    ensures CountAll(arrivals).packet_count <= |sent|
    ensures CountAll(arrivals).cnt_error + |Seen(arrivals)| <= CountAll(arrivals).packet_count
    ensures NoDuplicates(arrivals) ==> CountAll(arrivals).cnt_error + |arrivals| == CountAll(arrivals).packet_count
  {
    LossBounds(arrivals);
    MissingCount(arrivals);
    HighestInSeen(arrivals);
    if NoDuplicates(arrivals) {
      NoSurplus(arrivals);
    }
  }
}
