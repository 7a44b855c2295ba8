/** Timestamps of 32-bit seconds and microseconds, and the arithmetic under the timers. */
module Times {
  import opened Widths

  const MILLION := 1000000
  const TWO_64 := 0x1_0000_0000_0000_0000

  /** Where the clock starts over. */
  const HORIZON := TWO_32 * MILLION

  datatype Time = Time(secs: nat, usecs: nat) {
    /** A timestamp as the clock delivers it. */
    predicate Valid() {
      secs < TWO_32 && usecs < MILLION
    }

    /** iperf_time_in_usecs */
    function InUsecs(): nat {
      secs * MILLION + usecs
    }
  }

  /** iperf_time_add_usecs: the sum wraps at 64 bits, the seconds at 32. */
  function AddUsecs(t: Time, usecs: nat): Time {
    var total := (t.usecs + usecs) % TWO_64;
    Time((t.secs + total / MILLION) % TWO_32, total % MILLION)
  }

  /** Adding is exact, up to the clock's own wrap-around. */
  lemma AddIsExact(t: Time, usecs: nat)
    requires t.Valid() && usecs < TWO_64 - MILLION
    ensures AddUsecs(t, usecs).Valid()
    ensures AddUsecs(t, usecs).InUsecs() == (t.InUsecs() + usecs) % HORIZON
    ensures var r := AddUsecs(t, usecs);
      && r.usecs < 1_000_000
      && r.secs * 1_000_000 + r.usecs == (t.secs * 1_000_000 + t.usecs + usecs) % 4_294_967_296_000_000
  {
    var total := t.usecs + usecs;
    var secs := t.secs + total / MILLION;
    var wraps := secs / TWO_32;
    assert secs == TWO_32 * wraps + secs % TWO_32;
    var r := AddUsecs(t, usecs);
    assert r == Time(secs % TWO_32, total % MILLION);
    RemainderOfHorizon(t.InUsecs() + usecs, wraps, r.InUsecs());
  }

  lemma RemainderOfHorizon(n: nat, wraps: int, r: nat)
    requires r < HORIZON && n == HORIZON * wraps + r
    ensures n % HORIZON == r
  {
  }

  lemma AddBeforeHorizon(t: Time, usecs: nat)
    requires t.Valid() && t.InUsecs() + usecs < HORIZON
    ensures AddUsecs(t, usecs).Valid() && AddUsecs(t, usecs).InUsecs() == t.InUsecs() + usecs
  {
    AddIsExact(t, usecs);
  }

  /** iperf_time_compare */
  function Compare(a: Time, b: Time): int {
    if a.secs < b.secs then -1
    else if a.secs > b.secs then 1
    else if a.usecs < b.usecs then -1
    else if a.usecs > b.usecs then 1
    else 0
  }

  /** Comparing field by field compares the microseconds since the clock's start. */
  lemma CompareOrders(a: Time, b: Time)
    requires a.Valid() && b.Valid()
    ensures Compare(a, b) < 0 <==> a.InUsecs() < b.InUsecs()
    ensures Compare(a, b) > 0 <==> a.InUsecs() > b.InUsecs()
    ensures Compare(a, b) == 0 <==> a == b
  {
    if a.secs < b.secs {
      assert (a.secs + 1) * MILLION <= b.secs * MILLION;
    } else if a.secs > b.secs {
      assert (b.secs + 1) * MILLION <= a.secs * MILLION;
    }
  }

  /** iperf_time_diff: the distance between two timestamps, and whether the first is not after the second. */
  method Diff(a: Time, b: Time) returns (past: bool, diff: Time)
    requires a.Valid() && b.Valid()
    ensures diff.Valid()
    ensures past <==> a.InUsecs() <= b.InUsecs()
    ensures diff.InUsecs() == if past then b.InUsecs() - a.InUsecs() else a.InUsecs() - b.InUsecs()
    ensures diff.InUsecs() == diff.secs * 1_000_000 + diff.usecs
  {
    CompareOrders(a, b);
    var cmp := Compare(a, b);
    if cmp == 0 {
      diff, past := Time(0, 0), true;
    } else if cmp == 1 {
      past := false;
      diff := Subtract(a, b);
    } else {
      past := true;
      diff := Subtract(b, a);
    }
  }

  /** The later timestamp minus the earlier one, with a borrow. */
  method Subtract(a: Time, b: Time) returns (diff: Time)
    requires a.Valid() && b.Valid() && a.InUsecs() >= b.InUsecs()
    ensures diff.Valid() && diff.InUsecs() == a.InUsecs() - b.InUsecs()
  {
    CompareOrders(a, b);
    var secs, usecs := a.secs - b.secs, a.usecs;
    if usecs < b.usecs {
      secs := secs - 1;
      usecs := usecs + MILLION;
    }
    usecs := usecs - b.usecs;
    diff := Time(secs, usecs);
  }
}
