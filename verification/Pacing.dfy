/** Rate pacing: how far a stream may get ahead of its target rate, over all sends, checks and sleeps. */
module Pacing {

  const SEC_TO_US := 1000000
  const SEC_TO_NS := 1000000000

  const NET_SOFTERROR := -1

  /** What converting a quotient by zero to 64 bits yields on the usual hardware; C leaves it undefined. */
  const INDEFINITE := 0x8000_0000_0000_0000

  /** Microseconds between two readings of a clock that counts nanoseconds; each reading drops the rest. */
  function Elapsed(start: nat, now: nat): nat
    requires start <= now
  {
    now / 1000 - start / 1000
  }

  function BitsPerSecond(bits: nat, usecs: nat): nat {
    if usecs == 0 then INDEFINITE else bits * SEC_TO_US / usecs
  }

  /** Bits that are ahead of the rate, without the fraction; never negative where it is used. */
  function DeltaBits(bits: nat, usecs: nat, rate: nat): int {
    (bits * SEC_TO_US - usecs * rate) / SEC_TO_US
  }

  /** How long to sleep, in nanoseconds. */
  function TimeToGreenLight(delta: nat, rate: nat): nat
    requires rate > 0
  {
    SEC_TO_NS * delta / rate
  }

  /** At most this much is ahead of the rate: `blocks` bursts of bits, one bit, and one microsecond of the rate. */
  ghost predicate Paced(bits: nat, elapsed: nat, rate: nat, slack: nat) {
    bits * 1_000_000_000 <= rate * (elapsed + 1000) + (slack + 1) * 1_000_000_000
  }

  // ---- Arithmetic of one check

  lemma QuotientBelow(a: nat, d: nat, r: int)
    requires d > 0
    ensures a / d < r <==> a < r * d
  {
    var q := a / d;
    assert q * d <= a < (q + 1) * d by {
      assert a == d * q + a % d;
    }
    if q < r {
      TimesMonotone(q + 1, r, d);
    } else {
      TimesMonotone(r, q, d);
    }
  }

  lemma TimesMonotone(a: int, b: int, d: nat)
    requires a <= b
    ensures a * d <= b * d
  {
  }

  /** A green light from the average rate alone. */
  lemma GreenByRate(bits: nat, start: nat, now: nat, rate: nat)
    requires start <= now && 0 < rate < INDEFINITE
    requires BitsPerSecond(bits, Elapsed(start, now)) < rate
    ensures Paced(bits, now - start, rate, 0)
  {
    var usecs := Elapsed(start, now);
    QuotientBelow(bits * SEC_TO_US, usecs, rate);
    assert usecs * 1000 <= now - start + 999;
    TimesMonotone(usecs * 1000, now - start + 1000, rate);
    assert rate * usecs * 1000 == usecs * 1000 * rate;
  }

  /** Ahead of the rate there is something to wait for. */
  lemma AheadOfRate(bits: nat, usecs: nat, rate: nat)
    requires 0 < rate < INDEFINITE && BitsPerSecond(bits, usecs) > rate
    ensures DeltaBits(bits, usecs, rate) >= 0
  {
    if usecs > 0 {
      QuotientBelow(bits * SEC_TO_US, usecs, rate);
    }
  }

  /** A green light after sleeping as long as was computed. */
  lemma GreenBySleep(bits: nat, start: nat, now: nat, wake: nat, rate: nat)
    requires start <= now && 0 < rate && DeltaBits(bits, Elapsed(start, now), rate) >= 0
    requires wake >= now + TimeToGreenLight(DeltaBits(bits, Elapsed(start, now), rate), rate)
    ensures Paced(bits, wake - start, rate, 0)
  {
    var usecs := Elapsed(start, now);
    var delta := DeltaBits(bits, usecs, rate);
    var sleep := TimeToGreenLight(delta, rate);
    QuotientBelow(SEC_TO_NS * delta, rate, sleep + 1);
    assert bits * SEC_TO_US - usecs * rate < (delta + 1) * SEC_TO_US;
    assert usecs * 1000 <= now - start + 999;
    TimesMonotone(usecs * 1000 + sleep + 1, wake - start + 1000, rate);
    assert (usecs * 1000 + sleep + 1) * rate == usecs * rate * 1000 + (sleep + 1) * rate;
  }

  // ---- The light is not red for longer than it must be

  /** The two readings are less than a microsecond off. */
  lemma ElapsedIsClose(start: nat, now: nat)
    requires start <= now
    ensures now - start - 1000 < Elapsed(start, now) * 1000 < now - start + 1000
  {
  }

  /** A sender that lags behind its rate by a microsecond of it gets a green light at once. */
  lemma BehindIsGreen(bits: nat, start: nat, now: nat, rate: nat)
    requires start + 1000 <= now && rate > 0 && bits * 1_000_000_000 < rate * (now - start - 1000)
    ensures BitsPerSecond(bits, Elapsed(start, now)) < rate
  {
    var usecs := Elapsed(start, now);
    ElapsedIsClose(start, now);
    TimesMonotone(now - start - 1000, usecs * 1000, rate);
    assert rate * (now - start - 1000) == (now - start - 1000) * rate;
    assert usecs * 1000 * rate == rate * usecs * 1000;
    QuotientBelow(bits * SEC_TO_US, usecs, rate);
  }

  /** A sender that is ahead by a microsecond, and by one bit in every second, has to wait. */
  lemma AheadIsRed(bits: nat, start: nat, now: nat, rate: nat)
    requires start <= now && 0 < rate < INDEFINITE
    requires bits * 1_000_000_000 >= (rate + 1) * (now - start + 1000)
    ensures BitsPerSecond(bits, Elapsed(start, now)) > rate
  {
    var usecs := Elapsed(start, now);
    ElapsedIsClose(start, now);
    TimesMonotone(usecs * 1000, now - start + 1000, rate + 1);
    assert (rate + 1) * (now - start + 1000) == (now - start + 1000) * (rate + 1);
    assert usecs * 1000 * (rate + 1) == (rate + 1) * usecs * 1000;
    if usecs > 0 {
      QuotientBelow(bits * SEC_TO_US, usecs, rate + 1);
    }
  }

  /** The computed sleep ends no later than the rate has caught up with the bits. */
  lemma SleepIsNoLonger(bits: nat, usecs: nat, rate: nat)
    requires rate > 0 && DeltaBits(bits, usecs, rate) >= 0
    ensures rate * (usecs * 1000 + TimeToGreenLight(DeltaBits(bits, usecs, rate), rate)) <= bits * 1_000_000_000
  {
    var delta := DeltaBits(bits, usecs, rate);
    var sleep := TimeToGreenLight(delta, rate);
    QuotientBelow(SEC_TO_NS * delta, rate, sleep);
    assert sleep * rate <= SEC_TO_NS * delta;
    assert delta * SEC_TO_US <= bits * SEC_TO_US - usecs * rate;
    assert rate * (usecs * 1000 + sleep) == usecs * rate * 1000 + sleep * rate;
  }

  // ---- Sending

  /** What goes out in the first k sends. */
  ghost function Sum(results: seq<int>): int {
    if results == [] then 0 else Sum(results[..|results| - 1]) + results[|results| - 1]
  }

  /** The loop of at most `turns` sends ends behind k of them: with the last one, or at the first that fails. */
  ghost predicate EndsBehind(results: seq<int>, turns: nat, k: nat) {
    && k <= |results| && k <= turns && (forall i :: 0 <= i < k ==> results[i] >= 0)
    && (k < |results| && k < turns ==> results[k] < 0)
  }

  lemma LaterIsPaced(bits: nat, elapsed: nat, later: nat, rate: nat, slack: nat, more: nat)
    requires Paced(bits, elapsed, rate, slack) && elapsed <= later && slack <= more
    ensures Paced(bits, later, rate, more)
  {
    TimesMonotone(elapsed + 1000, later + 1000, rate);
  }

  /** What k blocks come to, added up one by one. */
  ghost function Blocks(k: nat, blksize: nat): nat {
    if k == 0 then 0 else Blocks(k - 1, blksize) + blksize
  }

  lemma {:induction false} BlocksAre(k: nat, blksize: nat)
    ensures Blocks(k, blksize) == k * blksize
  {
    if k > 0 {
      BlocksAre(k - 1, blksize);
      assert (k - 1) * blksize + blksize == k * blksize;
    }
  }

  class Sender {
    const rate: nat
    const blksize: nat
    const burst: nat
    const start: nat
    var bytes_sent: nat
    var green_light: bool
    /** The last time at which anything happened. */
    ghost var clock: nat

    /** Bits that may go out between two checks. */
    ghost function Burst(): nat {
      8 * blksize * (if burst == 0 then 1 else burst)
    }

    /** The pacing bound. */
    ghost predicate Bounded()
      reads this
    {
      start <= clock && Paced(8 * bytes_sent, clock - start, rate, Burst())
    }

    /** Between two calls a green light promises room for a whole burst. */
    ghost predicate Valid()
      reads this
    {
      0 < rate < INDEFINITE && Bounded() && (green_light ==> Paced(8 * bytes_sent, clock - start, rate, 0))
    }

    constructor (rate: nat, blksize: nat, burst: nat, start: nat)
      requires 0 < rate < INDEFINITE
      ensures Valid() && bytes_sent == 0 && clock == start
      ensures this.rate == rate && this.blksize == blksize && this.burst == burst && this.start == start
    {
      this.rate, this.blksize, this.burst, this.start := rate, blksize, burst, start;
      bytes_sent, green_light, clock := 0, true, start;
    }

    /** iperf_check_throttle at time `now`; a sleep lasts `extra` longer than asked for, or is not `completed`. */
    method CheckThrottle(now: nat, extra: nat, completed: bool)
      requires 0 < rate < INDEFINITE && Bounded() && clock <= now
      modifies this`green_light, this`clock
      ensures Valid() && clock >= now
      ensures var bps := BitsPerSecond(8 * bytes_sent, Elapsed(start, now));
        && green_light == (bps < rate || (bps > rate && completed))
        && clock == now + if bps > rate && completed
                          then TimeToGreenLight(DeltaBits(8 * bytes_sent, Elapsed(start, now), rate), rate) + extra
                          else 0
    {
      var usecs := Elapsed(start, now);
      var bits_sent := bytes_sent * 8;
      var missing_rate := rate - BitsPerSecond(bits_sent, usecs);
      green_light := missing_rate > 0;
      LaterIsPaced(bits_sent, clock - start, now - start, rate, Burst(), Burst());
      clock := now;
      if green_light {
        GreenByRate(bits_sent, start, now, rate);
      }
      if missing_rate < 0 {
        AheadOfRate(bits_sent, usecs, rate);
        var delta_bits := DeltaBits(bits_sent, usecs, rate);
        var time_to_green_light := TimeToGreenLight(delta_bits, rate);
        ghost var wake := now + time_to_green_light + extra;
        if completed {
          GreenBySleep(bits_sent, start, now, wake, rate);
          LaterIsPaced(bits_sent, now - start, wake - start, rate, Burst(), Burst());
          clock := wake;
          green_light := true;
        }
      }
    }

    /** One block of at most blksize bytes goes out. */
    method Send(r: nat, ghost slack: nat)
      requires r <= blksize && start <= clock && Paced(8 * bytes_sent, clock - start, rate, slack)
      modifies this`bytes_sent
      ensures bytes_sent == old(bytes_sent) + r
      ensures Paced(8 * bytes_sent, clock - start, rate, slack + 8 * blksize)
    {
      bytes_sent := bytes_sent + r;
    }

    lemma BurstRoom(k: nat)
      requires k <= if burst == 0 then 1 else burst
      ensures 8 * Blocks(k, blksize) <= Burst() && Blocks(k, blksize) <= Burst() / 8
    {
      BlocksAre(k, blksize);
      TimesMonotone(k, if burst == 0 then 1 else burst, blksize);
    }

    /**
     * The sends of iperf_send_mt under a green light; `results` end where a byte or block goal is met. k blocks go
     * out; the one that fails, if any, is the only one behind them that is tried.
     */
    method SendBlocks(results: seq<int>) returns (hard: bool, ghost k: nat)
      requires Valid() && green_light && forall x <- results :: x <= blksize
      modifies this`bytes_sent
      ensures Bounded() && EndsBehind(results, if burst == 0 then 1 else burst, k)
      ensures bytes_sent == old(bytes_sent) + Sum(results[..k])
      ensures hard <==> k < |results| && k < (if burst == 0 then 1 else burst) && results[k] != -1
      ensures old(bytes_sent) <= bytes_sent <= old(bytes_sent) + Burst() / 8
    {
      var multisend := if burst != 0 then burst else 1;
      hard, k := false, 0;
      var i: nat := 0;
      ghost var slack: nat := 0;
      while multisend > 0 && i < |results|
        invariant 0 <= multisend && multisend + i == (if burst != 0 then burst else 1) && i <= |results|
        invariant forall j :: 0 <= j < i ==> results[j] >= 0
        invariant slack == 8 * Blocks(i, blksize) && Paced(8 * bytes_sent, clock - start, rate, slack)
        invariant old(bytes_sent) <= bytes_sent <= old(bytes_sent) + Blocks(i, blksize)
        invariant bytes_sent == old(bytes_sent) + Sum(results[..i]) && !hard
        decreases multisend
      {
        var r := results[i];
        assert r in results;
        if r < 0 {
          hard := r != NET_SOFTERROR;
          break;
        }
        Send(r, slack);
        assert results[..i + 1][..i] == results[..i];
        slack := slack + 8 * blksize;
        i := i + 1;
        multisend := multisend - 1;
      }
      k := i;
      BurstRoom(k);
      LaterIsPaced(8 * bytes_sent, clock - start, clock - start, rate, slack, Burst());
    }

    /**
     * iperf_send_mt, with a rate to keep. Without a burst the loop has one turn and the check comes right behind its
     * send; with one, the check comes behind the loop. Only a hard error leaves without a check.
     */
    method SendMt(results: seq<int>, now: nat, extra: nat, completed: bool) returns (hard: bool, ghost k: nat)
      requires Valid() && clock <= now && forall x <- results :: x <= blksize
      modifies this
      ensures Bounded() && (!hard ==> Valid() && clock >= now)
      ensures old(bytes_sent) <= bytes_sent <= old(bytes_sent) + Burst() / 8
      ensures !old(green_light) ==> bytes_sent == old(bytes_sent) && !hard
      ensures old(green_light) ==>
        && EndsBehind(results, if burst == 0 then 1 else burst, k)
        && bytes_sent == old(bytes_sent) + Sum(results[..k])
        && (hard <==> k < |results| && k < (if burst == 0 then 1 else burst) && results[k] != -1)
      ensures if hard then green_light && clock == old(clock)
              else var bps := BitsPerSecond(8 * bytes_sent, Elapsed(start, now));
                   green_light == (bps < rate || (bps > rate && completed))
    {
      hard, k := false, 0;
      if green_light {
        hard, k := SendBlocks(results);
        if hard {
          return;
        }
      }
      CheckThrottle(now, extra, completed);
    }
  }
}
