/** The timer queue: a sorted doubly linked list of active timers and a singly linked list of free ones. */
module Timers {
  import opened Times
  import opened TimerList
  import opened Wrappers
  import opened Sequences

  class Timer {
    var usecs: nat
    var periodic: bool
    var time: Time
    var prev: Timer?
    var next: Timer?

    constructor ()
      ensures fresh(this)
    {
      usecs, periodic, time := 0, false, Time(0, 0);
      prev, next := null, null;
    }

    /** The fields that tmr_create sets, with a deadline counted from now. */
    method Start(now: Time, usecs: nat, periodic: bool)
      requires now.Valid() && usecs < TWO_64 - MILLION
      modifies this`usecs, this`periodic, this`time
      ensures time.Valid() && Snapshot() == Entry(this, (now.InUsecs() + usecs) % HORIZON, usecs, periodic)
    {
      this.usecs, this.periodic := usecs, periodic;
      AddIsExact(now, usecs);
      time := AddUsecs(now, usecs);
    }

    ghost function Snapshot(): Entry<Timer>
      reads this`usecs, this`periodic, this`time
    {
      Entry(this, time.InUsecs(), usecs, periodic)
    }
  }

  /** What the queue's timers amount to. */
  ghost function View(s: seq<Timer>): (r: seq<Entry<Timer>>)
    reads s
    ensures |r| == |s| && forall i :: 0 <= i < |s| ==> r[i] == s[i].Snapshot()
  {
    seq(|s|, i requires 0 <= i < |s| reads s => s[i].Snapshot())
  }

  ghost function At(s: seq<Timer>, i: int): Timer? {
    if 0 <= i < |s| then s[i] else null
  }

  /** The element at i knows both its neighbours. */
  ghost predicate Joined(s: seq<Timer>, i: nat)
    requires i < |s|
    reads s`prev, s`next
  {
    s[i].next == At(s, i + 1) && s[i].prev == At(s, i - 1)
  }

  /** The links of a doubly linked list. */
  ghost predicate Linked(head: Timer?, s: seq<Timer>)
    reads s`prev, s`next
  {
    head == At(s, 0) && forall i :: 0 <= i < |s| ==> Joined(s, i)
  }

  ghost predicate Follows(s: seq<Timer>, i: nat)
    requires i < |s|
    reads s`next
  {
    s[i].next == At(s, i + 1)
  }

  /** The links of the free list. */
  ghost predicate Chained(head: Timer?, s: seq<Timer>)
    reads s`next
  {
    head == At(s, 0) && forall i :: 0 <= i < |s| ==> Follows(s, i)
  }

  /** The relinking of list_remove. */
  method Unlink(head: Timer?, t: Timer, ghost s: seq<Timer>, ghost k: nat) returns (h: Timer?)
    requires Linked(head, s) && NoRepeats(s) && k < |s| && s[k] == t
    modifies s`prev, s`next
    ensures Linked(h, Removed(s, k))
  {
    assert Joined(s, k);
    h := head;
    if t.prev == null {
      h := t.next;
    } else {
      t.prev.next := t.next;
    }
    if t.next != null {
      t.next.prev := t.prev;
    }
    ghost var r := Removed(s, k);
    forall i | 0 <= i < |r| ensures Joined(r, i) {
      assert old(Joined(s, if i < k then i else i + 1));
    }
  }

  /** The relinking of list_add between two neighbours, of which either may be missing. */
  method Link(head: Timer?, t: Timer, before: Timer?, after: Timer?, ghost s: seq<Timer>, ghost k: nat)
    returns (h: Timer?)
    requires Linked(head, s) && NoRepeats(s) && k <= |s| && t !in s
    requires before == At(s, k - 1) && after == At(s, k)
    modifies s`prev, s`next, t`prev, t`next
    ensures Linked(h, Inserted(s, k, t))
  {
    h := head;
    t.prev, t.next := before, after;
    if before == null {
      h := t;
    } else {
      before.next := t;
    }
    if after != null {
      after.prev := t;
    }
    ghost var r := Inserted(s, k, t);
    forall i | 0 <= i < |r| ensures Joined(r, i) {
      assert i < k ==> old(Joined(s, i));
      assert i > k ==> old(Joined(s, i - 1));
    }
  }

  lemma ViewRemoved(s: seq<Timer>, k: nat)
    requires k < |s|
    ensures View(Removed(s, k)) == Without(View(s), k)
  {
  }

  lemma ViewInserted(s: seq<Timer>, k: nat, t: Timer)
    requires k <= |s| && (forall i :: 0 <= i < k ==> s[i].time.InUsecs() <= t.time.InUsecs())
    requires k < |s| ==> t.time.InUsecs() < s[k].time.InUsecs()
    ensures View(Inserted(s, k, t)) == Insert(View(s), t.Snapshot())
  {
    InsertPlace(View(s), t.Snapshot(), k, Insert(View(s), t.Snapshot()));
    assert View(Inserted(s, k, t)) == View(s)[..k] + [t.Snapshot()] + View(s)[k..];
  }

  lemma RemovedOnce(s: seq<Timer>, k: nat)
    requires k < |s| && NoRepeats(s)
    ensures NoRepeats(Removed(s, k)) && s[k] !in Removed(s, k) && forall t <- Removed(s, k) :: t in s
  {
  }

  lemma SameView(s: seq<Timer>, view: seq<Entry<Timer>>)
    requires |s| == |view| && forall i :: 0 <= i < |s| ==> s[i].Snapshot() == view[i]
    ensures View(s) == view
  {
  }

  lemma InsertedOnce(s: seq<Timer>, k: nat, t: Timer, free: seq<Timer>)
    requires k <= |s| && NoRepeats(s) && Disjoint(s, free) && t !in s && t !in free
    ensures NoRepeats(Inserted(s, k, t)) && Disjoint(Inserted(s, k, t), free)
  {
  }

  lemma {:induction false} NotAgain(s: seq<Timer>, t: Timer)
    requires t !in s
    ensures Find(View(s), t) == None
  {
    if s != [] {
      assert View(s)[1..] == View(s[1..]);
      NotAgain(s[1..], t);
    }
  }

  /** In a queue without repetition every timer has one entry, so that a walk can account for each of them. */
  lemma {:induction false} DistinctView(s: seq<Timer>)
    requires NoRepeats(s)
    ensures Distinct(View(s))
  {
    if s != [] {
      assert View(s)[1..] == View(s[1..]);
      NotAgain(s[1..], s[0]);
      DistinctView(s[1..]);
    }
  }

  /** How long one timer has to wait. */
  ghost function Remaining(now: nat, t: Timer): nat
    reads t`time
  {
    if t.time.InUsecs() > now then t.time.InUsecs() - now else 0
  }

  /** The least time that any of the timers has to wait. */
  ghost predicate IsWait(now: nat, wait: nat, s: seq<Timer>)
    reads s`time
  {
    (exists t <- s :: wait == Remaining(now, t)) && (forall t <- s :: wait <= Remaining(now, t))
  }

  class TimerQueue {
    var timers: Timer?
    var free_timers: Timer?
    ghost var active: seq<Timer>
    ghost var free: seq<Timer>
    ghost var Repr: set<Timer>

    /** Both lists are well linked, without repetition, and disjoint. */
    ghost predicate Shape()
      reads this, active, free
    {
      && Linked(timers, active) && Chained(free_timers, free)
      && NoRepeats(active) && NoRepeats(free) && Disjoint(active, free)
      && AllIn(active, Repr) && AllIn(free, Repr)
    }

    ghost predicate Valid()
      reads this, active, free
    {
      Shape() && (forall i :: 0 <= i < |active| ==> active[i].time.Valid()) && Sorted(View(active))
    }

    constructor ()
      ensures Valid() && active == [] && free == [] && Repr == {}
    {
      timers, free_timers := null, null;
      active, free, Repr := [], [], {};
    }

    /** list_remove */
    method ListRemove(t: Timer) returns (ghost k: nat)
      requires Shape() && t in active
      modifies this`timers, this`active, active`prev, active`next
      ensures k < |old(active)| && old(active)[k] == t && active == Removed(old(active), k)
      ensures Shape() && t !in active && t in Repr && View(active) == Without(old(View(active)), k)
    {
      k :| 0 <= k < |active| && active[k] == t;
      timers := Unlink(timers, t, active, k);
      assert Chained(free_timers, free);
      assert View(active) == old(View(active));
      ViewRemoved(active, k);
      RemovedOnce(active, k);
      active := Removed(active, k);
    }

    /** Where list_add puts a timer: behind everything that is not due later. */
    method FindPlace(t: Timer) returns (before: Timer?, after: Timer?, ghost k: nat)
      requires Valid() && t.time.Valid()
      ensures k <= |active| && before == At(active, k - 1) && after == At(active, k)
      ensures forall i :: 0 <= i < k ==> active[i].time.InUsecs() <= t.time.InUsecs()
      ensures k < |active| ==> t.time.InUsecs() < active[k].time.InUsecs()
    {
      before, after, k := null, timers, 0;
      while after != null
        invariant k <= |active| && before == At(active, k - 1) && after == At(active, k)
        invariant forall i :: 0 <= i < k ==> active[i].time.InUsecs() <= t.time.InUsecs()
        decreases |active| - k
      {
        CompareOrders(t.time, after.time);
        if Compare(t.time, after.time) < 0 {
          return;
        }
        assert Joined(active, k);
        before, after := after, after.next;
        k := k + 1;
      }
    }

    method Attach(t: Timer, before: Timer?, after: Timer?, ghost k: nat)
      requires Shape() && t !in active && t !in free && t in Repr
      requires k <= |active| && before == At(active, k - 1) && after == At(active, k)
      modifies this`timers, this`active, active`prev, active`next, t`prev, t`next
      ensures active == Inserted(old(active), k, t)
      ensures Shape()
    {
      InsertedOnce(active, k, t, free);
      timers := Link(timers, t, before, after, active, k);
      assert Chained(free_timers, free);
      active := Inserted(active, k, t);
    }

    /** list_add */
    method ListAdd(t: Timer) returns (ghost k: nat)
      requires Valid() && t !in active && t !in free && t in Repr && t.time.Valid()
      modifies this`timers, this`active, active`prev, active`next, t`prev, t`next
      ensures k <= |old(active)| && active == Inserted(old(active), k, t)
      ensures Valid() && View(active) == Insert(old(View(active)), t.Snapshot())
    {
      var before, after;
      before, after, k := FindPlace(t);
      ghost var view := Insert(View(active), t.Snapshot());
      assert Sorted(view) && View(Inserted(active, k, t)) == view by {
        InsertSorted(View(active), t.Snapshot());
        ViewInserted(active, k, t);
      }
      assert forall x <- Inserted(active, k, t) :: x.time.Valid();
      Attach(t, before, after, k);
      SameView(active, view);
    }

    /** tmr_cancel */
    method Cancel(t: Timer) returns (ghost k: nat)
      requires Valid() && t in active
      modifies this`timers, this`free_timers, this`active, this`free, active`prev, active`next
      ensures Valid() && k < |old(active)| && old(active)[k] == t && active == Removed(old(active), k)
      ensures View(active) == Without(old(View(active)), k) && free == [t] + old(free)
    {
      k := ListRemove(t);
      SortedWithout(old(View(active)), k);
      PushFree(t);
    }

    /** The half of tmr_cancel that puts a timer on the free list. */
    method PushFree(t: Timer)
      requires Shape() && t !in active && t !in free && t in Repr
      modifies this`free_timers, this`free, t`prev, t`next
      ensures Shape() && free == [t] + old(free)
    {
      t.next := free_timers;
      free_timers := t;
      t.prev := null;
      assert Linked(timers, active);
      free := [t] + free;
      forall i | 0 <= i < |free| ensures Follows(free, i) {
        assert i > 0 ==> old(Follows(free, i - 1));
      }
    }

    /** The half of tmr_create that finds a timer to use. */
    method TakeFree() returns (t: Timer)
      requires Shape()
      modifies this`free_timers, this`free, this`Repr
      ensures Shape() && t !in active && t !in free && t in Repr && Repr == old(Repr) + {t}
      ensures if old(free) == [] then fresh(t) && free == [] else t == old(free)[0] && free == old(free)[1..]
    {
      if free_timers != null {
        t := free_timers;
        assert Follows(free, 0);
        free_timers := t.next;
        ghost var s := free[1..];
        forall i | 0 <= i < |s| ensures Follows(s, i) {
          assert Follows(free, i + 1);
        }
        assert Chained(free_timers, s);
        free := s;
      } else {
        t := new Timer();
        Repr := Repr + {t};
      }
    }

    /** tmr_create */
    method Create(now: Time, usecs: nat, periodic: bool) returns (t: Timer)
      requires Valid() && now.Valid() && usecs < TWO_64 - MILLION
      modifies this, active`prev, active`next, free
      ensures Valid() && t in active
      ensures if old(free) == [] then fresh(t) && free == [] else t == old(free)[0] && free == old(free)[1..]
      ensures View(active)
           == Insert(old(View(active)), Entry(t, (now.InUsecs() + usecs) % HORIZON, usecs, periodic))
    {
      t := TakeFree();
      t.Start(now, usecs, periodic);
      SameView(active, old(View(active)));
      ghost var k := ListAdd(t);
      assert active[k] == t;
    }

    /** tmr_timeout: how long until the first of all timers is due. */
    method Timeout(now: Time) returns (r: Option<(nat, nat)>)
      requires Valid() && now.Valid()
      ensures r.None? <==> active == []
      ensures r.Some? ==> r.value.1 < MILLION && IsWait(now.InUsecs(), r.value.0 * MILLION + r.value.1, active)
    {
      if timers == null {
        return None;
      }
      var past, diff := Diff(timers.time, now);
      var usecs := if past then 0 else diff.InUsecs();
      r := Some((usecs / MILLION, usecs % MILLION));
      assert timers in active && usecs == Remaining(now.InUsecs(), timers);
      forall t | t in active ensures timers.time.InUsecs() <= t.time.InUsecs() {
        var k :| 0 <= k < |active| && active[k] == t;
        assert View(active)[0].at <= View(active)[k].at;
      }
    }

    /** list_resort, for a timer whose deadline has changed */
    method ListResort(t: Timer, ghost k: nat, ghost rest: seq<Timer>)
      requires Shape() && k < |active| && active[k] == t && rest == Removed(active, k)
      requires Sorted(View(rest)) && forall x <- active :: x.time.Valid()
      modifies this`timers, this`active, active`prev, active`next
      ensures Valid()
      ensures View(active) == Insert(old(View(rest)), t.Snapshot())
    {
      ghost var view := View(rest);
      ghost var j := ListRemove(t);
      assert j == k;
      SameView(active, view);
      j := ListAdd(t);
    }

    /** A timer that leaves the list sorted behind whatever its new deadline is. */
    lemma RestIsSorted(k: nat)
      requires Valid() && k < |active|
      ensures View(Removed(active, k)) == Without(View(active), k) && Sorted(View(Removed(active, k)))
      ensures active[k] !in Removed(active, k)
    {
      ViewRemoved(active, k);
      SortedWithout(View(active), k);
      RemovedOnce(active, k);
    }

    /** Moves a timer to a new deadline. */
    method Reschedule(t: Timer, time: Time, ghost k: nat)
      requires Valid() && k < |active| && active[k] == t && time.Valid()
      modifies this`timers, this`active, active`prev, active`next, t`time
      ensures Valid() && t.time == time
      ensures View(active) == Insert(Without(old(View(active)), k), t.Snapshot())
    {
      RestIsSorted(k);
      ghost var rest := Removed(active, k);
      ghost var view := View(rest);
      t.time := time;
      assert View(rest) == view by {
        SameView(rest, view);
      }
      assert Linked(timers, active) && Chained(free_timers, free);
      ListResort(t, k, rest);
    }

    /** tmr_reset */
    method Reset(now: Time, t: Timer) returns (ghost k: nat)
      requires Valid() && t in active && now.Valid() && t.usecs < TWO_64 - MILLION
      modifies this`timers, this`active, active`prev, active`next, t`time
      ensures Valid() && k < |old(active)| && old(active)[k] == t
      ensures View(active) == Insert(Without(old(View(active)), k),
                                     Entry(t, (now.InUsecs() + t.usecs) % HORIZON, t.usecs, t.periodic))
    {
      k :| 0 <= k < |active| && active[k] == t;
      AddIsExact(now, t.usecs);
      Reschedule(t, AddUsecs(now, t.usecs), k);
    }

    /** One turn of tmr_run: the callback has been called, the timer is rescheduled or cancelled. */
    method FireOne(t: Timer, ghost i: nat)
      requires Valid() && i < |active| && active[i] == t
      requires t.periodic ==> t.time.InUsecs() + t.usecs < HORIZON
      modifies this`timers, this`free_timers, this`active, this`free, Repr
      ensures Valid()
      ensures View(active) == Fire(old(View(active)), i)
      ensures free == (if old(t.periodic) then [] else [t]) + old(free)
    {
      if t.periodic {
        AddBeforeHorizon(t.time, t.usecs);
        ghost var e := Next(t.Snapshot());
        Reschedule(t, AddUsecs(t.time, t.usecs), i);
        assert t.Snapshot() == e;
        assert [] + free == free;
      } else {
        ghost var k := Cancel(t);
        assert k == i;
      }
    }

    /** The element behind the fired one is where the walk goes on. */
    lemma GoesOnAt(before: seq<Entry<Timer>>, i: nat, next: Timer?)
      requires i < |before| && Sorted(before) && View(active) == Fire(before, i)
      requires next == if i + 1 < |before| then before[i + 1].id else null
      ensures Onward(before, i) <= |active| && next == At(active, Onward(before, i))
    {
      FireKeepsOrder(before, i);
    }

    /** A run with outcome r has fired `done` and comes to t, which stands at position i. */
    ghost predicate Running(r: Outcome<Timer>, done: seq<Entry<Timer>>, t: Timer?, i: nat, n: nat)
      reads this, active, free
    {
      && Valid() && t == At(active, i)
      && Ticking(View(active), n, HORIZON) && Underway(r, done, View(active), i, n)
    }

    /** From one due timer to its neighbour. */
    method Turn(t: Timer, ghost r: Outcome<Timer>, ghost done: seq<Entry<Timer>>, ghost i: nat, ghost n: nat)
      returns (next: Timer?)
      requires Running(r, done, t, i, n) && t.time.InUsecs() <= n
      modifies this`timers, this`free_timers, this`active, this`free, Repr
      ensures i < |old(active)|
      ensures Running(r, done + [old(t.Snapshot())], next, Onward(old(View(active)), i), n)
      ensures Lag(View(active), n) < old(Lag(View(active), n))
      ensures free == (if old(t.periodic) then [] else [t]) + old(free)
    {
      ghost var before := View(active);
      assert Joined(active, i) && before[i] == t.Snapshot() && before[i] in before;
      next := t.next;
      WalkGoesOn(r, done, before, i, n);
      FireTicks(before, i, n, HORIZON);
      FireOne(t, i);
      GoesOnAt(before, i, next);
    }

    /** tmr_run, with callbacks that leave the queue alone; `fired` tells whose callbacks were called, in order. */
    method Run(now: Time) returns (fired: seq<Timer>)
      requires Valid() && now.Valid() && Ticking(View(active), now.InUsecs(), HORIZON)
      modifies this`timers, this`free_timers, this`active, this`free, Repr
      ensures Valid()
      ensures Positive(old(View(active)))
      ensures fired == Names(Walk(old(View(active)), 0, now.InUsecs()).fired)
      ensures View(active) == Walk(old(View(active)), 0, now.InUsecs()).list
      ensures free == Freed(Walk(old(View(active)), 0, now.InUsecs()).fired) + old(free)
    {
      fired := [];
      ghost var n, r := now.InUsecs(), Walk(View(active), 0, now.InUsecs());
      ghost var i: nat := 0;
      ghost var done: seq<Entry<Timer>> := [];
      assert [] + r.fired == r.fired;
      var t := timers;
      while t != null
        invariant Running(r, done, t, i, n)
        invariant fired == Names(done) && free == Freed(done) + old(free)
        decreases Lag(View(active), n)
      {
        CompareOrders(t.time, now);
        if Compare(t.time, now) > 0 {
          break;
        }
        ghost var e, j := t.Snapshot(), Onward(View(active), i);
        FreedOneMore(done, e, old(free));
        fired := fired + [t];
        t := Turn(t, r, done, i, n);
        done, i := done + [e], j;
      }
      WalkEnds(r, done, View(active), i, n);
    }
  }
}
