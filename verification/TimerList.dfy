/** What the timer queue means: a list of deadlines, kept in order, and one walk over it. */
module TimerList {
  import opened Wrappers

  /** A timer as it stands in the queue: who it is, when it is due, and what happens then. */
  datatype Entry<Id> = Entry(id: Id, at: nat, period: nat, periodic: bool)

  ghost predicate Sorted<Id>(list: seq<Entry<Id>>) {
    forall i, j :: 0 <= i < j < |list| ==> list[i].at <= list[j].at
  }

  ghost predicate Positive<Id>(list: seq<Entry<Id>>) {
    forall e <- list :: e.periodic ==> e.period > 0
  }

  /** The entry of one timer. */
  ghost function Find<Id>(list: seq<Entry<Id>>, id: Id): Option<Entry<Id>> {
    if list == [] then None else if list[0].id == id then Some(list[0]) else Find(list[1..], id)
  }

  ghost predicate Distinct<Id>(list: seq<Entry<Id>>) {
    list == [] || (Find(list[1..], list[0].id).None? && Distinct(list[1..]))
  }

  /** list_add: before the first entry that is due later. */
  ghost function Insert<Id>(list: seq<Entry<Id>>, e: Entry<Id>): (r: seq<Entry<Id>>)
    ensures |r| == |list| + 1
  {
    if list == [] || e.at < list[0].at then [e] + list else [list[0]] + Insert(list[1..], e)
  }

  ghost function Without<Id>(list: seq<Entry<Id>>, i: nat): (r: seq<Entry<Id>>)
    requires i < |list|
    ensures |r| == |list| - 1
  {
    list[..i] + list[i + 1..]
  }

  lemma Splice<T>(list: seq<T>, e: T, k: nat)
    requires 0 < k <= |list|
    ensures [list[0]] + (list[1..][..k - 1] + [e] + list[1..][k - 1..]) == list[..k] + [e] + list[k..]
  {
    assert list[..k] == [list[0]] + list[1..][..k - 1];
    assert list[1..][k - 1..] == list[k..];
  }

  /** The place that Insert finds. */
  lemma {:induction false} InsertPlace<Id>(list: seq<Entry<Id>>, e: Entry<Id>, k: nat, r: seq<Entry<Id>>)
    requires k <= |list| && (forall i :: 0 <= i < k ==> list[i].at <= e.at) && (k < |list| ==> e.at < list[k].at)
    requires r == Insert(list, e)
    ensures r == list[..k] + [e] + list[k..]
  {
    if k > 0 {
      var rest := Insert(list[1..], e);
      InsertPlace(list[1..], e, k - 1, rest);
      assert r == [list[0]] + rest;
      Splice(list, e, k);
    }
  }

  lemma {:induction false} Place<Id>(list: seq<Entry<Id>>, e: Entry<Id>) returns (k: nat)
    requires Sorted(list)
    ensures k <= |list| && Insert(list, e) == list[..k] + [e] + list[k..]
    ensures forall i :: 0 <= i < k ==> list[i].at <= e.at
    ensures forall i :: k <= i < |list| ==> e.at < list[i].at
  {
    k := 0;
    while k < |list| && list[k].at <= e.at
      invariant k <= |list| && forall i :: 0 <= i < k ==> list[i].at <= e.at
    {
      k := k + 1;
    }
    InsertPlace(list, e, k, Insert(list, e));
  }

  lemma InsertSorted<Id>(list: seq<Entry<Id>>, e: Entry<Id>)
    requires Sorted(list)
    ensures Sorted(Insert(list, e))
  {
    var k := Place(list, e);
  }

  /** The entries that are due at one moment, in the order in which they stand. */
  ghost function DueAt<Id>(list: seq<Entry<Id>>, at: nat): seq<Entry<Id>> {
    if list == [] then []
    else (if list[0].at == at then [list[0]] else []) + DueAt(list[1..], at)
  }

  lemma {:induction false} NoneDueAt<Id>(list: seq<Entry<Id>>, at: nat)
    requires forall i :: 0 <= i < |list| ==> list[i].at > at
    ensures DueAt(list, at) == []
  {
    if list != [] {
      NoneDueAt(list[1..], at);
    }
  }

  lemma DueFirst<Id>(e: Entry<Id>, list: seq<Entry<Id>>, at: nat)
    ensures DueAt([e] + list, at) == (if e.at == at then [e] else []) + DueAt(list, at)
  {
    assert ([e] + list)[1..] == list;
  }

  /** First in, first out: a new timer waits behind all others with its deadline, and disturbs no other deadline. */
  lemma {:induction false} FirstInFirstOut<Id>(list: seq<Entry<Id>>, e: Entry<Id>, at: nat)
    requires Sorted(list)
    ensures DueAt(Insert(list, e), at) == DueAt(list, at) + if e.at == at then [e] else []
  {
    if list == [] || e.at < list[0].at {
      DueFirst(e, list, at);
      if e.at == at {
        NoneDueAt(list, at);
      }
    } else {
      var rest := list[1..];
      FirstInFirstOut(rest, e, at);
      DueFirst(list[0], Insert(rest, e), at);
    }
  }

  // ---- One walk over the queue

  /** How far the timers lag behind; every firing makes up for some of it. */
  ghost function Lag<Id>(list: seq<Entry<Id>>, now: nat): nat {
    if list == [] then 0
    else (if list[0].at <= now then now + 1 - list[0].at else 0) + Lag(list[1..], now)
  }

  lemma {:induction false} LagInsert<Id>(list: seq<Entry<Id>>, e: Entry<Id>, now: nat)
    ensures Lag(Insert(list, e), now) == Lag(list, now) + if e.at <= now then now + 1 - e.at else 0
  {
    if list == [] || e.at < list[0].at {
      assert ([e] + list)[1..] == list;
    } else {
      LagInsert(list[1..], e, now);
      assert ([list[0]] + Insert(list[1..], e))[1..] == Insert(list[1..], e);
    }
  }

  lemma {:induction false} LagWithout<Id>(list: seq<Entry<Id>>, i: nat, now: nat)
    requires i < |list|
    ensures Lag(list, now) == Lag(Without(list, i), now) + if list[i].at <= now then now + 1 - list[i].at else 0
  {
    if i == 0 {
      assert Without(list, i) == list[1..];
    } else {
      LagWithout(list[1..], i - 1, now);
      assert Without(list, i)[1..] == Without(list[1..], i - 1);
    }
  }

  /** The entry after one more period. */
  ghost function Next<Id>(e: Entry<Id>): Entry<Id> {
    e.(at := e.at + e.period)
  }

  /** The list after the entry at i has fired. */
  ghost function Fire<Id>(list: seq<Entry<Id>>, i: nat): seq<Entry<Id>>
    requires i < |list|
  {
    if list[i].periodic then Insert(Without(list, i), Next(list[i])) else Without(list, i)
  }

  /** Positive periods, none of which takes a due timer past the moment where the clock starts over. */
  ghost predicate Ticking<Id>(list: seq<Entry<Id>>, now: nat, horizon: nat) {
    forall e <- list :: e.periodic ==> 0 < e.period < horizon - now
  }

  /** Where in that list the old neighbour of the fired entry stands; past the end when it had none. */
  ghost function Onward<Id>(list: seq<Entry<Id>>, i: nat): (r: nat)
    requires i < |list|
    ensures r <= |Fire(list, i)|
  {
    if i + 1 == |list| then |Fire(list, i)|
    else if list[i].periodic && Next(list[i]).at < list[i + 1].at then i + 1 else i
  }

  lemma {:induction false} InsertMembers<Id>(list: seq<Entry<Id>>, e: Entry<Id>, r: seq<Entry<Id>>)
    requires r == Insert(list, e)
    ensures forall x <- r :: x in list || x == e
  {
    if list != [] && e.at >= list[0].at {
      InsertMembers(list[1..], e, Insert(list[1..], e));
      assert list == [list[0]] + list[1..];
    }
  }

  lemma WithoutMembers<Id>(list: seq<Entry<Id>>, i: nat)
    requires i < |list|
    ensures list[i] in list && forall x <- Without(list, i) :: x in list
  {
    forall x | x in Without(list, i) ensures x in list {
      var k :| 0 <= k < |list| - 1 && Without(list, i)[k] == x;
      assert list[if k < i then k else k + 1] == x;
    }
  }

  lemma FireDrops<Id>(list: seq<Entry<Id>>, i: nat, now: nat)
    requires i < |list| && list[i].at <= now && Positive(list)
    ensures Lag(Fire(list, i), now) < Lag(list, now)
    ensures Positive(Fire(list, i))
  {
    LagWithout(list, i, now);
    if list[i].periodic {
      LagInsert(Without(list, i), Next(list[i]), now);
      InsertMembers(Without(list, i), Next(list[i]), Fire(list, i));
    }
    WithoutMembers(list, i);
  }

  lemma FireTicks<Id>(list: seq<Entry<Id>>, i: nat, now: nat, horizon: nat)
    requires i < |list| && Ticking(list, now, horizon)
    ensures Ticking(Fire(list, i), now, horizon)
  {
    if list[i].periodic {
      InsertMembers(Without(list, i), Next(list[i]), Fire(list, i));
    }
    WithoutMembers(list, i);
  }

  lemma SortedWithout<Id>(list: seq<Entry<Id>>, i: nat)
    requires i < |list| && Sorted(list)
    ensures Sorted(Without(list, i))
  {
  }

  /** The one-shots among the fired timers, the last one first. */
  ghost function Freed<Id>(fired: seq<Entry<Id>>): seq<Id> {
    if fired == [] then []
    else (if fired[|fired| - 1].periodic then [] else [fired[|fired| - 1].id]) + Freed(fired[..|fired| - 1])
  }

  ghost function Names<Id>(fired: seq<Entry<Id>>): (r: seq<Id>)
    ensures |r| == |fired| && forall k :: 0 <= k < |r| ==> r[k] == fired[k].id
  {
    seq(|fired|, k requires 0 <= k < |fired| => fired[k].id)
  }

  datatype Outcome<Id> = Outcome(fired: seq<Entry<Id>>, list: seq<Entry<Id>>)

  /** The walk of tmr_run from position i on: what fires, with the deadline that was met, and the list it leaves. */
  ghost function Walk<Id>(list: seq<Entry<Id>>, i: nat, now: nat): Outcome<Id>
    requires i <= |list| && Positive(list)
    decreases Lag(list, now)
  {
    if i == |list| || list[i].at > now then Outcome([], list)
    else
      FireDrops(list, i, now);
      var r := Walk(Fire(list, i), Onward(list, i), now);
      Outcome([list[i]] + r.fired, r.list)
  }

  lemma WalkOnce<Id>(list: seq<Entry<Id>>, i: nat, now: nat, r: Outcome<Id>)
    requires Positive(list) && i < |list| && list[i].at <= now && r == Walk(list, i, now)
    ensures Lag(Fire(list, i), now) < Lag(list, now) && Positive(Fire(list, i))
    ensures var later := Walk(Fire(list, i), Onward(list, i), now); r == Outcome([list[i]] + later.fired, later.list)
  {
    FireDrops(list, i, now);
  }

  /** A walk with this outcome has fired `done` and now stands at position i of `list`. */
  ghost predicate Underway<Id>(r: Outcome<Id>, done: seq<Entry<Id>>, list: seq<Entry<Id>>, i: nat, now: nat) {
    Positive(list) && i <= |list| && var later := Walk(list, i, now); r == Outcome(done + later.fired, later.list)
  }

  lemma WalkGoesOn<Id>(r: Outcome<Id>, done: seq<Entry<Id>>, list: seq<Entry<Id>>, i: nat, now: nat)
    requires Underway(r, done, list, i, now) && i < |list| && list[i].at <= now
    ensures Lag(Fire(list, i), now) < Lag(list, now)
    ensures Underway(r, done + [list[i]], Fire(list, i), Onward(list, i), now)
  {
    WalkOnce(list, i, now, Walk(list, i, now));
    var fired := Walk(Fire(list, i), Onward(list, i), now).fired;
    assert done + ([list[i]] + fired) == done + [list[i]] + fired;
  }

  lemma WalkEnds<Id>(r: Outcome<Id>, done: seq<Entry<Id>>, list: seq<Entry<Id>>, i: nat, now: nat)
    requires Underway(r, done, list, i, now) && (i == |list| || list[i].at > now)
    ensures r == Outcome(done, list)
  {
    assert done + [] == done;
  }

  lemma FreedOneMore<Id>(done: seq<Entry<Id>>, e: Entry<Id>, free: seq<Id>)
    ensures Freed(done + [e]) + free == (if e.periodic then [] else [e.id]) + (Freed(done) + free)
    ensures Names(done + [e]) == Names(done) + [e.id]
  {
    assert (done + [e])[..|done|] == done;
    var one := if e.periodic then [] else [e.id];
    assert one + Freed(done) + free == one + (Freed(done) + free);
  }

  // ---- What the walk guarantees

  lemma FireSorted<Id>(list: seq<Entry<Id>>, i: nat)
    requires i < |list| && Sorted(list)
    ensures Sorted(Fire(list, i))
  {
    SortedWithout(list, i);
    if list[i].periodic {
      InsertSorted(Without(list, i), Next(list[i]));
    }
  }

  /** A fired periodic timer goes back somewhere at or behind its place. */
  lemma GoesBack<Id>(list: seq<Entry<Id>>, i: nat) returns (k: nat)
    requires i < |list| && Sorted(list) && list[i].periodic
    ensures i <= k < |list| && Fire(list, i) == Without(list, i)[..k] + [Next(list[i])] + Without(list, i)[k..]
    ensures i + 1 < |list| ==> (k == i <==> Next(list[i]).at < list[i + 1].at)
  {
    SortedWithout(list, i);
    k := Place(Without(list, i), Next(list[i]));
    assert i > 0 ==> Without(list, i)[i - 1] == list[i - 1];
    assert i + 1 < |list| ==> Without(list, i)[i] == list[i + 1];
  }

  /** Everything behind the fired entry stays ahead of the walk, its neighbour first. */
  lemma FireKeepsOrder<Id>(list: seq<Entry<Id>>, i: nat)
    requires i < |list| && Sorted(list)
    ensures i + 1 < |list| ==> Onward(list, i) < |Fire(list, i)| && Fire(list, i)[Onward(list, i)] == list[i + 1]
    ensures forall j :: i < j < |list| ==> list[j] in Fire(list, i)[Onward(list, i)..]
  {
    var rest, r, to := Without(list, i), Fire(list, i), Onward(list, i);
    if list[i].periodic {
      var k := GoesBack(list, i);
      forall j | i < j < |list| ensures list[j] in r[to..] {
        assert rest[j - 1] == list[j];
        var at := if j - 1 < k then j - 1 else j;
        assert r[at] == list[j] && to <= at;
        assert r[to..][at - to] == list[j];
      }
    } else {
      forall j | i < j < |list| ensures list[j] in r[to..] {
        assert r[to..][j - 1 - to] == list[j];
      }
    }
  }

  lemma SortedCons<Id>(e: Entry<Id>, list: seq<Entry<Id>>)
    requires Sorted(list) && forall x <- list :: e.at <= x.at
    ensures Sorted([e] + list)
  {
    forall j | 0 <= j < |list| ensures e.at <= list[j].at {
      assert list[j] in list;
    }
  }

  /** Only due timers fire, in the order of the deadlines they meet, and the list stays sorted. */
  lemma {:induction false} WalkInOrder<Id>(list: seq<Entry<Id>>, i: nat, now: nat, r: Outcome<Id>)
    requires i <= |list| && Positive(list) && Sorted(list) && r == Walk(list, i, now)
    ensures Sorted(r.list) && Sorted(r.fired)
    ensures forall e <- r.fired :: i < |list| && list[i].at <= e.at <= now
    decreases Lag(list, now)
  {
    if i < |list| && list[i].at <= now {
      WalkOnce(list, i, now, r);
      FireSorted(list, i);
      FireKeepsOrder(list, i);
      var next, j := Fire(list, i), Onward(list, i);
      var later := Walk(next, j, now);
      WalkInOrder(next, j, now, later);
      assert j < |next| ==> list[i].at <= next[j].at;
      SortedCons(list[i], later.fired);
    }
  }

  /** Every timer that is due when the walk comes by fires with the deadline it has. */
  lemma {:induction false} WalkFiresAllDue<Id>(list: seq<Entry<Id>>, i: nat, now: nat, r: Outcome<Id>, e: Entry<Id>)
    requires i <= |list| && Positive(list) && Sorted(list) && r == Walk(list, i, now)
    requires e in list[i..] && e.at <= now
    ensures e in r.fired
    decreases Lag(list, now)
  {
    var k :| i <= k < |list| && list[k] == e;
    WalkOnce(list, i, now, r);
    if k != i {
      FireSorted(list, i);
      FireKeepsOrder(list, i);
      WalkFiresAllDue(Fire(list, i), Onward(list, i), now, Walk(Fire(list, i), Onward(list, i), now), e);
    }
  }

  lemma {:induction false} FindInsert<Id>(list: seq<Entry<Id>>, e: Entry<Id>, id: Id)
    requires Find(list, e.id).None?
    ensures Find(Insert(list, e), id) == if id == e.id then Some(e) else Find(list, id)
  {
    if list == [] || e.at < list[0].at {
      assert ([e] + list)[1..] == list;
    } else {
      FindInsert(list[1..], e, id);
      assert ([list[0]] + Insert(list[1..], e))[1..] == Insert(list[1..], e);
    }
  }

  lemma {:induction false} DistinctInsert<Id>(list: seq<Entry<Id>>, e: Entry<Id>)
    requires Distinct(list) && Find(list, e.id).None?
    ensures Distinct(Insert(list, e))
  {
    if list == [] || e.at < list[0].at {
      assert ([e] + list)[1..] == list;
    } else {
      DistinctInsert(list[1..], e);
      FindInsert(list[1..], e, list[0].id);
      assert ([list[0]] + Insert(list[1..], e))[1..] == Insert(list[1..], e);
    }
  }

  lemma {:induction false} FindWithout<Id>(list: seq<Entry<Id>>, i: nat, id: Id)
    requires i < |list| && Distinct(list)
    ensures Find(list, list[i].id) == Some(list[i])
    ensures Find(Without(list, i), id) == if id == list[i].id then None else Find(list, id)
  {
    if i == 0 {
      assert Without(list, i) == list[1..];
    } else {
      FindWithout(list[1..], i - 1, id);
      assert Without(list, i)[1..] == Without(list[1..], i - 1);
    }
  }

  lemma {:induction false} DistinctWithout<Id>(list: seq<Entry<Id>>, i: nat)
    requires i < |list| && Distinct(list)
    ensures Distinct(Without(list, i))
  {
    if i == 0 {
      assert Without(list, i) == list[1..];
    } else {
      DistinctWithout(list[1..], i - 1);
      FindWithout(list[1..], i - 1, list[0].id);
      assert Without(list, i)[1..] == Without(list[1..], i - 1);
    }
  }

  lemma FindFire<Id>(list: seq<Entry<Id>>, i: nat, id: Id)
    requires i < |list| && Distinct(list)
    ensures Distinct(Fire(list, i)) && Find(list, list[i].id) == Some(list[i])
    ensures Find(Fire(list, i), id)
         == if id != list[i].id then Find(list, id) else if list[i].periodic then Some(Next(list[i])) else None
  {
    DistinctWithout(list, i);
    FindWithout(list, i, id);
    FindWithout(list, i, list[i].id);
    if list[i].periodic {
      FindInsert(Without(list, i), Next(list[i]), id);
      DistinctInsert(Without(list, i), Next(list[i]));
    }
  }

  /** How often a timer fired. */
  ghost function Firings<Id>(fired: seq<Entry<Id>>, id: Id): nat {
    if fired == [] then 0 else (if fired[0].id == id then 1 else 0) + Firings(fired[1..], id)
  }

  /** The entry after n more periods. */
  ghost function Later<Id>(e: Entry<Id>, n: nat): Entry<Id>
    decreases n
  {
    if n == 0 then e else Later(Next(e), n - 1)
  }

  lemma {:induction false} LaterAt<Id>(e: Entry<Id>, n: nat)
    ensures Later(e, n) == e.(at := e.at + n * e.period)
    decreases n
  {
    if n > 0 {
      LaterAt(Next(e), n - 1);
      OneMorePeriod(e.at, n - 1, e.period);
    }
  }

  /** What becomes of a timer that fires n times. */
  ghost predicate Becomes<Id>(before: Option<Entry<Id>>, after: Option<Entry<Id>>, n: nat) {
    match before
    case None => after == None && n == 0
    case Some(e) =>
      if e.periodic then after == Some(Later(e, n)) else n <= 1 && after == if n == 0 then before else None
  }

  /** The same, with the deadline of a periodic timer in closed form. */
  ghost predicate Accounts<Id>(before: Option<Entry<Id>>, after: Option<Entry<Id>>, n: nat) {
    match before
    case None => after == None && n == 0
    case Some(e) =>
      if e.periodic then after == Some(e.(at := e.at + n * e.period))
      else n <= 1 && after == if n == 0 then before else None
  }

  lemma FiringsCons<Id>(e: Entry<Id>, fired: seq<Entry<Id>>, id: Id)
    ensures Firings([e] + fired, id) == (if e.id == id then 1 else 0) + Firings(fired, id)
  {
    assert ([e] + fired)[1..] == fired;
  }

  /** One firing, and what the rest of the walk makes of the entry that it leaves. */
  lemma OneFiring<Id>(e: Entry<Id>, id: Id, before: Option<Entry<Id>>, moved: Option<Entry<Id>>,
                      after: Option<Entry<Id>>, n: nat)
    requires id == e.id ==> before == Some(e)
    requires moved == if id != e.id then before else if e.periodic then Some(Next(e)) else None
    requires Becomes(moved, after, n)
    ensures Becomes(before, after, if id == e.id then n + 1 else n)
  {
  }

  /** What the walk does at its first timer, as far as one timer is concerned. */
  lemma WalkStep<Id>(list: seq<Entry<Id>>, i: nat, now: nat, r: Outcome<Id>, id: Id)
    returns (next: seq<Entry<Id>>, j: nat, later: Outcome<Id>)
    requires i < |list| && list[i].at <= now && Positive(list) && Distinct(list) && r == Walk(list, i, now)
    ensures j <= |next| && Positive(next) && Distinct(next) && Lag(next, now) < Lag(list, now)
    ensures later == Walk(next, j, now) && r.list == later.list
    ensures Firings(r.fired, id) == Firings(later.fired, id) + if id == list[i].id then 1 else 0
    ensures id == list[i].id ==> Find(list, id) == Some(list[i])
    ensures Find(next, id)
         == if id != list[i].id then Find(list, id) else if list[i].periodic then Some(Next(list[i])) else None
  {
    WalkOnce(list, i, now, r);
    FindFire(list, i, id);
    next, j := Fire(list, i), Onward(list, i);
    later := Walk(next, j, now);
    FiringsCons(list[i], later.fired, id);
  }

  lemma NothingBecomes<Id>(before: Option<Entry<Id>>, after: Option<Entry<Id>>)
    requires after == before
    ensures Becomes(before, after, 0)
  {
  }

  lemma {:induction false} WalkCounts<Id>(list: seq<Entry<Id>>, i: nat, now: nat, r: Outcome<Id>, id: Id,
                                          before: Option<Entry<Id>>, after: Option<Entry<Id>>, n: nat)
    requires i <= |list| && Positive(list) && Distinct(list) && r == Walk(list, i, now)
    requires before == Find(list, id) && after == Find(r.list, id) && n == Firings(r.fired, id)
    ensures Becomes(before, after, n)
    decreases Lag(list, now)
  {
    if i < |list| && list[i].at <= now {
      var next, j, later := WalkStep(list, i, now, r, id);
      var moved, m := Find(next, id), Firings(later.fired, id);
      WalkCounts(next, j, now, later, id, moved, after, m);
      OneFiring(list[i], id, before, moved, after, m);
    } else {
      NothingBecomes(before, after);
    }
  }

  lemma {:induction false} WalkDistinct<Id>(list: seq<Entry<Id>>, i: nat, now: nat, r: Outcome<Id>)
    requires i <= |list| && Positive(list) && Distinct(list) && r == Walk(list, i, now)
    ensures Distinct(r.list)
    decreases Lag(list, now)
  {
    if i < |list| && list[i].at <= now {
      var next, j, later := WalkStep(list, i, now, r, list[i].id);
      WalkDistinct(next, j, now, later);
    }
  }

  /** A periodic timer moves by exactly its period per firing; a one-shot fires at most once and is then gone. */
  lemma WalkAccounts<Id>(list: seq<Entry<Id>>, i: nat, now: nat, r: Outcome<Id>, id: Id)
    requires i <= |list| && Positive(list) && Distinct(list) && r == Walk(list, i, now)
    ensures Distinct(r.list)
    ensures Accounts(Find(list, id), Find(r.list, id), Firings(r.fired, id))
  {
    var before, after, n := Find(list, id), Find(r.list, id), Firings(r.fired, id);
    WalkDistinct(list, i, now, r);
    WalkCounts(list, i, now, r, id, before, after, n);
    if before.Some? {
      LaterAt(before.value, n);
    }
  }

  lemma OneMorePeriod(at: nat, n: nat, period: nat)
    ensures at + period + n * period == at + (n + 1) * period
  {
  }

  // ---- What a run leaves due

  ghost predicate NothingDue<Id>(list: seq<Entry<Id>>, now: nat) {
    forall e <- list :: e.at > now
  }

  /** All firings up to now in the order of their deadlines, as if every due timer got its turn. */
  ghost function Schedule<Id>(list: seq<Entry<Id>>, now: nat): seq<Entry<Id>>
    requires Positive(list)
    decreases Lag(list, now)
  {
    if list == [] || list[0].at > now then []
    else
      FireDrops(list, 0, now);
      [list[0]] + Schedule(Fire(list, 0), now)
  }

  /** One timer twice in a row. */
  ghost predicate Repeats<Id>(fired: seq<Entry<Id>>) {
    |fired| >= 2 && (fired[0].id == fired[1].id || Repeats(fired[1..]))
  }

  lemma ScheduleOnce<Id>(list: seq<Entry<Id>>, now: nat, all: seq<Entry<Id>>)
    requires Positive(list) && list != [] && list[0].at <= now && all == Schedule(list, now)
    ensures Lag(Fire(list, 0), now) < Lag(list, now) && Positive(Fire(list, 0))
    ensures var rest, next := Schedule(Fire(list, 0), now), Fire(list, 0);
      && all == [list[0]] + rest
      && (Repeats(all) <==> Repeats(rest) || (next != [] && next[0].at <= now && next[0].id == list[0].id))
  {
    FireDrops(list, 0, now);
    var rest := Schedule(Fire(list, 0), now);
    assert all == [list[0]] + rest && all[1..] == rest;
    if Fire(list, 0) != [] && Fire(list, 0)[0].at <= now {
      assert rest[0] == Fire(list, 0)[0];
    }
  }

  /** The walk never comes back to what it has left behind. */
  lemma {:induction false} WalkLeavesBehind<Id>(list: seq<Entry<Id>>, i: nat, now: nat, r: Outcome<Id>)
    requires 0 < i <= |list| && Positive(list) && Sorted(list) && r == Walk(list, i, now)
    ensures r.list != [] && r.list[0] == list[0]
    decreases Lag(list, now)
  {
    if i < |list| && list[i].at <= now {
      WalkOnce(list, i, now, r);
      FireSorted(list, i);
      if list[i].periodic {
        var k := GoesBack(list, i);
      }
      assert Fire(list, i)[0] == list[0];
      WalkLeavesBehind(Fire(list, i), Onward(list, i), now, Walk(Fire(list, i), Onward(list, i), now));
    }
  }

  lemma SortedHead<Id>(list: seq<Entry<Id>>, now: nat)
    requires Sorted(list) && (list == [] || list[0].at > now)
    ensures NothingDue(list, now)
  {
  }

  /** A walk over the first entry: it goes on at the front, or it ends, or it leaves the fired timer behind for good. */
  lemma FirstStep<Id>(list: seq<Entry<Id>>, now: nat, r: Outcome<Id>)
    requires Positive(list) && Sorted(list) && Distinct(list) && list != [] && list[0].at <= now
    requires r == Walk(list, 0, now)
    ensures Positive(Fire(list, 0)) && Sorted(Fire(list, 0)) && Distinct(Fire(list, 0))
    ensures var next := Fire(list, 0);
      if next != [] && next[0].id == list[0].id
      then (NothingDue(r.list, now) <==> next[0].at > now) && (NothingDue(r.list, now) ==> r.fired == [list[0]])
      else r == Outcome([list[0]] + Walk(next, 0, now).fired, Walk(next, 0, now).list)
  {
    var e, next := list[0], Fire(list, 0);
    WalkOnce(list, 0, now, r);
    FireSorted(list, 0);
    FindFire(list, 0, e.id);
    assert |list| > 1 ==> list[1].id != e.id;
    if e.periodic {
      var k := GoesBack(list, 0);
      if k == 0 {
        assert next[0] == Next(e);
        LeftBehind(list, now, r);
      } else {
        assert next[0] == list[1];
      }
    } else {
      assert next == list[1..];
    }
  }

  lemma LeftBehind<Id>(list: seq<Entry<Id>>, now: nat, r: Outcome<Id>)
    requires Positive(list) && Sorted(list) && list != [] && list[0].at <= now && list[0].periodic
    requires Fire(list, 0) != [] && Fire(list, 0)[0] == Next(list[0]) && r == Walk(list, 0, now)
    requires Onward(list, 0) > 0 && Sorted(Fire(list, 0))
    ensures NothingDue(r.list, now) <==> Next(list[0]).at > now
    ensures NothingDue(r.list, now) ==> r.fired == [list[0]]
  {
    var next, j := Fire(list, 0), Onward(list, 0);
    WalkOnce(list, 0, now, r);
    WalkLeavesBehind(next, j, now, Walk(next, j, now));
    if next[0].at > now {
      SortedHead(next, now);
      assert r.list == next && r.fired == [list[0]] + [];
    } else {
      assert r.list[0] in r.list;
    }
  }

  /** Exactly when a run leaves nothing due: no timer would have to fire twice without another one in between. */
  lemma {:induction false} NothingDueExactlyWhen<Id>(list: seq<Entry<Id>>, now: nat, r: Outcome<Id>)
    requires Positive(list) && Sorted(list) && Distinct(list) && r == Walk(list, 0, now)
    ensures NothingDue(r.list, now) <==> !Repeats(Schedule(list, now))
    ensures NothingDue(r.list, now) ==> r.fired == Schedule(list, now)
    decreases Lag(list, now)
  {
    if list == [] || list[0].at > now {
      SortedHead(list, now);
    } else {
      var next := Fire(list, 0);
      ScheduleOnce(list, now, Schedule(list, now));
      FirstStep(list, now, r);
      if next != [] && next[0].id == list[0].id {
        assert next[0].at > now ==> Schedule(next, now) == [];
      } else {
        NothingDueExactlyWhen(next, now, Walk(next, 0, now));
      }
    }
  }

  /** Every due periodic timer will be ahead of the clock after one firing. */
  ghost predicate OnePeriodEach<Id>(list: seq<Entry<Id>>, now: nat) {
    forall e <- list :: e.periodic && e.at <= now ==> Next(e).at > now
  }

  /** What suffices: no due timer is a whole period late. */
  lemma {:induction false} OnePeriodSuffices<Id>(list: seq<Entry<Id>>, now: nat)
    requires Positive(list) && Sorted(list) && OnePeriodEach(list, now)
    ensures NothingDue(Walk(list, 0, now).list, now)
    decreases Lag(list, now)
  {
    if list == [] || list[0].at > now {
      SortedHead(list, now);
    } else {
      var e, next := list[0], Fire(list, 0);
      assert e in list;
      WalkOnce(list, 0, now, Walk(list, 0, now));
      FireSorted(list, 0);
      WithoutMembers(list, 0);
      if e.periodic {
        var k := GoesBack(list, 0);
        InsertMembers(Without(list, 0), Next(e), next);
        assert k == 0 ==> next[0] == Next(e);
      }
      if next == [] || next[0].at > now {
        SortedHead(next, now);
      } else {
        OnePeriodSuffices(next, now);
      }
    }
  }

  /** A lone periodic timer fires once, however far it lags behind, and stays due exactly if a period was not enough. */
  lemma MayStayDue<Id>(e: Entry<Id>, now: nat)
    requires e.periodic && e.period > 0 && e.at <= now
    ensures Walk([e], 0, now) == Outcome([e], [Next(e)])
    ensures NothingDue(Walk([e], 0, now).list, now) <==> Next(e).at > now
  {
    assert Without([e], 0) == [];
    FireDrops([e], 0, now);
    assert Next(e) in [Next(e)];
  }

  /** It is not necessary: here a one-shot comes between two firings of a late timer and gives it its second turn. */
  lemma OnePeriodIsNotNecessary() returns (list: seq<Entry<int>>, now: nat)
    ensures Positive(list) && Sorted(list) && Distinct(list)
    ensures !OnePeriodEach(list, now) && NothingDue(Walk(list, 0, now).list, now)
  {
    var a, b := Entry(0, 0, 5, true), Entry(1, 5, 0, false);
    var second, third := [b, Next(a)], [Next(a)];
    list, now := [a, b], 5;
    assert list[0] in list && list[1..] == [b] && Find([b], 0).None? && Distinct([b]);
    assert Without(list, 0) == [b] && Insert([b], Next(a)) == [b] + Insert([], Next(a)) == second;
    WalkOnce(list, 0, now, Walk(list, 0, now));
    assert Without(second, 0) == third;
    WalkOnce(second, 0, now, Walk(second, 0, now));
    MayStayDue(Next(a), now);
  }
}
