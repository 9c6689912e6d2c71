/** The events of a scheduler, the order of their keys, and what a queue of events owes its users. */
module SchedulerEvents {
  import opened Options

  datatype Event = Event(ts: nat, uid: nat)

  predicate Less(a: Event, b: Event) {
    a.ts < b.ts || (a.ts == b.ts && a.uid < b.uid)
  }

  /** In a queue in order, events with rising times come first to last, and those with the same time by rising
      number. */
  lemma SortedMeans(s: seq<Event>, i: nat, j: nat)
    requires SortedList(s) && i < j < |s|
    ensures s[i].ts <= s[j].ts && (s[i].ts == s[j].ts ==> s[i].uid <= s[j].uid)
  {
    assert InPlace(s, i, j);
  }

  /** A least event has the earliest time, and the lowest number among those of that time. */
  lemma LeastMeans(events: multiset<Event>, e: Event)
    ensures LeastOf(events, e) <==>
            e in events && forall x :: x in events ==> e.ts < x.ts || (e.ts == x.ts && e.uid <= x.uid)
  {
    if LeastOf(events, e) {
      forall x | x in events
        ensures e.ts < x.ts || (e.ts == x.ts && e.uid <= x.uid)
      {
        assert !Less(x, e);
      }
    }
  }

  predicate InPlace(s: seq<Event>, i: nat, j: nat)
    requires i < j < |s|
  {
    !Less(s[j], s[i])
  }

  predicate SortedList(s: seq<Event>) {
    forall i, j {:trigger InPlace(s, i, j)} :: 0 <= i < j < |s| ==> InPlace(s, i, j)
  }

  lemma FirstIsLeast(s: seq<Event>, e: Event)
    requires SortedList(s) && e in s
    ensures !Less(e, s[0])
  {
    var i :| 0 <= i < |s| && s[i] == e;
    assert i > 0 ==> InPlace(s, 0, i);
  }

  lemma ConsSorted(e: Event, s: seq<Event>)
    requires SortedList(s) && forall x :: x in s ==> !Less(x, e)
    ensures SortedList([e] + s)
  {
    var all := [e] + s;
    forall i, j | 0 <= i < j < |all|
      ensures InPlace(all, i, j)
    {
      assert all[j] == s[j - 1];
      assert i > 0 ==> all[i] == s[i - 1] && InPlace(s, i - 1, j - 1);
    }
  }

  // ----- Any queue that takes out a least event gives them in order -------------------------------

  /** n removals, one after another. */
  function TakeOut<Q>(take: Q -> Option<(Q, Event)>, q: Q, n: nat): (Q, seq<Event>)
    decreases n
  {
    if n == 0 then (q, [])
    else
      match take(q)
      case None => (q, [])
      case Some((r, next)) =>
        var (left, rest) := TakeOut(take, r, n - 1);
        (left, [next] + rest)
  }

  ghost predicate LeastOf(events: multiset<Event>, e: Event) {
    e in events && forall x :: x in events ==> !Less(x, e)
  }

  /** What a removal owes: nothing if there is no event, and otherwise a least one of them. */
  ghost predicate Takes<Q>(ok: Q -> bool, events: Q -> multiset<Event>, q: Q, taken: Option<(Q, Event)>) {
    match taken
    case None => events(q) == multiset{}
    case Some((r, next)) => LeastOf(events(q), next) && events(r) == events(q) - multiset{next} && ok(r)
  }

  ghost predicate TakesNext<Q(!new)>(ok: Q -> bool, events: Q -> multiset<Event>, take: Q -> Option<(Q, Event)>) {
    forall q {:trigger take(q)} :: ok(q) ==> Takes(ok, events, q, take(q))
  }

  /** The events s came out in order, as many as were asked for if there are that many. */
  ghost predicate TakenFrom(events: multiset<Event>, n: nat, s: seq<Event>, left: multiset<Event>) {
    left + multiset(s) == events && SortedList(s) && |s| == if n <= |events| then n else |events|
  }

  lemma NothingTaken(events: multiset<Event>, n: nat)
    requires n == 0 || events == multiset{}
    ensures TakenFrom(events, n, [], events)
  {
  }

  lemma OneTaken(events: multiset<Event>, n: nat, next: Event, rest: seq<Event>, left: multiset<Event>)
    requires LeastOf(events, next) && TakenFrom(events - multiset{next}, n, rest, left)
    ensures TakenFrom(events, n + 1, [next] + rest, left)
  {
    forall x | x in rest
      ensures !Less(x, next)
    {
      assert x in left + multiset(rest);
    }
    ConsSorted(next, rest);
    assert multiset([next] + rest) == multiset{next} + multiset(rest);
    assert events == (events - multiset{next}) + multiset{next};
  }

  lemma NoneOut<Q(!new)>(ok: Q -> bool, events: Q -> multiset<Event>, take: Q -> Option<(Q, Event)>, q: Q, n: nat)
    requires TakesNext(ok, events, take) && ok(q) && (n == 0 || take(q) == None)
    ensures TakeOut(take, q, n) == (q, []) && TakenFrom(events(q), n, [], events(q))
  {
    assert Takes(ok, events, q, take(q));
    NothingTaken(events(q), n);
  }

  lemma OneOut<Q(!new)>(ok: Q -> bool, events: Q -> multiset<Event>, take: Q -> Option<(Q, Event)>, q: Q, n: nat,
                        left: Q, s: seq<Event>)
    returns (r: Q, next: Event, rest: seq<Event>)
    requires TakesNext(ok, events, take) && ok(q) && n > 0 && take(q).Some? && TakeOut(take, q, n) == (left, s)
    ensures LeastOf(events(q), next) && events(r) == events(q) - multiset{next} && ok(r)
    ensures TakeOut(take, r, n - 1) == (left, rest) && s == [next] + rest
  {
    assert Takes(ok, events, q, take(q));
    r, next := take(q).value.0, take(q).value.1;
    rest := TakeOut(take, r, n - 1).1;
  }

  lemma {:induction false} TakenInOrder<Q(!new)>(ok: Q -> bool, events: Q -> multiset<Event>, take: Q -> Option<(Q, Event)>,
                                           q: Q, n: nat, left: Q, s: seq<Event>)
    requires TakesNext(ok, events, take) && ok(q) && TakeOut(take, q, n) == (left, s)
    ensures ok(left) && TakenFrom(events(q), n, s, events(left))
    decreases n
  {
    if n == 0 || take(q) == None {
      NoneOut(ok, events, take, q, n);
    } else {
      var r, next, rest := OneOut(ok, events, take, q, n, left, s);
      TakenInOrder(ok, events, take, r, n - 1, left, rest);
      OneTaken(events(q), n - 1, next, rest, events(left));
    }
  }
}
