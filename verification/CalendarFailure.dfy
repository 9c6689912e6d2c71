/** A run on which the calendar queue divides by zero. */
module CalendarFailure {
  import opened Options
  import opened SchedulerEvents
  import opened CalendarOrder
  import opened CalendarResize
  import opened CalendarRuns

  /** A call fails exactly when the calendar is to be resized and its samples are that far apart. */
  lemma FailsIff(c: Calendar, call: Call)
    requires Valid(c) && Allowed(c, call)
    ensures Called(NewWidth, c, call) == None <==> ToResize(call, Unsettled(c, call)) && WidthVanishes(Unsettled(c, call))
  {
    NewWidthZeroIff(Unsettled(c, call));
  }

  const STEP: nat := 0x4000_0000

  function Tick(k: nat): Event {
    Event(k * STEP, k)
  }

  /** The first n ticks. */
  function Ticks(n: nat): seq<Event> {
    if n == 0 then [] else Ticks(n - 1) + [Tick(n - 1)]
  }

  function TickCalls(n: nat): seq<Call> {
    if n == 0 then [] else TickCalls(n - 1) + [Insertion(Tick(n - 1))]
  }

  /** The first calendar, with n ticks in its bucket 0. */
  function Ticking(n: nat): Calendar {
    Calendar([Ticks(n), []], 1, 0, 1, 0, n)
  }

  lemma {:induction false} TicksAt(n: nat)
    ensures |Ticks(n)| == n && forall i: nat :: i < n ==> Ticks(n)[i] == Tick(i)
  {
    if n > 0 {
      TicksAt(n - 1);
    }
  }

  lemma LaterTick(i: nat, j: nat)
    requires i <= j
    ensures !Less(Tick(j), Tick(i))
  {
  }

  lemma {:induction false} InsertedLast(s: Bucket, ev: Event)
    requires forall x :: x in s ==> !Less(ev, x)
    ensures Inserted(s, ev) == s + [ev]
  {
    if s != [] {
      InsertedLast(s[1..], ev);
    }
  }

  lemma TickHash(k: nat)
    ensures HashOf(Tick(k).ts, 1, 2) == 0
  {
    assert Tick(k).ts == 2 * (k * 0x2000_0000);
  }

  lemma TickInserted(n: nat)
    ensures WithEvent(Ticking(n), Tick(n)) == Ticking(n + 1)
  {
    TickHash(n);
    TicksAt(n);
    forall x | x in Ticks(n)
      ensures !Less(Tick(n), x)
    {
      var i: nat :| i < n && Ticks(n)[i] == x;
      LaterTick(i, n);
    }
    InsertedLast(Ticks(n), Tick(n));
  }

  lemma OneMoreCall(rule: Rule, calls: seq<Call>, call: Call, c: Calendar)
    requires After(rule, calls) == Running(c)
    ensures After(rule, calls + [call]) == Stepped(rule, c, call)
  {
    assert (calls + [call])[..|calls|] == calls;
  }

  lemma NoTicks()
    ensures EMPTY == Ticking(0)
  {
    assert EMPTY.buckets == [[], []];
  }

  /** Up to four ticks there are not enough for a resize. */
  lemma NotCrowded(rule: Rule, c: Calendar, call: Call)
    requires Valid(c) && Allowed(c, call) && call.Insertion? && !Crowded(WithEvent(c, call.ev))
    ensures Stepped(rule, c, call) == Running(WithEvent(c, call.ev))
  {
  }

  lemma TickFits(n: nat, c: Calendar)
    requires n < 4 && c == Ticking(n)
    ensures Usable(c) && Allowed(c, Insertion(Tick(n)))
    ensures WithEvent(c, Tick(n)) == Ticking(n + 1) && !Crowded(WithEvent(c, Tick(n)))
  {
    TickInserted(n);
  }

  lemma OneMoreTick(rule: Rule, n: nat, before: Calendar) returns (c: Calendar)
    requires n < 4 && After(rule, TickCalls(n)) == Running(before) && before == Ticking(n)
    ensures After(rule, TickCalls(n + 1)) == Running(c) && c == Ticking(n + 1)
  {
    TickFits(n, before);
    c := WithEvent(before, Tick(n));
    OneMoreCall(rule, TickCalls(n), Insertion(Tick(n)), before);
    NotCrowded(rule, before, Insertion(Tick(n)));
  }

  lemma {:induction false} FewTicks(rule: Rule, n: nat) returns (c: Calendar)
    requires n <= 4
    ensures After(rule, TickCalls(n)) == Running(c) && c == Ticking(n)
  {
    if n == 0 {
      NoTicks();
      c := EMPTY;
    } else {
      var before := FewTicks(rule, n - 1);
      c := OneMoreTick(rule, n - 1, before);
    }
  }

  lemma TicksSorted(n: nat)
    ensures SortedList(Ticks(n))
  {
    TicksAt(n);
    forall i, j | 0 <= i < j < n
      ensures InPlace(Ticks(n), i, j)
    {
      LaterTick(i, j);
    }
  }

  lemma TickEvents(n: nat)
    ensures Events(Ticking(n)) == multiset(Ticks(n))
  {
    var buckets := Ticking(n).buckets;
    assert buckets[..1] == [Ticks(n)] && buckets[..1][..0] == [];
    assert AllEvents(buckets[..1]) == multiset(Ticks(n));
  }

  /** The samples are the five ticks, in order. */
  lemma FiveSamples(c: Calendar)
    requires Valid(c) && c == Ticking(5)
    ensures Samples(c) == Ticks(5)
  {
    NextInOrder(c, 5);
    TicksSorted(5);
    TicksAt(5);
    TickEvents(5);
    AllTaken(multiset(Ticks(5)), Samples(c), Events(TakeOut(TakeNext, c, 5).0));
    SortedUnique(Samples(c), Ticks(5));
  }

  lemma AllTaken(events: multiset<Event>, s: seq<Event>, left: multiset<Event>)
    requires TakenFrom(events, |events|, s, left)
    ensures multiset(s) == events
  {
    assert |left + multiset(s)| == |left| + |s|;
    assert left == multiset{};
  }

  lemma TickGap(i: nat)
    requires 0 < i < 5
    ensures |Ticks(5)| == 5 && Gap(Ticks(5), i) == STEP
  {
    TicksAt(5);
  }

  lemma {:induction false} TickGaps(n: nat, limit: Option<int>)
    requires 0 < n <= 5 && (limit.Some? ==> limit.value >= STEP)
    ensures |Ticks(5)| == 5 && GapSum(Ticks(5), n, limit) == (n - 1) * STEP
  {
    TicksAt(5);
    if n > 1 {
      TickGaps(n - 1, limit);
      TickGap(n - 1);
    }
  }

  lemma FiveGaps()
    ensures |Ticks(5)| == 5 && Separation(Ticks(5)) == TWO32
  {
    TickGaps(5, None);
    TickGaps(5, Some(Limit(Ticks(5))));
  }

  /** Five events, each 2 to the 30 after the one before: the fifth insertion divides by zero. */
  lemma FifthFails()
    ensures After(NewWidth, TickCalls(5)) == DividedByZero
  {
    var c := FewTicks(NewWidth, 4);
    var call := Insertion(Tick(4));
    OneMoreCall(NewWidth, TickCalls(4), call, c);
    FifthVanishes(c, Unsettled(c, call));
    FailsIff(c, call);
  }

  lemma FifthVanishes(c: Calendar, d: Calendar)
    requires Valid(d) && c == Ticking(4) && d == WithEvent(c, Tick(4))
    ensures Crowded(d) && WidthVanishes(d)
  {
    TickInserted(4);
    FiveSamples(d);
    FiveGaps();
  }
}
