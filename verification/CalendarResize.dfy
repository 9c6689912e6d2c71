/** How a calendar queue chooses a new width, and moves its events to another number of buckets. */
module CalendarResize {
  import opened Options
  import opened SchedulerEvents
  import opened CalendarOrder

  // ----- Taking events out and putting them back ------------------------------------------------

  function TakeNext(c: Calendar): Option<(Calendar, Event)> {
    if Usable(c) then DoRemoveNext(c) else None
  }

  function InsertAll(c: Calendar, es: seq<Event>): (r: Calendar)
    requires Usable(c)
    ensures Usable(r) && r == c.(buckets := r.buckets) && |r.buckets| == |c.buckets|
    decreases es
  {
    if es == [] then c else InsertAll(DoInsert(c, es[0]), es[1..])
  }

  lemma {:induction false} InsertAllFiles(c: Calendar, es: seq<Event>)
    requires Filed(c)
    ensures Filed(InsertAll(c, es)) && Events(InsertAll(c, es)) == Events(c) + multiset(es)
    decreases es
  {
    if es != [] {
      DoInsertFiles(c, es[0]);
      InsertAllFiles(DoInsert(c, es[0]), es[1..]);
      assert es == [es[0]] + es[1..];
    }
  }

  /** A calendar that can be searched, with as many buckets, as wide, as c has. */
  ghost predicate ReadyLike(c: Calendar, d: Calendar) {
    Ready(d) && d.width == c.width && |d.buckets| == |c.buckets| && d.size == c.size
  }

  lemma NextTakesNext(c: Calendar)
    ensures TakesNext((d: Calendar) => ReadyLike(c, d), Events, TakeNext)
  {
    forall d | ReadyLike(c, d)
      ensures Takes((r: Calendar) => ReadyLike(c, r), Events, d, TakeNext(d))
    {
      RemoveNextLeast(d);
    }
  }

  lemma NextInOrder(c: Calendar, n: nat)
    requires Ready(c)
    ensures var (r, s) := TakeOut(TakeNext, c, n); ReadyLike(c, r) && TakenFrom(Events(c), n, s, Events(r))
  {
    NextTakesNext(c);
    var (r, s) := TakeOut(TakeNext, c, n);
    TakenInOrder((d: Calendar) => ReadyLike(c, d), Events, TakeNext, c, n, r, s);
  }

  // ----- A calendar is determined by its events ---------------------------------------------------

  lemma {:induction false} CountOnce(buckets: seq<Bucket>, h: nat, e: Event)
    requires h < |buckets| && forall b :: 0 <= b < |buckets| && b != h ==> e !in buckets[b]
    ensures AllEvents(buckets)[e] == multiset(buckets[h])[e]
  {
    var n := |buckets| - 1;
    if h < n {
      CountOnce(buckets[..n], h, e);
    } else {
      InSomeBucket(buckets[..n], e);
    }
  }

  lemma CountFiled(c: Calendar, b: nat, e: Event)
    requires Filed(c) && b < |c.buckets|
    ensures multiset(c.buckets[b])[e] == if Hash(c, e.ts) == b then Events(c)[e] else 0
  {
    var h, n := Hash(c, e.ts), |c.buckets|;
    forall k | 0 <= k < n && k != h
      ensures e !in c.buckets[k]
    {
      assert BucketOk(c.buckets[k], k, c.width, n);
    }
    CountOnce(c.buckets, h, e);
  }

  lemma {:induction false} SortedUnique(s: Bucket, t: Bucket)
    requires SortedList(s) && SortedList(t) && multiset(s) == multiset(t)
    ensures s == t
  {
    if s == [] {
      assert |multiset(s)| == 0 && |multiset(t)| == |t|;
    } else {
      assert s[0] in multiset(t) && |multiset(s)| == |s| && |multiset(t)| == |t|;
      assert t[0] in multiset(s);
      FirstIsLeast(s, t[0]);
      FirstIsLeast(t, s[0]);
      HeadAndTail(s);
      HeadAndTail(t);
      SameRest(multiset(s[1..]), multiset(t[1..]), multiset{s[0]});
      TailSorted(s);
      TailSorted(t);
      SortedUnique(s[1..], t[1..]);
    }
  }

  lemma HeadAndTail(s: Bucket)
    requires s != []
    ensures multiset(s) == multiset(s[1..]) + multiset{s[0]}
  {
    assert s == [s[0]] + s[1..];
  }

  lemma FiledUnique(c: Calendar, d: Calendar)
    requires Filed(c) && Filed(d) && c.width == d.width && |c.buckets| == |d.buckets| && Events(c) == Events(d)
    ensures c.buckets == d.buckets
  {
    forall b | 0 <= b < |c.buckets|
      ensures c.buckets[b] == d.buckets[b]
    {
      forall e
        ensures multiset(c.buckets[b])[e] == multiset(d.buckets[b])[e]
      {
        CountFiled(c, b, e);
        CountFiled(d, b, e);
      }
      assert BucketOk(c.buckets[b], b, c.width, |c.buckets|);
      SortedUnique(c.buckets[b], d.buckets[b]);
    }
  }

  // ----- The new width ---------------------------------------------------------------------------

  const TWO32: nat := 0x1_0000_0000

  function Gap(s: seq<Event>, i: nat): int
    requires 0 < i < |s|
  {
    s[i].ts - s[i - 1].ts
  }

  /** The sum of the gaps before the first n events; those over the limit, if there is one, do not count. */
  function GapSum(s: seq<Event>, n: nat, limit: Option<int>): int
    requires n <= |s|
  {
    if n < 2 then 0
    else
      GapSum(s, n - 1, limit) + if limit == None || Gap(s, n - 1) <= limit.value then Gap(s, n - 1) else 0
  }

  function Limit(s: seq<Event>): int
    requires |s| >= 2
  {
    GapSum(s, |s|, None) / (|s| - 1) * 2
  }

  /** The gaps up to twice the average, summed. */
  function Separation(s: seq<Event>): int
    requires |s| >= 2
  {
    GapSum(s, |s|, Some(Limit(s)))
  }

  /** What is returned is cut to 32 bits. */
  function Width(s: seq<Event>): (w: nat)
    requires |s| >= 2
  {
    (if Separation(s) * 3 > 1 then Separation(s) * 3 else 1) % TWO32
  }

  lemma TripleMultiple(x: nat)
    ensures x * 3 % TWO32 == 0 <==> x % TWO32 == 0
  {
    if x * 3 % TWO32 == 0 {
      var q := x * 3 / TWO32;
      var p := x - 1431655765 * q;
      assert q == 3 * p;
      assert x == p * TWO32;
    }
  }

  lemma {:induction false} GapSumPositive(s: seq<Event>, n: nat, limit: Option<int>)
    requires SortedList(s) && n <= |s|
    ensures GapSum(s, n, limit) >= 0
    decreases n
  {
    if n >= 2 {
      GapSumPositive(s, n - 1, limit);
      assert InPlace(s, n - 2, n - 1);
    }
  }

  /** The width comes out as zero exactly when the separations add up to a multiple of 2 to the 32. */
  lemma WidthZeroIff(s: seq<Event>)
    requires |s| >= 2 && SortedList(s)
    ensures Width(s) == 0 <==> Separation(s) > 0 && Separation(s) % TWO32 == 0
  {
    GapSumPositive(s, |s|, Some(Limit(s)));
    TripleMultiple(Separation(s));
  }

  function SampleCount(size: nat): (n: nat)
    ensures size >= 2 ==> 2 <= n <= size
  {
    if size <= 5 then size else if 5 + size / 10 > 25 then 25 else 5 + size / 10
  }

  /** Everything that holds between two calls. */
  ghost predicate Valid(c: Calendar) {
    Ready(c) && c.size == |Events(c)|
  }

  function Samples(c: Calendar): seq<Event> {
    TakeOut(TakeNext, c, SampleCount(c.size)).1
  }

  lemma SamplesOf(c: Calendar)
    requires Valid(c)
    ensures |Samples(c)| == SampleCount(c.size) && SortedList(Samples(c))
  {
    NextInOrder(c, SampleCount(c.size));
  }

  /** The width for the new buckets. There are two samples whenever there are two events. */
  function NewWidth(c: Calendar): nat {
    if c.size < 2 || |Samples(c)| < 2 then 1 else Width(Samples(c))
  }

  /** The separations of the samples add up to a multiple of 2 to the 32, and not to zero. */
  predicate WidthVanishes(c: Calendar) {
    && c.size >= 2 && |Samples(c)| >= 2
    && Separation(Samples(c)) > 0 && Separation(Samples(c)) % TWO32 == 0
  }

  lemma NewWidthZeroIff(c: Calendar)
    requires Valid(c)
    ensures c.size >= 2 ==> |Samples(c)| >= 2
    ensures NewWidth(c) == 0 <==> WidthVanishes(c)
  {
    SamplesOf(c);
    if c.size >= 2 {
      WidthZeroIff(Samples(c));
    }
  }

  /** The calendar after the samples were taken out, put back, and the position was restored. */
  function PutBack(c: Calendar): Calendar {
    var (r, samples) := TakeOut(TakeNext, c, SampleCount(c.size));
    if Usable(r) then InsertAll(r, samples).(lastBucket := c.lastBucket, bucketTop := c.bucketTop, lastPrio := c.lastPrio)
    else r
  }

  /** Choosing a width leaves the calendar as it was. */
  lemma SamplingRestores(c: Calendar)
    requires Valid(c)
    ensures PutBack(c) == c
  {
    var (r, samples) := TakeOut(TakeNext, c, SampleCount(c.size));
    NextInOrder(c, SampleCount(c.size));
    InsertAllFiles(r, samples);
    FiledUnique(InsertAll(r, samples), c);
  }

  // ----- Moving to new buckets --------------------------------------------------------------------

  function Concat(buckets: seq<Bucket>): seq<Event> {
    if buckets == [] then [] else Concat(buckets[..|buckets| - 1]) + buckets[|buckets| - 1]
  }

  lemma {:induction false} ConcatEvents(buckets: seq<Bucket>)
    ensures multiset(Concat(buckets)) == AllEvents(buckets)
  {
    if buckets != [] {
      ConcatEvents(buckets[..|buckets| - 1]);
    }
  }

  lemma {:induction false} NoEvents(buckets: seq<Bucket>)
    requires forall b :: 0 <= b < |buckets| ==> buckets[b] == []
    ensures AllEvents(buckets) == multiset{}
  {
    if buckets != [] {
      NoEvents(buckets[..|buckets| - 1]);
    }
  }

  lemma InitReady(n: nat, width: nat, startPrio: nat, size: nat)
    requires n > 0 && width > 0
    ensures Ready(Init(n, width, startPrio, size)) && Events(Init(n, width, startPrio, size)) == multiset{}
  {
    NoEvents(Init(n, width, startPrio, size).buckets);
  }

  function DoResize(c: Calendar, n: nat, width: nat): (r: Calendar)
    requires n > 0 && width > 0
    ensures Usable(r) && |r.buckets| == n && r.lastPrio == c.lastPrio && r.size == c.size
  {
    InsertAll(Init(n, width, c.lastPrio, c.size), Concat(c.buckets))
  }

  lemma DoResizeKeeps(c: Calendar, n: nat, width: nat)
    requires Valid(c) && n > 0 && width > 0
    ensures Valid(DoResize(c, n, width)) && Events(DoResize(c, n, width)) == Events(c)
  {
    InitReady(n, width, c.lastPrio, c.size);
    ConcatEvents(c.buckets);
    InsertAllFiles(Init(n, width, c.lastPrio, c.size), Concat(c.buckets));
  }
}
