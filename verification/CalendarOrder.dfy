/** The calendar queue of calendar-scheduler.cc on values: events are filed into a ring of buckets
    by the day they fall on, and the search for the next event goes around the ring once. */
module CalendarOrder {
  import opened Options
  import opened Numbers
  import opened SchedulerEvents

  type Bucket = seq<Event>

  datatype Calendar = Calendar(
    buckets: seq<Bucket>,
    width: nat,
    lastBucket: nat,
    bucketTop: nat,
    lastPrio: nat,
    size: nat
  )

  predicate Usable(c: Calendar) {
    c.width > 0 && c.lastBucket < |c.buckets|
  }

  function HashOf(ts: nat, width: nat, n: nat): (b: nat)
    requires width > 0 && n > 0
    ensures b < n
  {
    (ts / width) % n
  }

  function Hash(c: Calendar, ts: nat): (b: nat)
    requires Usable(c)
    ensures b < |c.buckets|
  {
    HashOf(ts, c.width, |c.buckets|)
  }

  /** Init, which does not touch the number of events. */
  function Init(n: nat, width: nat, startPrio: nat, size: nat): (c: Calendar)
    requires n > 0 && width > 0
    ensures Usable(c)
  {
    Calendar(seq(n, _ => []), width, HashOf(startPrio, width, n), (startPrio / width + 1) * width, startPrio, size)
  }

  // ----- The events of a calendar ---------------------------------------------------------------

  function AllEvents(buckets: seq<Bucket>): multiset<Event> {
    if buckets == [] then multiset{}
    else AllEvents(buckets[..|buckets| - 1]) + multiset(buckets[|buckets| - 1])
  }

  function Events(c: Calendar): multiset<Event> {
    AllEvents(c.buckets)
  }

  lemma AddLast(a: multiset<Event>, b: multiset<Event>, c: multiset<Event>, d: multiset<Event>, last: multiset<Event>)
    requires a + b == c + d
    ensures (a + last) + b == (c + last) + d
  {
    assert (a + last) + b == (a + b) + last;
    assert (c + last) + d == (c + d) + last;
  }

  lemma {:induction false} BucketReplaced(buckets: seq<Bucket>, b: nat, s: Bucket)
    requires b < |buckets|
    ensures AllEvents(buckets[b := s]) + multiset(buckets[b]) == AllEvents(buckets) + multiset(s)
  {
    var n := |buckets| - 1;
    if b < n {
      BucketReplaced(buckets[..n], b, s);
      assert buckets[b := s][..n] == buckets[..n][b := s];
      AddLast(AllEvents(buckets[..n][b := s]), multiset(buckets[b]), AllEvents(buckets[..n]), multiset(s),
              multiset(buckets[n]));
    } else {
      assert buckets[b := s][..n] == buckets[..n];
    }
  }

  lemma {:induction false} InSomeBucket(buckets: seq<Bucket>, e: Event)
    ensures e in AllEvents(buckets) <==> exists b :: 0 <= b < |buckets| && e in buckets[b]
  {
    if buckets != [] {
      var init, last := buckets[..|buckets| - 1], buckets[|buckets| - 1];
      InSomeBucket(init, e);
      assert buckets == init + [last];
      assert forall b :: 0 <= b < |init| ==> buckets[b] == init[b];
    }
  }

  // ----- Events are filed by their day -----------------------------------------------------------

  ghost predicate BucketOk(s: Bucket, b: nat, width: nat, n: nat)
    requires width > 0 && n > 0
  {
    SortedList(s) && forall e {:trigger HashOf(e.ts, width, n)} :: e in s ==> HashOf(e.ts, width, n) == b
  }

  ghost predicate Filed(c: Calendar) {
    Usable(c) && forall b :: 0 <= b < |c.buckets| ==> BucketOk(c.buckets[b], b, c.width, |c.buckets|)
  }

  /** The search starts at the bucket and on the day of the last event that was removed. */
  predicate Dialled(c: Calendar) {
    Usable(c) && c.lastBucket == Hash(c, c.lastPrio) && c.bucketTop == DayEnd(c, 0)
  }

  ghost predicate NothingBefore(c: Calendar) {
    forall e :: e in Events(c) ==> e.ts >= c.lastPrio
  }

  ghost predicate Ready(c: Calendar) {
    Filed(c) && Dialled(c) && NothingBefore(c)
  }

  lemma FiledAt(c: Calendar, e: Event)
    requires Filed(c)
    ensures e in Events(c) <==> e in c.buckets[Hash(c, e.ts)]
  {
    InSomeBucket(c.buckets, e);
  }

  // ----- Inserting -------------------------------------------------------------------------------

  function Inserted(s: Bucket, ev: Event): Bucket {
    if s == [] || Less(ev, s[0]) then [ev] + s else [s[0]] + Inserted(s[1..], ev)
  }

  lemma TailSorted(s: Bucket)
    requires SortedList(s) && s != []
    ensures SortedList(s[1..]) && forall x :: x in s[1..] ==> !Less(x, s[0])
  {
    forall i, j | 0 <= i < j < |s| - 1
      ensures InPlace(s[1..], i, j)
    {
      assert InPlace(s, i + 1, j + 1);
    }
    forall x | x in s[1..]
      ensures !Less(x, s[0])
    {
      var i :| 0 <= i < |s| - 1 && s[1..][i] == x;
      assert InPlace(s, 0, i + 1);
    }
  }

  lemma {:induction false} InsertedList(s: Bucket, ev: Event)
    ensures multiset(Inserted(s, ev)) == multiset(s) + multiset{ev}
    ensures forall e :: e in Inserted(s, ev) <==> e in s || e == ev
    ensures SortedList(s) ==> SortedList(Inserted(s, ev))
  {
    if s == [] || Less(ev, s[0]) {
      if SortedList(s) && s != [] {
        TailSorted(s);
        assert s == [s[0]] + s[1..];
        ConsSorted(ev, s);
      }
    } else {
      InsertedList(s[1..], ev);
      assert s == [s[0]] + s[1..];
      if SortedList(s) {
        TailSorted(s);
        ConsSorted(s[0], Inserted(s[1..], ev));
      }
    }
  }

  function DoInsert(c: Calendar, ev: Event): (r: Calendar)
    requires Usable(c)
    ensures Usable(r) && |r.buckets| == |c.buckets|
  {
    var b := Hash(c, ev.ts);
    c.(buckets := c.buckets[b := Inserted(c.buckets[b], ev)])
  }

  lemma DoInsertFiles(c: Calendar, ev: Event)
    requires Filed(c)
    ensures Filed(DoInsert(c, ev)) && Events(DoInsert(c, ev)) == Events(c) + multiset{ev}
  {
    var b, n := Hash(c, ev.ts), |c.buckets|;
    InsertedList(c.buckets[b], ev);
    OneMore(c.buckets, b, Inserted(c.buckets[b], ev), ev);
    forall k | 0 <= k < n
      ensures BucketOk(DoInsert(c, ev).buckets[k], k, c.width, n)
    {
      assert BucketOk(c.buckets[k], k, c.width, n);
    }
  }

  lemma OneMore(buckets: seq<Bucket>, b: nat, s: Bucket, ev: Event)
    requires b < |buckets| && multiset(s) == multiset(buckets[b]) + multiset{ev}
    ensures AllEvents(buckets[b := s]) == AllEvents(buckets) + multiset{ev}
  {
    BucketReplaced(buckets, b, s);
    var a, t := AllEvents(buckets[b := s]), AllEvents(buckets) + multiset{ev};
    assert a + multiset(buckets[b]) == t + multiset(buckets[b]);
    SameRest(a, t, multiset(buckets[b]));
  }

  lemma SameRest(a: multiset<Event>, b: multiset<Event>, rest: multiset<Event>)
    requires a + rest == b + rest
    ensures a == b
  {
    forall e
      ensures a[e] == b[e]
    {
      assert (a + rest)[e] == (b + rest)[e];
    }
  }

  // ----- Days ------------------------------------------------------------------------------------

  lemma DayBelow(ts: nat, w: nat, d: nat)
    requires w > 0
    ensures ts < (d + 1) * w <==> ts / w <= d
  {
    var q := ts / w;
    assert ts == q * w + ts % w;
    if q <= d {
      assert (d - q) * w >= 0;
    } else {
      assert (q - (d + 1)) * w >= 0;
    }
  }

  lemma DaysInOrder(a: nat, b: nat, w: nat)
    requires w > 0 && a <= b
    ensures a / w <= b / w
  {
    DayBelow(b, w, b / w);
    DayBelow(a, w, b / w);
  }

  /** The bucket k places after l, going around the ring. */
  function Around(l: nat, k: nat, n: nat): (b: nat)
    requires l < n && k < n
    ensures b < n
  {
    if l + k < n then l + k else l + k - n
  }

  lemma BucketOfDay(d: nat, k: nat, n: nat)
    requires k < n
    ensures (d + k) % n == Around(d % n, k, n)
  {
    var q, r := d / n, d % n;
    assert d == q * n + r;
    if r + k < n {
      ModUnique(d + k, n, q, r + k);
    } else {
      assert (q + 1) * n == q * n + n;
      ModUnique(d + k, n, q + 1, r + k - n);
    }
  }

  // ----- Looking for the next event ---------------------------------------------------------------

  /** The bucket whose first event is next, and the top of its day if it was found in its turn. */
  datatype Pick = Pick(bucket: nat, top: Option<nat>)

  predicate SomeFront(c: Calendar, b: nat) {
    b < |c.buckets| && c.buckets[b] != []
  }

  /** The bucket with the least first event, once b has been looked at too. */
  function Better(c: Calendar, b: nat, min: Option<nat>): Option<nat>
    requires Usable(c) && b < |c.buckets| && (min.Some? ==> SomeFront(c, min.value))
  {
    if c.buckets[b] == [] then min
    else if min == None || Less(c.buckets[b][0], c.buckets[min.value][0]) then Some(b) else min
  }

  /** The loop from the k-th bucket on; min is the bucket with the least first event so far. */
  function Search(c: Calendar, k: nat, top: nat, min: Option<nat>): (r: Option<Pick>)
    requires Usable(c) && k <= |c.buckets| && (min.Some? ==> SomeFront(c, min.value))
    ensures r.Some? ==> SomeFront(c, r.value.bucket)
    decreases |c.buckets| - k
  {
    if k == |c.buckets| then
      match min
      case None => None
      case Some(b) => Some(Pick(b, None))
    else
      var i := Around(c.lastBucket, k, |c.buckets|);
      if c.buckets[i] != [] && c.buckets[i][0].ts < top then Some(Pick(i, Some(top)))
      else Search(c, k + 1, top + c.width, Better(c, i, min))
  }

  /** The end of the k-th day after that of the last event. */
  function DayEnd(c: Calendar, k: nat): nat
    requires Usable(c)
  {
    (c.lastPrio / c.width + k + 1) * c.width
  }

  /** Before the k-th bucket is looked at: no event falls on one of the first k days, and min is
      the least of the first events of the first k buckets. */
  ghost predicate Looked(c: Calendar, k: nat, min: Option<nat>)
    requires Usable(c) && k <= |c.buckets|
  {
    && (min.Some? ==> SomeFront(c, min.value))
    && (forall e :: e in Events(c) ==> e.ts / c.width >= c.lastPrio / c.width + k)
    && forall j :: 0 <= j < k ==> NotLess(c, Around(c.lastBucket, j, |c.buckets|), min)
  }

  /** The first event of bucket b, if there is one, is not less than that of bucket min. */
  predicate NotLess(c: Calendar, b: nat, min: Option<nat>)
    requires Usable(c) && b < |c.buckets| && (min.Some? ==> SomeFront(c, min.value))
  {
    c.buckets[b] == [] || (min.Some? && !Less(c.buckets[b][0], c.buckets[min.value][0]))
  }

  ghost predicate GoodPick(c: Calendar, r: Option<Pick>)
    requires Usable(c) && (r.Some? ==> SomeFront(c, r.value.bucket))
  {
    match r
    case None => Events(c) == multiset{}
    case Some(p) =>
      var next := c.buckets[p.bucket][0];
      && LeastOf(Events(c), next)
      && (p.top.Some? ==> p.bucket == Hash(c, next.ts) && p.top.value == (next.ts / c.width + 1) * c.width)
  }

  lemma InBucketOfDay(c: Calendar, e: Event, k: nat)
    requires Ready(c) && e in Events(c) && k < |c.buckets| && e.ts / c.width == c.lastPrio / c.width + k
    ensures e in c.buckets[Around(c.lastBucket, k, |c.buckets|)]
  {
    FiledAt(c, e);
    BucketOfDay(c.lastPrio / c.width, k, |c.buckets|);
  }

  lemma BeforeDayEnd(c: Calendar, k: nat, ts: nat)
    requires Usable(c)
    ensures ts < DayEnd(c, k) <==> ts / c.width <= c.lastPrio / c.width + k
  {
    DayBelow(ts, c.width, c.lastPrio / c.width + k);
  }

  lemma NextDayEnd(c: Calendar, k: nat)
    requires Usable(c)
    ensures DayEnd(c, k + 1) == DayEnd(c, k) + c.width
  {
  }

  lemma FrontOfBucket(c: Calendar, b: nat, e: Event)
    requires Filed(c) && b < |c.buckets| && e in c.buckets[b]
    ensures c.buckets[b] != [] && !Less(e, c.buckets[b][0])
    ensures c.buckets[b][0] in Events(c) && e in Events(c) && Hash(c, c.buckets[b][0].ts) == b
  {
    assert BucketOk(c.buckets[b], b, c.width, |c.buckets|);
    FirstIsLeast(c.buckets[b], e);
    InSomeBucket(c.buckets, e);
    InSomeBucket(c.buckets, c.buckets[b][0]);
    assert c.buckets[b][0] in c.buckets[b];
  }

  /** The first event of the bucket falls on the day whose turn it is. */
  lemma FoundInTurn(c: Calendar, k: nat, min: Option<nat>)
    requires Ready(c) && k < |c.buckets| && Looked(c, k, min)
    requires var b := Around(c.lastBucket, k, |c.buckets|);
             c.buckets[b] != [] && c.buckets[b][0].ts < DayEnd(c, k)
    ensures var b := Around(c.lastBucket, k, |c.buckets|);
            GoodPick(c, Some(Pick(b, Some(DayEnd(c, k)))))
  {
    var b := Around(c.lastBucket, k, |c.buckets|);
    var next := c.buckets[b][0];
    FrontOfBucket(c, b, next);
    BeforeDayEnd(c, k, next.ts);
    forall x | x in Events(c)
      ensures !Less(x, next)
    {
      BeforeDayEnd(c, k, x.ts);
      if x.ts < DayEnd(c, k) {
        InBucketOfDay(c, x, k);
        FrontOfBucket(c, b, x);
      }
    }
  }

  /** Otherwise no event falls on that day, and the search goes on. */
  lemma NotInTurn(c: Calendar, k: nat, min: Option<nat>)
    requires Ready(c) && k < |c.buckets| && Looked(c, k, min)
    requires var b := Around(c.lastBucket, k, |c.buckets|);
             c.buckets[b] == [] || c.buckets[b][0].ts >= DayEnd(c, k)
    ensures forall e :: e in Events(c) ==> e.ts / c.width >= c.lastPrio / c.width + (k + 1)
  {
    forall e | e in Events(c)
      ensures e.ts / c.width >= c.lastPrio / c.width + (k + 1)
    {
      if e.ts / c.width == c.lastPrio / c.width + k {
        InBucketOfDay(c, e, k);
        FrontOfBucket(c, Around(c.lastBucket, k, |c.buckets|), e);
        BeforeDayEnd(c, k, e.ts);
      }
    }
  }

  lemma BetterLooked(c: Calendar, k: nat, min: Option<nat>)
    requires Usable(c) && k < |c.buckets| && Looked(c, k, min)
    requires forall e :: e in Events(c) ==> e.ts / c.width >= c.lastPrio / c.width + (k + 1)
    ensures Looked(c, k + 1, Better(c, Around(c.lastBucket, k, |c.buckets|), min))
  {
    var n := |c.buckets|;
    var min' := Better(c, Around(c.lastBucket, k, n), min);
    forall j | 0 <= j < k + 1
      ensures NotLess(c, Around(c.lastBucket, j, n), min')
    {
      if j < k {
        assert NotLess(c, Around(c.lastBucket, j, n), min);
      }
    }
  }

  /** Once around the ring: the least of all first events is the least event. */
  lemma LeastFront(c: Calendar, min: Option<nat>)
    requires Ready(c) && Looked(c, |c.buckets|, min)
    ensures GoodPick(c, match min case None => None case Some(b) => Some(Pick(b, None)))
  {
    var n := |c.buckets|;
    forall x | x in Events(c)
      ensures min.Some? && !Less(x, c.buckets[min.value][0])
    {
      var b := Hash(c, x.ts);
      FiledAt(c, x);
      FrontOfBucket(c, b, x);
      var j := if b >= c.lastBucket then b - c.lastBucket else b + n - c.lastBucket;
      assert NotLess(c, Around(c.lastBucket, j, n), min);
    }
    if min.Some? {
      var front := c.buckets[min.value][0];
      FrontOfBucket(c, min.value, front);
    }
  }

  lemma {:induction false} SearchFinds(c: Calendar, k: nat, min: Option<nat>)
    requires Ready(c) && k <= |c.buckets| && Looked(c, k, min)
    ensures GoodPick(c, Search(c, k, DayEnd(c, k), min))
    decreases |c.buckets| - k
  {
    if k == |c.buckets| {
      LeastFront(c, min);
    } else {
      var b := Around(c.lastBucket, k, |c.buckets|);
      if c.buckets[b] != [] && c.buckets[b][0].ts < DayEnd(c, k) {
        FoundInTurn(c, k, min);
      } else {
        NotInTurn(c, k, min);
        BetterLooked(c, k, min);
        NextDayEnd(c, k);
        SearchFinds(c, k + 1, Better(c, b, min));
      }
    }
  }

  lemma NothingLooked(c: Calendar)
    requires Ready(c)
    ensures Looked(c, 0, None)
  {
    forall e | e in Events(c)
      ensures e.ts / c.width >= c.lastPrio / c.width
    {
      DaysInOrder(c.lastPrio, e.ts, c.width);
    }
  }

  // ----- Taking out the next event ----------------------------------------------------------------

  function Without(c: Calendar, p: Pick): Calendar
    requires Usable(c) && SomeFront(c, p.bucket)
  {
    var next := c.buckets[p.bucket][0];
    Calendar(c.buckets[p.bucket := c.buckets[p.bucket][1..]], c.width,
             if p.top.Some? then p.bucket else Hash(c, next.ts),
             if p.top.Some? then p.top.value else (next.ts / c.width + 1) * c.width, next.ts, c.size)
  }

  /** None if there is no event. */
  function DoRemoveNext(c: Calendar): (r: Option<(Calendar, Event)>)
    requires Usable(c)
    ensures r.Some? ==> Usable(r.value.0)
  {
    match Search(c, 0, c.bucketTop, None)
    case None => None
    case Some(p) => Some((Without(c, p), c.buckets[p.bucket][0]))
  }

  lemma OneLess(buckets: seq<Bucket>, b: nat, e: Event, s: Bucket)
    requires b < |buckets| && multiset(buckets[b]) == multiset(s) + multiset{e}
    ensures e in AllEvents(buckets) && AllEvents(buckets[b := s]) == AllEvents(buckets) - multiset{e}
  {
    BucketReplaced(buckets, b, s);
    var a, t := AllEvents(buckets[b := s]) + multiset{e}, AllEvents(buckets);
    assert a + multiset(s) == t + multiset(s);
    SameRest(a, t, multiset(s));
  }

  lemma BucketThinned(c: Calendar, b: nat, s: Bucket)
    requires Filed(c) && b < |c.buckets| && SortedList(s) && forall e :: e in s ==> e in c.buckets[b]
    ensures Filed(c.(buckets := c.buckets[b := s]))
  {
    var n := |c.buckets|;
    assert BucketOk(c.buckets[b], b, c.width, n);
    var buckets := c.buckets[b := s];
    forall k | 0 <= k < n
      ensures BucketOk(buckets[k], k, c.width, n)
    {
      assert BucketOk(c.buckets[k], k, c.width, n);
    }
  }

  lemma FrontTaken(c: Calendar, b: nat)
    requires Filed(c) && SomeFront(c, b)
    ensures var r := c.(buckets := c.buckets[b := c.buckets[b][1..]]);
            Filed(r) && c.buckets[b][0] in Events(c) && Events(r) == Events(c) - multiset{c.buckets[b][0]}
  {
    var s := c.buckets[b];
    assert s == [s[0]] + s[1..];
    OneLess(c.buckets, b, s[0], s[1..]);
    assert BucketOk(s, b, c.width, |c.buckets|);
    TailSorted(s);
    BucketThinned(c, b, s[1..]);
  }

  lemma TurnedTo(c: Calendar, p: Pick)
    requires Usable(c) && SomeFront(c, p.bucket) && GoodPick(c, Some(p))
    ensures Dialled(Without(c, p))
  {
  }

  lemma PickTaken(c: Calendar, p: Pick)
    requires Ready(c) && SomeFront(c, p.bucket) && GoodPick(c, Some(p))
    ensures Ready(Without(c, p)) && Events(Without(c, p)) == Events(c) - multiset{c.buckets[p.bucket][0]}
  {
    var next := c.buckets[p.bucket][0];
    FrontTaken(c, p.bucket);
    TurnedTo(c, p);
    forall e | e in Events(Without(c, p))
      ensures e.ts >= next.ts
    {
      assert !Less(e, next);
    }
  }

  /** One removal: the event that comes out is a least one, the others stay, and the search can
      start from it. */
  lemma RemoveNextLeast(c: Calendar)
    requires Ready(c)
    ensures match DoRemoveNext(c)
            case None => Events(c) == multiset{}
            case Some((r, next)) =>
              && LeastOf(Events(c), next) && Events(r) == Events(c) - multiset{next} && Ready(r)
              && r.lastPrio == next.ts && r.width == c.width && |r.buckets| == |c.buckets| && r.size == c.size
  {
    NothingLooked(c);
    SearchFinds(c, 0, None);
    if Search(c, 0, c.bucketTop, None).Some? {
      PickTaken(c, Search(c, 0, c.bucketTop, None).value);
    }
  }
}
