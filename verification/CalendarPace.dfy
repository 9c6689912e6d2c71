/** How the number of buckets keeps pace with the number of events, and what widths come out. */
module CalendarPace {
  import opened Options
  import opened Numbers
  import opened SchedulerEvents
  import opened CalendarOrder
  import opened CalendarResize
  import opened CalendarRuns

  // ----- The number of buckets ----------------------------------------------------------------------

  predicate PowerOfTwo(n: nat) {
    n == 1 || (n > 1 && n % 2 == 0 && PowerOfTwo(n / 2))
  }

  lemma {:induction false} NextPower(n: nat, m: nat)
    requires PowerOfTwo(n) && PowerOfTwo(m) && n < m
    ensures 2 * n <= m
  {
    if n > 1 {
      NextPower(n / 2, m / 2);
    }
  }

  lemma MostBuckets()
    ensures PowerOfTwo(32768)
  {
    assert PowerOfTwo(2) && PowerOfTwo(4) && PowerOfTwo(8) && PowerOfTwo(16) && PowerOfTwo(32) && PowerOfTwo(64);
    assert PowerOfTwo(128) && PowerOfTwo(256) && PowerOfTwo(512) && PowerOfTwo(1024) && PowerOfTwo(2048);
    assert PowerOfTwo(4096) && PowerOfTwo(8192) && PowerOfTwo(16384);
  }

  /** At most two events for each bucket, unless there are 32768 buckets already, and at least one for every two, except at
      the very beginning. */
  predicate OnPace(buckets: nat, size: nat) {
    && PowerOfTwo(buckets) && buckets <= 32768
    && (size <= 2 * buckets || buckets == 32768)
    && (size >= buckets / 2 || (size == 0 && buckets == 2))
  }

  lemma UnsettledSize(c: Calendar, call: Call)
    requires Valid(c) && Allowed(c, call)
    ensures var d := Unsettled(c, call);
            && |d.buckets| == |c.buckets|
            && (if call.Insertion? then d.size == c.size + 1 else c.size > 0 && d.size == c.size - 1)
  {
    match call
    case Insertion(ev) => WithEventValid(c, ev);
    case Next =>
      WithoutNextValid(c);
      RemoveNextLeast(c);
    case Removal(ev) => WithoutListedValid(c, ev);
  }

  lemma ResizedSize(rule: Rule, c: Calendar, n: nat)
    requires Valid(c) && n > 0 && Resized(rule, c, n).Some?
    ensures |Resized(rule, c, n).value.buckets| == n && Resized(rule, c, n).value.size == c.size
  {
  }

  lemma InsertionOnPace(buckets: nat, size: nat)
    requires OnPace(buckets, size)
    ensures OnPace(if size + 1 > 2 * buckets && buckets < 32768 then 2 * buckets else buckets, size + 1)
  {
    if size + 1 > 2 * buckets && buckets < 32768 {
      MostBuckets();
      NextPower(buckets, 32768);
      assert 2 * buckets / 2 == buckets && 2 * buckets % 2 == 0;
    }
  }

  lemma RemovalOnPace(buckets: nat, size: nat)
    requires OnPace(buckets, size) && size > 0
    ensures OnPace(if size - 1 < buckets / 2 then buckets / 2 else buckets, size - 1)
  {
    assert PowerOfTwo(1);
  }

  /** The number of buckets after a call. */
  function BucketsAfter(call: Call, buckets: nat, size: nat): nat {
    if call.Insertion? then (if size > buckets * 2 && buckets < 32768 then buckets * 2 else buckets)
    else if size < buckets / 2 then buckets / 2 else buckets
  }

  lemma SettledSize(rule: Rule, c: Calendar, call: Call, d: Calendar)
    requires Valid(c) && Allowed(c, call) && Unsettled(c, call) == d && Called(rule, c, call).Some?
    ensures var r := Called(rule, c, call).value;
            |r.buckets| == BucketsAfter(call, |d.buckets|, d.size) && r.size == d.size
  {
    if call.Insertion? && Crowded(d) {
      ResizedSize(rule, d, |d.buckets| * 2);
    } else if !call.Insertion? && Sparse(d) {
      ResizedSize(rule, d, |d.buckets| / 2);
    }
  }

  lemma CallOnPace(call: Call, buckets: nat, before: nat, size: nat)
    requires OnPace(buckets, before) && if call.Insertion? then size == before + 1 else before > 0 && size == before - 1
    ensures OnPace(BucketsAfter(call, buckets, size), size)
  {
    if call.Insertion? {
      InsertionOnPace(buckets, before);
    } else {
      RemovalOnPace(buckets, before);
    }
  }

  lemma StepOnPace(rule: Rule, c: Calendar, call: Call)
    requires Valid(c) && OnPace(|c.buckets|, c.size) && Stepped(rule, c, call).Running?
    ensures var d := Stepped(rule, c, call).c; OnPace(|d.buckets|, d.size)
  {
    var d := Unsettled(c, call);
    UnsettledSize(c, call);
    SettledSize(rule, c, call, d);
    CallOnPace(call, |c.buckets|, c.size, d.size);
  }

  /** Over any run, whatever rule chooses the widths. */
  lemma {:induction false} BucketsKeepPace(rule: Rule, calls: seq<Call>)
    requires After(rule, calls).Running?
    ensures var c := After(rule, calls).c; OnPace(|c.buckets|, c.size)
  {
    if calls == [] {
      assert PowerOfTwo(1);
    } else {
      var init := calls[..|calls| - 1];
      BucketsKeepPace(rule, init);
      StepOnPace(rule, After(rule, init).c, calls[|calls| - 1]);
    }
  }

  // ----- The width ------------------------------------------------------------------------------------

  lemma {:induction false} EvenSum(s: seq<Event>, n: nat, gap: nat, limit: Option<int>)
    requires n <= |s| && (forall i :: 0 < i < |s| ==> Gap(s, i) == gap) && (limit.Some? ==> limit.value >= gap)
    ensures GapSum(s, n, limit) == if n < 2 then 0 else (n - 1) * gap
  {
    if n >= 2 {
      EvenSum(s, n - 1, gap, limit);
      assert (n - 1) * gap == (n - 2) * gap + gap;
    }
  }

  /** For samples at even distances the width is three times the time from the first to the last. */
  lemma EvenWidth(s: seq<Event>, gap: nat)
    requires |s| >= 2 && gap > 0 && forall i :: 0 < i < |s| ==> Gap(s, i) == gap
    ensures Width(s) == 3 * (s[|s| - 1].ts - s[0].ts) % TWO32
  {
    var n := |s| - 1;
    EvenSum(s, |s|, gap, None);
    QuotientUnique(n * gap, n, gap, 0);
    EvenSum(s, |s|, gap, Some(Limit(s)));
    EvenSpan(s, |s|, gap);
    TimesAtLeast(n, gap);
  }

  lemma {:induction false} EvenSpan(s: seq<Event>, n: nat, gap: nat)
    requires 0 < n <= |s| && forall i :: 0 < i < |s| ==> Gap(s, i) == gap
    ensures s[n - 1].ts - s[0].ts == (n - 1) * gap
  {
    if n > 1 {
      EvenSpan(s, n - 1, gap);
      assert Gap(s, n - 1) == gap;
      assert (n - 1) * gap == (n - 2) * gap + gap;
    }
  }

  /** A gap of more than twice the average does not count: four events at even distances and one far away. */
  lemma FarEventIgnored(a: nat, u: nat)
    ensures Width([Event(a, u), Event(a + 1, u), Event(a + 2, u), Event(a + 3, u), Event(a + 100, u)]) == 9
  {
    var s := [Event(a, u), Event(a + 1, u), Event(a + 2, u), Event(a + 3, u), Event(a + 100, u)];
    assert Gap(s, 1) == Gap(s, 2) == Gap(s, 3) == 1 && Gap(s, 4) == 97;
    SumOfFive(s, None);
    SumOfFive(s, Some(50));
  }

  lemma SumOfFive(s: seq<Event>, limit: Option<int>)
    requires |s| == 5 && Gap(s, 1) == Gap(s, 2) == Gap(s, 3) == 1 && Gap(s, 4) == 97
    requires limit.Some? ==> limit.value == 50
    ensures GapSum(s, 5, limit) == if limit == None then 100 else 3
  {
    assert GapSum(s, 2, limit) == 1;
    assert GapSum(s, 3, limit) == 2;
    assert GapSum(s, 4, limit) == 3;
  }

  /** As many samples as events up to five, then five and one for each ten events, and never more than 25. */
  lemma SamplesCounted(size: nat)
    ensures size <= 5 ==> SampleCount(size) == size
    ensures 5 < size < 200 ==> SampleCount(size) == 5 + size / 10
    ensures size >= 200 ==> SampleCount(size) == 25
  {
  }
}
