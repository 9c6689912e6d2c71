/** The CalendarScheduler object: its loops over the buckets, and what each call does to the calendar. */
module CalendarScheduler {
  import opened Options
  import opened Numbers
  import opened Sequences
  import opened SchedulerEvents
  import opened CalendarOrder
  import opened CalendarResize
  import opened CalendarRuns

  // ----- Loops and the functions they compute -------------------------------------------------------

  lemma NextAround(l: nat, k: nat, n: nat)
    requires l < n && k < n
    ensures (Around(l, k, n) + 1) % n == if k + 1 < n then Around(l, k + 1, n) else l
    ensures k + 1 < n ==> Around(l, k + 1, n) != l
  {
    var i := Around(l, k, n);
    if i + 1 < n {
      ModUnique(i + 1, n, 0, i + 1);
    } else {
      ModUnique(i + 1, n, 1, 0);
    }
  }

  lemma InsertedHere(s: Bucket, ev: Event, i: nat)
    requires i <= |s| && Inserted(s, ev) == s[..i] + Inserted(s[i..], ev) && (i < |s| ==> Less(ev, s[i]))
    ensures Inserted(s, ev) == s[..i] + [ev] + s[i..]
  {
    Regroup(s[..i], [ev], s[i..]);
    assert i == |s| ==> s[i..] == [];
  }

  lemma InsertedNext(s: Bucket, ev: Event, i: nat)
    requires i < |s| && Inserted(s, ev) == s[..i] + Inserted(s[i..], ev) && !Less(ev, s[i])
    ensures Inserted(s, ev) == s[..i + 1] + Inserted(s[i + 1..], ev)
  {
    InsertedStep(s, ev, i);
    Regroup(s[..i], [s[i]], Inserted(s[i + 1..], ev));
    assert s[..i] + [s[i]] == s[..i + 1];
  }

  lemma InsertedStep(s: Bucket, ev: Event, i: nat)
    requires i < |s| && !Less(ev, s[i])
    ensures Inserted(s[i..], ev) == [s[i]] + Inserted(s[i + 1..], ev)
  {
    assert s[i..][1..] == s[i + 1..];
  }

  lemma {:induction false} InsertAllSnoc(c: Calendar, es: seq<Event>, e: Event)
    requires Usable(c)
    ensures InsertAll(c, es + [e]) == CalendarOrder.DoInsert(InsertAll(c, es), e)
    decreases es
  {
    if es == [] {
      assert [e][1..] == [];
    } else {
      assert (es + [e])[1..] == es[1..] + [e];
      InsertAllSnoc(CalendarOrder.DoInsert(c, es[0]), es[1..], e);
    }
  }

  lemma {:induction false} TakeOutSnoc(c: Calendar, n: nat)
    requires |TakeOut(TakeNext, c, n + 1).1| == n + 1
    ensures var (d, s) := TakeOut(TakeNext, c, n);
            && |s| == n && TakeNext(d).Some?
            && TakeOut(TakeNext, c, n + 1) == (TakeNext(d).value.0, s + [TakeNext(d).value.1])
    decreases n
  {
    if n > 0 {
      var (d, next) := TakeNext(c).value;
      var (r, rest) := TakeOut(TakeNext, d, n - 1);
      TakeOutSnoc(d, n - 1);
      Regroup([next], rest, [TakeNext(r).value.1]);
    } else {
      var (d, next) := TakeNext(c).value;
      assert TakeOut(TakeNext, d, 0) == (d, []);
      assert [next] + [] == [] + [next];
    }
  }

  lemma {:induction false} TakeOutLess(c: Calendar, n: nat, m: nat)
    requires n <= m && |TakeOut(TakeNext, c, m).1| == m
    ensures |TakeOut(TakeNext, c, n).1| == n
    decreases m
  {
    if n < m {
      TakeOutSnoc(c, m - 1);
      TakeOutLess(c, n, m - 1);
    }
  }

  lemma {:induction false} ConcatSnoc(buckets: seq<Bucket>, i: nat)
    requires i < |buckets|
    ensures Concat(buckets[..i + 1]) == Concat(buckets[..i]) + buckets[i]
  {
    assert buckets[..i + 1][..i] == buckets[..i];
  }

  lemma PrefixSnoc(done: seq<Event>, s: Bucket, j: nat)
    requires j < |s|
    ensures done + s[..j + 1] == done + s[..j] + [s[j]]
  {
    assert s[..j + 1] == s[..j] + [s[j]];
    Regroup(done, s[..j], [s[j]]);
  }

  // ----- What a call makes of a calendar ------------------------------------------------------------

  lemma CalledInsertion(rule: Rule, c: Calendar, ev: Event)
    requires Valid(c) && Allowed(c, Insertion(ev))
    ensures Valid(WithEvent(c, ev)) && Called(rule, c, Insertion(ev)) == ResizedUp(rule, WithEvent(c, ev))
    ensures Called(rule, c, Insertion(ev)).Some? ==>
              Events(Called(rule, c, Insertion(ev)).value) == Events(c) + multiset{ev}
  {
    WithEventValid(c, ev);
  }

  lemma CalledNext(rule: Rule, c: Calendar)
    requires Valid(c) && Allowed(c, Next)
    ensures CalendarOrder.DoRemoveNext(c).Some? && LeastOf(Events(c), NextEvent(c))
    ensures Valid(WithoutNext(c)) && Called(rule, c, Next) == ResizedDown(rule, WithoutNext(c))
    ensures Called(rule, c, Next).Some? ==>
              Events(Called(rule, c, Next).value) == Events(c) - multiset{NextEvent(c)}
  {
    WithoutNextValid(c);
  }

  lemma CalledRemoval(rule: Rule, c: Calendar, ev: Event)
    requires Valid(c) && Listed(c, ev)
    ensures c.size > 0 && Valid(WithoutListed(c, ev))
    ensures Called(rule, c, Removal(ev)) == ResizedDown(rule, WithoutListed(c, ev))
  {
    WithoutListedValid(c, ev);
  }

  lemma Restored(c: Calendar, r: Calendar, samples: seq<Event>)
    requires Valid(c) && TakeOut(TakeNext, c, SampleCount(c.size)) == (r, samples)
    ensures Usable(r) && c == InsertAll(r, samples).(lastBucket := c.lastBucket, bucketTop := c.bucketTop, lastPrio := c.lastPrio)
  {
    NextInOrder(c, SampleCount(c.size));
    SamplingRestores(c);
  }

  // ----- Helpers of the loops -----------------------------------------------------------------------

  method SumGaps(s: seq<Event>, limit: Option<int>) returns (sum: int)
    ensures sum == GapSum(s, |s|, limit)
  {
    sum := 0;
    for i := 0 to |s|
      invariant sum == GapSum(s, i, limit)
    {
      if i > 0 && (limit == None || Gap(s, i) <= limit.value) {
        sum := sum + Gap(s, i);
      }
    }
  }

  method WidthOf(samples: seq<Event>) returns (w: nat)
    requires |samples| >= 2
    ensures w == Width(samples)
  {
    var total := SumGaps(samples, None);
    var separation := SumGaps(samples, Some(total / (|samples| - 1) * 2));
    w := (if separation * 3 > 1 then separation * 3 else 1) % TWO32;
  }

  method Find(s: Bucket, uid: nat) returns (i: nat)
    ensures i == IndexOf(s, uid)
  {
    i := 0;
    while i < |s| && s[i].uid != uid
      invariant i <= |s| && IndexOf(s, uid) == i + IndexOf(s[i..], uid)
    {
      assert s[i..][1..] == s[i + 1..];
      i := i + 1;
    }
  }

  // ----- The object ---------------------------------------------------------------------------------

  class CalendarScheduler {
    var buckets: array<Bucket>
    var width: nat
    var lastBucket: nat
    var bucketTop: nat
    var lastPrio: nat
    var qSize: nat

    ghost function View(): Calendar
      reads this, buckets
    {
      Calendar(buckets[..], width, lastBucket, bucketTop, lastPrio, qSize)
    }

    constructor ()
      ensures View() == EMPTY && Valid(View()) && fresh(buckets)
    {
      buckets := new Bucket[2](_ => []);
      width, lastBucket, bucketTop, lastPrio, qSize := 1, 0, 1, 0, 0;
      new;
      EmptyValid();
      assert buckets[..] == [[], []] == EMPTY.buckets;
    }

    method Init(n: nat, newWidth: nat, startPrio: nat)
      requires n > 0 && newWidth > 0
      modifies this
      ensures View() == CalendarOrder.Init(n, newWidth, startPrio, old(qSize)) && fresh(buckets)
    {
      buckets := new Bucket[n](_ => []);
      width := newWidth;
      lastPrio := startPrio;
      lastBucket := HashOf(startPrio, newWidth, n);
      bucketTop := (startPrio / newWidth + 1) * newWidth;
      assert buckets[..] == seq(n, _ => []);
    }

    method DoInsert(ev: Event)
      requires Usable(View())
      modifies buckets
      ensures View() == CalendarOrder.DoInsert(old(View()), ev)
    {
      var b := HashOf(ev.ts, width, buckets.Length);
      var s := buckets[b];
      for i := 0 to |s|
        invariant Inserted(s, ev) == s[..i] + Inserted(s[i..], ev)
        invariant buckets[..] == old(buckets[..])
      {
        if Less(ev, s[i]) {
          InsertedHere(s, ev, i);
          buckets[b] := s[..i] + [ev] + s[i..];
          return;
        }
        InsertedNext(s, ev, i);
      }
      InsertedHere(s, ev, |s|);
      assert s[..|s|] + [ev] + s[|s|..] == s + [ev];
      buckets[b] := s + [ev];
    }

    /** The loop that PeekNext and DoRemoveNext share. */
    method Look() returns (bucket: nat, top: Option<nat>)
      requires Usable(View()) && Search(View(), 0, bucketTop, None).Some?
      ensures Search(View(), 0, bucketTop, None) == Some(Pick(bucket, top))
    {
      var n := buckets.Length;
      var i: nat, t: nat := lastBucket, bucketTop;
      var min: Option<nat> := None;
      ghost var c, k := View(), 0;
      while true
        invariant k < n && i == Around(lastBucket, k, n)
        invariant min.Some? ==> SomeFront(c, min.value)
        invariant Search(c, 0, bucketTop, None) == Search(c, k, t, min)
        decreases n - k
      {
        if buckets[i] != [] {
          var next := buckets[i][0];
          if next.ts < t {
            return i, Some(t);
          }
          if min == None || Less(next, buckets[min.value][0]) {
            min := Some(i);
          }
        }
        NextAround(lastBucket, k, n);
        i := (i + 1) % n;
        t := t + width;
        k := k + 1;
        if i == lastBucket {
          break;
        }
      }
      return min.value, None;
    }

    method PeekNext() returns (next: Event)
      requires Usable(View()) && CalendarOrder.DoRemoveNext(View()).Some?
      ensures next == NextEvent(View())
    {
      var bucket, _ := Look();
      next := buckets[bucket][0];
    }

    method DoRemoveNext() returns (next: Event)
      requires Usable(View()) && CalendarOrder.DoRemoveNext(View()).Some?
      modifies this, buckets
      ensures Some((View(), next)) == old(CalendarOrder.DoRemoveNext(View())) && buckets == old(buckets)
    {
      var bucket, top := Look();
      next := buckets[bucket][0];
      lastPrio := next.ts;
      if top.Some? {
        lastBucket := bucket;
        bucketTop := top.value;
      } else {
        lastBucket := HashOf(next.ts, width, buckets.Length);
        bucketTop := (next.ts / width + 1) * width;
      }
      buckets[bucket] := buckets[bucket][1..];
    }

    method TakeSamples(n: nat) returns (samples: seq<Event>)
      requires |TakeOut(TakeNext, View(), n).1| == n
      modifies this, buckets
      ensures (View(), samples) == old(TakeOut(TakeNext, View(), n)) && buckets == old(buckets)
    {
      samples := [];
      ghost var c := View();
      for i := 0 to n
        invariant (View(), samples) == TakeOut(TakeNext, c, i) && buckets == old(buckets)
      {
        TakeOutLess(c, i + 1, n);
        TakeOutSnoc(c, i);
        var next := DoRemoveNext();
        samples := samples + [next];
      }
    }

    method PutSamples(samples: seq<Event>)
      requires Usable(View())
      modifies buckets
      ensures View() == InsertAll(old(View()), samples)
    {
      ghost var c := View();
      assert samples[..0] == [];
      for i := 0 to |samples|
        invariant Usable(View()) && View() == InsertAll(c, samples[..i])
      {
        InsertAllSnoc(c, samples[..i], samples[i]);
        assert samples[..i] + [samples[i]] == samples[..i + 1];
        DoInsert(samples[i]);
      }
      assert samples[..|samples|] == samples;
    }

    /** Take some events out and put them back. */
    method Sample() returns (samples: seq<Event>)
      requires Valid(View())
      modifies this, buckets
      ensures View() == old(View()) && buckets == old(buckets) && samples == Samples(View())
    {
      ghost var c := View();
      SamplesOf(c);
      var bucket, top, prio := lastBucket, bucketTop, lastPrio;
      samples := TakeSamples(SampleCount(qSize));
      Restored(c, View(), samples);
      PutSamples(samples);
      lastBucket, bucketTop, lastPrio := bucket, top, prio;
    }

    /** The calendar is the same afterwards. */
    method CalculateNewWidth() returns (w: nat)
      requires Valid(View())
      modifies this, buckets
      ensures View() == old(View()) && buckets == old(buckets) && w == NewWidth(View())
    {
      if qSize < 2 {
        return 1;
      }
      SamplesOf(View());
      var samples := Sample();
      w := WidthOf(samples);
    }

    method DoResize(n: nat, newWidth: nat)
      requires n > 0 && newWidth > 0
      modifies this
      ensures View() == CalendarResize.DoResize(old(View()), n, newWidth) && fresh(buckets)
    {
      var oldBuckets := buckets;
      ghost var all := oldBuckets[..];
      Init(n, newWidth, lastPrio);
      ghost var c := View();
      for i := 0 to oldBuckets.Length
        invariant Usable(View()) && View() == InsertAll(c, Concat(all[..i])) && fresh(buckets) && oldBuckets[..] == all
      {
        var s := oldBuckets[i];
        assert Concat(all[..i]) + s[..0] == Concat(all[..i]);
        for j := 0 to |s|
          invariant Usable(View()) && View() == InsertAll(c, Concat(all[..i]) + s[..j])
          invariant fresh(buckets) && oldBuckets[..] == all
        {
          InsertAllSnoc(c, Concat(all[..i]) + s[..j], s[j]);
          PrefixSnoc(Concat(all[..i]), s, j);
          DoInsert(s[j]);
        }
        assert s[..|s|] == s;
        ConcatSnoc(all, i);
      }
      assert all[..|all|] == all;
    }

    /** False stands for the division by zero. */
    method Resize(n: nat) returns (ok: bool)
      requires Valid(View()) && n > 0
      modifies this, buckets
      ensures ok <==> old(Resized(NewWidth, View(), n)).Some?
      ensures ok ==> Some(View()) == old(Resized(NewWidth, View(), n)) && fresh(buckets)
    {
      var w := CalculateNewWidth();
      if w == 0 {
        return false;
      }
      DoResize(n, w);
      ok := true;
    }

    method ResizeUp() returns (ok: bool)
      requires Valid(View())
      modifies this, buckets
      ensures ok <==> old(ResizedUp(NewWidth, View())).Some?
      ensures ok ==> Some(View()) == old(ResizedUp(NewWidth, View())) && (buckets == old(buckets) || fresh(buckets))
    {
      ok := true;
      if qSize > buckets.Length * 2 && buckets.Length < 32768 {
        ok := Resize(buckets.Length * 2);
      }
    }

    method ResizeDown() returns (ok: bool)
      requires Valid(View())
      modifies this, buckets
      ensures ok <==> old(ResizedDown(NewWidth, View())).Some?
      ensures ok ==> Some(View()) == old(ResizedDown(NewWidth, View())) && (buckets == old(buckets) || fresh(buckets))
    {
      ok := true;
      if qSize < buckets.Length / 2 {
        ok := Resize(buckets.Length / 2);
      }
    }

    method IsEmpty() returns (empty: bool)
      requires Valid(View())
      ensures empty <==> Events(View()) == multiset{}
    {
      empty := qSize == 0;
    }

    method Insert(ev: Event) returns (ok: bool)
      requires Valid(View()) && Allowed(View(), Insertion(ev))
      modifies this, buckets
      ensures ok <==> old(Called(NewWidth, View(), Insertion(ev))).Some?
      ensures ok ==> Some(View()) == old(Called(NewWidth, View(), Insertion(ev)))
      ensures ok ==> Events(View()) == old(Events(View())) + multiset{ev}
    {
      CalledInsertion(NewWidth, View(), ev);
      ghost var d := WithEvent(View(), ev);
      DoInsert(ev);
      qSize := qSize + 1;
      assert View() == d;
      ok := ResizeUp();
    }

    /** The earliest event. */
    method RemoveNext() returns (ok: bool, next: Event)
      requires Valid(View()) && Allowed(View(), Next)
      modifies this, buckets
      ensures ok <==> old(Called(NewWidth, View(), Next)).Some?
      ensures ok ==> Some(View()) == old(Called(NewWidth, View(), Next))
      ensures LeastOf(old(Events(View())), next)
      ensures ok ==> Events(View()) == old(Events(View())) - multiset{next}
    {
      CalledNext(NewWidth, View());
      ghost var d := WithoutNext(View());
      next := DoRemoveNext();
      qSize := qSize - 1;
      assert View() == d;
      ok := ResizeDown();
    }

    /** Take out the event at i of bucket b, which has the number of ev. */
    method Erase(b: nat, i: nat, ghost ev: Event)
      requires Listed(View(), ev) && qSize > 0
      requires b == Hash(View(), ev.ts) && i == IndexOf(buckets[b], ev.uid)
      modifies this`qSize, buckets
      ensures View() == old(WithoutListed(View(), ev))
    {
      buckets[b] := buckets[b][..i] + buckets[b][i + 1..];
      qSize := qSize - 1;
    }

    /** Not found stands for the failed assertion that the event is there. */
    method Remove(ev: Event) returns (found: bool, ok: bool)
      requires Valid(View())
      modifies this, buckets
      ensures found <==> old(Listed(View(), ev))
      ensures !found ==> ok && View() == old(View())
      ensures found ==> (ok <==> old(Called(NewWidth, View(), Removal(ev))).Some?)
      ensures found && ok ==> Some(View()) == old(Called(NewWidth, View(), Removal(ev)))
    {
      var b := HashOf(ev.ts, width, buckets.Length);
      var s := buckets[b];
      var i := Find(s, ev.uid);
      if i == |s| {
        return false, true;
      }
      CalledRemoval(NewWidth, View(), ev);
      Erase(b, i, ev);
      ok := ResizeDown();
      found := true;
    }
  }
}
