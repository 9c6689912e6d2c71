/** The binary heap of heap-scheduler.cc on values: what its operations make of the array, and
    which of them keep it in heap order. The array starts at index 1; index 0 is wasted. */
module HeapOrder {
  import opened SchedulerEvents

  type Heap = h: seq<Event> | h != [] witness [Event(0, 0)]

  function Swap(h: Heap, a: nat, b: nat): (r: Heap)
    requires a < |h| && b < |h|
    ensures |r| == |h|
  {
    h[a := h[b]][b := h[a]]
  }

  /** The events in the heap. */
  function Events(h: Heap): multiset<Event> {
    multiset(h[1..])
  }

  // ----- Heap order ---------------------------------------------------------------------------

  /** The event at k is not less than its parent. */
  predicate EdgeOk(h: Heap, k: nat)
    requires 2 <= k < |h|
  {
    !Less(h[k], h[k / 2])
  }

  predicate HeapOrdered(h: Heap) {
    forall k {:trigger EdgeOk(h, k)} :: 2 <= k < |h| ==> EdgeOk(h, k)
  }

  /** In a heap in order no event is less than the root. */
  lemma {:induction false} RootLeast(h: Heap, k: nat)
    requires HeapOrdered(h) && 1 <= k < |h|
    ensures !Less(h[k], h[1])
    decreases k
  {
    if k > 1 {
      assert EdgeOk(h, k);
      RootLeast(h, k / 2);
    }
  }

  // ----- Moving one event up or down --------------------------------------------------------------

  /** BottomUp. */
  function SiftUp(h: Heap, i: nat): (r: Heap)
    requires 1 <= i < |h|
    ensures |r| == |h|
    decreases i
  {
    if i > 1 && Less(h[i], h[i / 2]) then SiftUp(Swap(h, i, i / 2), i / 2) else h
  }

  function Smallest(h: Heap, a: nat, b: nat): nat
    requires a < |h| && b < |h|
  {
    if Less(h[a], h[b]) then a else b
  }

  /** TopDown. */
  function SiftDown(h: Heap, i: nat): (r: Heap)
    requires i >= 1
    ensures |r| == |h|
    decreases |h| - i
  {
    if 2 * i + 1 < |h| then
      var t := Smallest(h, 2 * i, 2 * i + 1);
      if Less(h[i], h[t]) then h else SiftDown(Swap(h, i, t), t)
    else if 2 * i < |h| && !Less(h[i], h[2 * i]) then Swap(h, i, 2 * i)
    else h
  }

  lemma SwapKeeps(h: Heap, a: nat, b: nat)
    requires 1 <= a < |h| && 1 <= b < |h|
    ensures Events(Swap(h, a, b)) == Events(h)
  {
    var s := h[1..];
    assert Swap(h, a, b)[1..] == s[a - 1 := s[b - 1]][b - 1 := s[a - 1]];
  }

  lemma {:induction false} SiftUpKeeps(h: Heap, i: nat)
    requires 1 <= i < |h|
    ensures Events(SiftUp(h, i)) == Events(h)
    decreases i
  {
    if i > 1 && Less(h[i], h[i / 2]) {
      SwapKeeps(h, i, i / 2);
      SiftUpKeeps(Swap(h, i, i / 2), i / 2);
    }
  }

  lemma {:induction false} SiftDownKeeps(h: Heap, i: nat)
    requires i >= 1
    ensures Events(SiftDown(h, i)) == Events(h)
    decreases |h| - i
  {
    if 2 * i + 1 < |h| {
      var t := Smallest(h, 2 * i, 2 * i + 1);
      if !Less(h[i], h[t]) {
        SwapKeeps(h, i, t);
        SiftDownKeeps(Swap(h, i, t), t);
      }
    } else if 2 * i < |h| {
      SwapKeeps(h, i, 2 * i);
    }
  }

  /** The child c of i is not less than the parent of i. */
  predicate SkipOk(h: Heap, i: nat, c: nat)
    requires 2 <= i < |h| && c < |h|
  {
    !Less(h[c], h[i / 2])
  }

  predicate SkipsOk(h: Heap, i: nat) {
    forall c {:trigger SkipOk(h, i, c)} :: 2 <= i < |h| && i < c < |h| && c / 2 == i ==> SkipOk(h, i, c)
  }

  /** In order but for the edge above i. */
  predicate OrderedButAbove(h: Heap, i: nat) {
    && (forall k {:trigger EdgeOk(h, k)} :: 2 <= k < |h| && k != i ==> EdgeOk(h, k))
    && SkipsOk(h, i)
  }

  /** In order but for the edges below i. */
  predicate OrderedButBelow(h: Heap, i: nat) {
    && (forall k {:trigger EdgeOk(h, k)} :: 2 <= k < |h| && k / 2 != i ==> EdgeOk(h, k))
    && SkipsOk(h, i)
  }

  lemma UpStep(h: Heap, i: nat)
    requires 2 <= i < |h| && OrderedButAbove(h, i) && Less(h[i], h[i / 2])
    ensures OrderedButAbove(Swap(h, i, i / 2), i / 2)
  {
    var p := i / 2;
    var h' := Swap(h, i, p);
    forall k | 2 <= k < |h| && k != p
      ensures EdgeOk(h', k)
    {
      assert k != i ==> EdgeOk(h, k);
      assert k / 2 == i ==> SkipOk(h, i, k);
    }
    forall c | 2 <= p && p < c < |h| && c / 2 == p
      ensures SkipOk(h', p, c)
    {
      assert EdgeOk(h, p);
      assert c != i ==> EdgeOk(h, c);
    }
  }

  lemma {:induction false} SiftUpOrders(h: Heap, i: nat)
    requires 1 <= i < |h| && OrderedButAbove(h, i)
    ensures HeapOrdered(SiftUp(h, i))
    decreases i
  {
    if i > 1 && Less(h[i], h[i / 2]) {
      UpStep(h, i);
      SiftUpOrders(Swap(h, i, i / 2), i / 2);
    } else {
      assert i > 1 ==> EdgeOk(h, i);
    }
  }

  lemma DownStep(h: Heap, i: nat, t: nat)
    requires 1 <= i && i < t < |h| && t / 2 == i && OrderedButBelow(h, i)
    requires !Less(h[i], h[t])
    requires forall c :: i < c < |h| && c / 2 == i ==> !Less(h[c], h[t])
    ensures OrderedButBelow(Swap(h, i, t), t)
  {
    var h' := Swap(h, i, t);
    forall k | 2 <= k < |h| && k / 2 != t
      ensures EdgeOk(h', k)
    {
      assert k / 2 != i ==> EdgeOk(h, k);
      assert k == i ==> SkipOk(h, i, t);
    }
    forall c | t < c < |h| && c / 2 == t
      ensures SkipOk(h', t, c)
    {
      assert EdgeOk(h, c);
    }
  }

  lemma {:induction false} SiftDownOrders(h: Heap, i: nat)
    requires i >= 1 && OrderedButBelow(h, i)
    ensures HeapOrdered(SiftDown(h, i))
    decreases |h| - i
  {
    if 2 * i + 1 < |h| {
      var t := Smallest(h, 2 * i, 2 * i + 1);
      if Less(h[i], h[t]) {
        assert forall k: nat :: 2 <= k < |h| && k / 2 == i ==> EdgeOk(h, k);
      } else {
        DownStep(h, i, t);
        SiftDownOrders(Swap(h, i, t), t);
      }
    } else if 2 * i < |h| && !Less(h[i], h[2 * i]) {
      DownStep(h, i, 2 * i);
      assert forall k: nat :: 2 <= k < |h| ==> k / 2 != 2 * i;
    } else {
      assert forall k: nat :: 2 <= k < |h| && k / 2 == i ==> EdgeOk(h, k);
    }
  }

  // ----- The operations -----------------------------------------------------------------------

  function Inserted(h: Heap, ev: Event): Heap {
    SiftUp(h + [ev], |h|)
  }

  /** The last event takes the place of the one at i. */
  function Replaced(h: Heap, i: nat): (r: Heap)
    requires 1 <= i < |h|
    ensures |r| == |h| - 1
  {
    Swap(h, i, |h| - 1)[..|h| - 1]
  }

  function Removed(h: Heap, i: nat): Heap
    requires 1 <= i < |h|
  {
    SiftDown(Replaced(h, i), i)
  }

  lemma InsertedKeeps(h: Heap, ev: Event)
    ensures Events(Inserted(h, ev)) == Events(h) + multiset{ev}
    ensures HeapOrdered(h) ==> HeapOrdered(Inserted(h, ev))
  {
    var longer: Heap := h + [ev];
    SiftUpKeeps(longer, |h|);
    assert longer[1..] == h[1..] + [ev];
    if HeapOrdered(h) {
      forall k | 2 <= k < |h|
        ensures EdgeOk(longer, k)
      {
        assert EdgeOk(h, k);
      }
      SiftUpOrders(longer, |h|);
    }
  }

  /** Without its unused slot 0, the array with i swapped to the end is the replaced one and the event at i. */
  lemma SwappedTail(h: Heap, i: nat)
    requires 1 <= i < |h|
    ensures Swap(h, i, |h| - 1)[1..] == Replaced(h, i)[1..] + [h[i]]
  {
    var n := |h| - 1;
    var swapped := Swap(h, i, n);
    assert swapped[n] == h[i];
    assert swapped == swapped[..n] + [swapped[n]];
  }

  lemma RemovedKeeps(h: Heap, i: nat)
    requires 1 <= i < |h|
    ensures Events(Removed(h, i)) == Events(h) - multiset{h[i]} && h[i] in Events(h)
  {
    SwapKeeps(h, i, |h| - 1);
    SiftDownKeeps(Replaced(h, i), i);
    SwappedTail(h, i);
    assert h[1..][i - 1] == h[i];
  }

  /** The event that takes the place of the one at i is not less than its new parent. */
  predicate Fits(h: Heap, i: nat)
    requires 1 <= i < |h|
  {
    i == 1 || i == |h| - 1 || !Less(h[|h| - 1], h[i / 2])
  }

  lemma FitsOrdered(h: Heap, i: nat)
    requires 1 <= i < |h| && HeapOrdered(h) && Fits(h, i)
    ensures OrderedButBelow(Replaced(h, i), i)
  {
    var r := Replaced(h, i);
    forall k | 2 <= k < |r| && k / 2 != i
      ensures EdgeOk(r, k)
    {
      assert EdgeOk(h, k);
    }
    forall c | 2 <= i < |r| && i < c < |r| && c / 2 == i
      ensures SkipOk(r, i, c)
    {
      assert EdgeOk(h, c) && EdgeOk(h, i);
    }
  }

  /** An event that is less than its new parent stays where it was put, below it. */
  lemma UnfitStays(h: Heap, i: nat)
    requires 1 <= i < |h| && HeapOrdered(h) && !Fits(h, i)
    ensures Removed(h, i) == Replaced(h, i) && !EdgeOk(Replaced(h, i), i)
  {
    var r := Replaced(h, i);
    assert EdgeOk(h, i);
    if 2 * i < |r| {
      assert EdgeOk(h, 2 * i);
    }
    if 2 * i + 1 < |r| {
      assert EdgeOk(h, 2 * i + 1);
    }
  }

  /** Remove keeps the heap in order exactly when the last event fits where it is put. */
  lemma RemovedOrderedIff(h: Heap, i: nat)
    requires 1 <= i < |h| && HeapOrdered(h)
    ensures HeapOrdered(Removed(h, i)) <==> Fits(h, i)
  {
    if Fits(h, i) {
      FitsOrdered(h, i);
      SiftDownOrders(Replaced(h, i), i);
    } else {
      UnfitStays(h, i);
    }
  }

  lemma LeastEvent(h: Heap, e: Event)
    requires HeapOrdered(h) && e in Events(h)
    ensures !Less(e, h[1])
  {
    var k :| 0 <= k < |h| - 1 && h[1..][k] == e;
    RootLeast(h, k + 1);
  }

  lemma RootIsLeast(h: Heap)
    requires HeapOrdered(h) && |h| > 1
    ensures LeastOf(Events(h), h[1])
  {
    assert h[1..][0] == h[1];
    forall e | e in Events(h)
      ensures !Less(e, h[1])
    {
      LeastEvent(h, e);
    }
  }

  /** Taking out the root keeps the order: whatever takes its place has no parent. */
  lemma NextRemoved(h: Heap)
    requires |h| > 1
    ensures h[1] in Events(h) && Events(Removed(h, 1)) == Events(h) - multiset{h[1]}
    ensures HeapOrdered(h) ==> HeapOrdered(Removed(h, 1)) && LeastOf(Events(h), h[1])
  {
    RemovedKeeps(h, 1);
    if HeapOrdered(h) {
      RemovedOrderedIff(h, 1);
      RootIsLeast(h);
    }
  }

  // ----- Removing the next event again and again ---------------------------------------------------

  function Drained(h: Heap): (r: seq<Event>)
    ensures |r| == |h| - 1
    decreases |h|
  {
    if |h| == 1 then [] else [h[1]] + Drained(Removed(h, 1))
  }

  lemma {:induction false} DrainedKeeps(h: Heap)
    ensures multiset(Drained(h)) == Events(h)
    decreases |h|
  {
    if |h| > 1 {
      RemovedKeeps(h, 1);
      DrainedKeeps(Removed(h, 1));
    }
  }

  /** From a heap in order the events come out in order of time, each once. */
  lemma {:induction false} DrainedInOrder(h: Heap)
    requires HeapOrdered(h)
    ensures SortedList(Drained(h)) && multiset(Drained(h)) == Events(h)
    decreases |h|
  {
    DrainedKeeps(h);
    if |h| > 1 {
      var rest := Drained(Removed(h, 1));
      NextRemoved(h);
      DrainedInOrder(Removed(h, 1));
      forall x | x in rest
        ensures !Less(x, h[1])
      {
        assert x in multiset(rest);
      }
      ConsSorted(h[1], rest);
    }
  }

  // ----- Whole runs ------------------------------------------------------------------------------

  datatype Call = Insertion(ev: Event) | Next | Removal(uid: nat)

  /** Where the search for a number that starts at k ends. */
  function FirstAt(h: Heap, uid: nat, k: nat): (i: nat)
    requires 1 <= k <= |h|
    ensures k <= i <= |h| && (i < |h| ==> h[i].uid == uid)
    decreases |h| - k
  {
    if k == |h| || h[k].uid == uid then k else FirstAt(h, uid, k + 1)
  }

  /** The search finds an event with the number if there is one. */
  lemma NumberThere(h: Heap, uid: nat)
    ensures FirstAt(h, uid, 1) < |h| <==> exists e :: e in Events(h) && e.uid == uid
  {
    var i := FirstAt(h, uid, 1);
    if i < |h| {
      assert h[1..][i - 1] == h[i];
      assert h[i] in Events(h);
    } else if e :| e in Events(h) && e.uid == uid {
      var j :| 0 <= j < |h| - 1 && h[1..][j] == e;
      NumberMissed(h, uid, 1, j + 1);
    }
  }

  lemma {:induction false} NumberMissed(h: Heap, uid: nat, k: nat, j: nat)
    requires 1 <= k <= j < |h| && h[j].uid == uid
    ensures FirstAt(h, uid, k) <= j
    decreases j - k
  {
    if h[k].uid != uid {
      NumberMissed(h, uid, k + 1, j);
    }
  }

  /** An empty heap has no next event, and a number that is not there is not removed. */
  function Called(h: Heap, call: Call): Heap {
    match call
    case Insertion(ev) => Inserted(h, ev)
    case Next => if |h| == 1 then h else Removed(h, 1)
    case Removal(uid) => if FirstAt(h, uid, 1) == |h| then h else Removed(h, FirstAt(h, uid, 1))
  }

  const EMPTY: Heap := [Event(0, 0)]

  function After(h: Heap, calls: seq<Call>): Heap {
    if calls == [] then h else Called(After(h, calls[..|calls| - 1]), calls[|calls| - 1])
  }

  /** If the call removes an event by its number, the last event fits in its place. */
  predicate CallFits(h: Heap, call: Call) {
    call.Removal? && FirstAt(h, call.uid, 1) < |h| ==> Fits(h, FirstAt(h, call.uid, 1))
  }

  predicate RunFits(h: Heap, calls: seq<Call>) {
    calls == [] ||
    (RunFits(h, calls[..|calls| - 1]) && CallFits(After(h, calls[..|calls| - 1]), calls[|calls| - 1]))
  }

  lemma CallOrdered(h: Heap, call: Call)
    requires HeapOrdered(h)
    ensures HeapOrdered(Called(h, call)) <==> CallFits(h, call)
  {
    match call
    case Insertion(ev) =>
      InsertedKeeps(h, ev);
    case Next =>
      if |h| > 1 {
        NextRemoved(h);
      }
    case Removal(uid) =>
      var i := FirstAt(h, uid, 1);
      if i < |h| {
        RemovedOrderedIff(h, i);
      }
  }

  /** After any calls of which every removal fits, the heap is in order, and a call of RemoveNext
      returns a least event. */
  lemma {:induction false} RunOrdered(calls: seq<Call>)
    requires RunFits(EMPTY, calls)
    ensures HeapOrdered(After(EMPTY, calls))
    ensures |After(EMPTY, calls)| > 1 ==> LeastOf(Events(After(EMPTY, calls)), After(EMPTY, calls)[1])
  {
    var h := After(EMPTY, calls);
    if calls != [] {
      RunOrdered(calls[..|calls| - 1]);
      CallOrdered(After(EMPTY, calls[..|calls| - 1]), calls[|calls| - 1]);
    }
    if |h| > 1 {
      RootIsLeast(h);
    }
  }

  // ----- A removal after which an event comes too late ---------------------------------------------

  function At(ts: nat): Event {
    Event(ts, ts)
  }

  /** Seven events in order; the one at 5 will have the last one, at 3, put in its place below 4. */
  function Seven(): Heap {
    [At(0), At(1), At(4), At(2), At(5), At(6), At(7), At(3)]
  }

  lemma SevenBreaks()
    ensures HeapOrdered(Seven()) && !Fits(Seven(), 4)
    ensures Removed(Seven(), 4) == [At(0), At(1), At(4), At(2), At(3), At(6), At(7)]
  {
    assert EdgeOk(Seven(), 2) && EdgeOk(Seven(), 3) && EdgeOk(Seven(), 4);
    assert EdgeOk(Seven(), 5) && EdgeOk(Seven(), 6) && EdgeOk(Seven(), 7);
  }

  lemma OneMore(h: Heap, calls: seq<Call>, call: Call, r: Heap)
    requires After(EMPTY, calls) == h && Called(h, call) == r
    ensures After(EMPTY, calls + [call]) == r
  {
    assert (calls + [call])[..|calls|] == calls;
  }

  lemma Insert1()
    ensures Inserted(EMPTY, At(1)) == [At(0), At(1)]
  {
  }

  lemma Insert4()
    ensures Inserted([At(0), At(1)], At(4)) == [At(0), At(1), At(4)]
  {
  }

  lemma Insert2()
    ensures Inserted([At(0), At(1), At(4)], At(2)) == [At(0), At(1), At(4), At(2)]
  {
  }

  lemma Insert5()
    ensures Inserted([At(0), At(1), At(4), At(2)], At(5)) == [At(0), At(1), At(4), At(2), At(5)]
  {
  }

  lemma Insert6()
    ensures Inserted([At(0), At(1), At(4), At(2), At(5)], At(6)) == [At(0), At(1), At(4), At(2), At(5), At(6)]
  {
  }

  lemma Insert7()
    ensures Inserted([At(0), At(1), At(4), At(2), At(5), At(6)], At(7))
         == [At(0), At(1), At(4), At(2), At(5), At(6), At(7)]
  {
  }

  lemma Insert3()
    ensures Inserted([At(0), At(1), At(4), At(2), At(5), At(6), At(7)], At(3)) == Seven()
  {
  }

  function SevenCalls(): seq<Call> {
    [Insertion(At(1))] + [Insertion(At(4))] + [Insertion(At(2))] + [Insertion(At(5))] + [Insertion(At(6))]
    + [Insertion(At(7))] + [Insertion(At(3))]
  }

  /** A scheduler comes to hold this heap by inserting the events at 1, 4, 2, 5, 6, 7 and 3. */
  lemma SevenBuilt()
    ensures After(EMPTY, SevenCalls()) == Seven()
  {
    var h1, h2 := [At(0), At(1)], [At(0), At(1), At(4)];
    var h3, h4 := h2 + [At(2)], h2 + [At(2), At(5)];
    var h5, h6 := h2 + [At(2), At(5), At(6)], h2 + [At(2), At(5), At(6), At(7)];
    var c1 := [Insertion(At(1))];
    var c2 := c1 + [Insertion(At(4))];
    var c3 := c2 + [Insertion(At(2))];
    var c4 := c3 + [Insertion(At(5))];
    var c5 := c4 + [Insertion(At(6))];
    var c6 := c5 + [Insertion(At(7))];
    assert [] + c1 == c1;
    Insert1();
    OneMore(EMPTY, [], Insertion(At(1)), h1);
    Insert4();
    OneMore(h1, c1, Insertion(At(4)), h2);
    Insert2();
    OneMore(h2, c2, Insertion(At(2)), h3);
    Insert5();
    OneMore(h3, c3, Insertion(At(5)), h4);
    Insert6();
    OneMore(h4, c4, Insertion(At(6)), h5);
    Insert7();
    OneMore(h5, c5, Insertion(At(7)), h6);
    Insert3();
    OneMore(h6, c6, Insertion(At(3)), Seven());
  }

  lemma NextTwo()
    ensures var h: Heap := [At(0), At(1), At(4), At(2), At(3), At(6), At(7)];
            var h1: Heap := [At(0), At(2), At(4), At(7), At(3), At(6)];
            Removed(h, 1) == h1 && Removed(h1, 1) == [At(0), At(4), At(3), At(7), At(6)]
  {
  }

  lemma DrainStep(h: Heap, first: Event, rest: Heap)
    requires |h| > 1 && h[1] == first && Removed(h, 1) == rest
    ensures Drained(h) == [first] + Drained(rest)
  {
  }

  lemma StillWaiting(h: Heap, k: nat)
    requires 1 < k < |h| && h[k] != h[1]
    ensures h[k] in Drained(Removed(h, 1))
  {
    RemovedKeeps(h, 1);
    DrainedKeeps(Removed(h, 1));
    assert h[1..][k - 1] == h[k];
    assert h[k] in Events(Removed(h, 1));
    assert h[k] in multiset(Drained(Removed(h, 1)));
  }

  lemma OutOfOrder(d: seq<Event>, a: Event, b: Event, c: Event, rest: seq<Event>, late: Event)
    requires d == [a] + ([b] + ([c] + rest)) && late in rest && Less(late, c)
    ensures d[2] == c && d[3..] == rest && !SortedList(d)
  {
    var j :| 0 <= j < |rest| && rest[j] == late;
    assert d[3 + j] == late;
    assert !InPlace(d, 2, 3 + j);
  }

  /** After that removal the event at 4 is the third to come out, and the one at 3 is still waiting. */
  lemma LateEvent()
    ensures var d := Drained(Removed(Seven(), 4));
            d[2] == At(4) && At(3) in d[3..] && !SortedList(d)
  {
    SevenBreaks();
    NextTwo();
    var h: Heap := [At(0), At(1), At(4), At(2), At(3), At(6), At(7)];
    var h1: Heap := [At(0), At(2), At(4), At(7), At(3), At(6)];
    var h2: Heap := [At(0), At(4), At(3), At(7), At(6)];
    DrainStep(h, At(1), h1);
    DrainStep(h1, At(2), h2);
    DrainStep(h2, At(4), Removed(h2, 1));
    StillWaiting(h2, 2);
    OutOfOrder(Drained(h), At(1), At(2), At(4), Drained(Removed(h2, 1)), At(3));
  }
}
