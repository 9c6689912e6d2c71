/** The HeapScheduler object: its loops over the array, and what each call does to the heap. */
module HeapScheduler {
  import opened SchedulerEvents
  import opened HeapOrder

  class HeapScheduler {
    var heap: Heap

    constructor ()
      ensures |heap| == 1 && HeapOrdered(heap)
    {
      heap := [Event(0, 0)];
    }

    method Exch(a: nat, b: nat)
      requires a < |heap| && b < |heap|
      modifies this
      ensures heap == Swap(old(heap), a, b)
    {
      var tmp := heap[a];
      heap := heap[a := heap[b]];
      heap := heap[b := tmp];
    }

    method BottomUp()
      requires |heap| > 1
      modifies this
      ensures heap == SiftUp(old(heap), |old(heap)| - 1)
    {
      var index := |heap| - 1;
      while index != 1 && Less(heap[index], heap[index / 2])
        invariant 1 <= index < |heap|
        invariant SiftUp(heap, index) == SiftUp(old(heap), |old(heap)| - 1)
        decreases index
      {
        Exch(index, index / 2);
        index := index / 2;
      }
    }

    method TopDown(start: nat)
      requires start >= 1
      modifies this
      ensures heap == SiftDown(old(heap), start)
    {
      var index := start;
      var right := index * 2 + 1;
      while right < |heap|
        invariant index >= 1 && right == index * 2 + 1 && |heap| == |old(heap)|
        invariant SiftDown(heap, index) == SiftDown(old(heap), start)
        decreases |heap| - index
      {
        var left := index * 2;
        var tmp := Smallest(heap, left, right);
        if Less(heap[index], heap[tmp]) {
          return;
        }
        Exch(index, tmp);
        index := tmp;
        right := index * 2 + 1;
      }
      if index >= |heap| {
        return;
      }
      var left := index * 2;
      if left >= |heap| {
        return;
      }
      if Less(heap[index], heap[left]) {
        return;
      }
      Exch(index, left);
    }

    method Insert(ev: Event)
      modifies this
      ensures heap == Inserted(old(heap), ev)
      ensures Events(heap) == old(Events(heap)) + multiset{ev}
      ensures old(HeapOrdered(heap)) ==> HeapOrdered(heap)
    {
      InsertedKeeps(heap, ev);
      heap := heap + [ev];
      BottomUp();
    }

    method IsEmpty() returns (empty: bool)
      ensures empty <==> Events(heap) == multiset{}
    {
      empty := |heap| == 1;
      assert !empty ==> heap[1] in Events(heap);
    }

    method PeekNext() returns (next: Event)
      requires Events(heap) != multiset{}
      ensures next in Events(heap) && (HeapOrdered(heap) ==> LeastOf(Events(heap), next))
    {
      NextRemoved(heap);
      next := heap[1];
    }

    /** The three steps that RemoveNext and Remove share. */
    method RemoveAt(i: nat)
      requires 1 <= i < |heap|
      modifies this
      ensures heap == Removed(old(heap), i)
    {
      Exch(i, |heap| - 1);
      heap := heap[..|heap| - 1];
      TopDown(i);
    }

    /** The earliest event, if the heap is in order; it stays in order. */
    method RemoveNext() returns (next: Event)
      requires Events(heap) != multiset{}
      modifies this
      ensures heap == Removed(old(heap), 1)
      ensures next in old(Events(heap)) && Events(heap) == old(Events(heap)) - multiset{next}
      ensures old(HeapOrdered(heap)) ==> HeapOrdered(heap) && LeastOf(old(Events(heap)), next)
    {
      NextRemoved(heap);
      next := heap[1];
      RemoveAt(1);
    }

    /** False stands for the failed assertion that the event is there. */
    method Remove(uid: nat) returns (found: bool)
      modifies this
      ensures found <==> exists e :: e in old(Events(heap)) && e.uid == uid
      ensures found <==> FirstAt(old(heap), uid, 1) < |old(heap)|
      ensures heap == Called(old(heap), Removal(uid))
      ensures found ==> Events(heap) == old(Events(heap)) - multiset{old(heap)[FirstAt(old(heap), uid, 1)]}
      ensures old(HeapOrdered(heap)) ==> (HeapOrdered(heap) <==> CallFits(old(heap), Removal(uid)))
    {
      NumberThere(heap, uid);
      if HeapOrdered(heap) {
        CallOrdered(heap, Removal(uid));
      }
      var i := 1;
      while i < |heap|
        invariant 1 <= i <= |heap| && heap == old(heap) && FirstAt(heap, uid, i) == FirstAt(heap, uid, 1)
      {
        if heap[i].uid == uid {
          RemovedKeeps(heap, i);
          RemoveAt(i);
          return true;
        }
        i := i + 1;
      }
      found := false;
    }
  }
}
