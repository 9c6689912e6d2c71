/** Runs of the calendar queue: what every call keeps, that time never runs backwards, when a call
    fails, and that it agrees with the binary heap. */
module CalendarRuns {
  import opened Options
  import opened SchedulerEvents
  import opened CalendarOrder
  import opened CalendarResize
  import H = HeapOrder

  // ----- Single calls ------------------------------------------------------------------------------

  predicate Crowded(c: Calendar) {
    c.size > |c.buckets| * 2 && |c.buckets| < 32768
  }

  predicate Sparse(c: Calendar) {
    c.size < |c.buckets| / 2
  }

  /** The same events wait, from the same time on. */
  ghost predicate SameQueue(c: Calendar, d: Calendar) {
    Valid(d) && Events(d) == Events(c) && d.lastPrio == c.lastPrio && d.size == c.size
  }

  /** How a width is chosen; the one of the calendar is NewWidth. */
  type Rule = Calendar -> nat

  /** None if the new width is zero, and the time is divided by it. */
  ghost function Resized(rule: Rule, c: Calendar, n: nat): (r: Option<Calendar>)
    requires Valid(c) && n > 0
    ensures r.Some? ==> SameQueue(c, r.value)
  {
    if rule(c) == 0 then None
    else
      DoResizeKeeps(c, n, rule(c));
      Some(DoResize(c, n, rule(c)))
  }

  ghost function ResizedUp(rule: Rule, c: Calendar): (r: Option<Calendar>)
    requires Valid(c)
    ensures r.Some? ==> SameQueue(c, r.value)
  {
    if Crowded(c) then Resized(rule, c, |c.buckets| * 2) else Some(c)
  }

  ghost function ResizedDown(rule: Rule, c: Calendar): (r: Option<Calendar>)
    requires Valid(c)
    ensures r.Some? ==> SameQueue(c, r.value)
  {
    if Sparse(c) then Resized(rule, c, |c.buckets| / 2) else Some(c)
  }

  function WithEvent(c: Calendar, ev: Event): Calendar
    requires Usable(c)
  {
    DoInsert(c, ev).(size := c.size + 1)
  }

  lemma WithEventValid(c: Calendar, ev: Event)
    requires Valid(c) && ev.ts >= c.lastPrio
    ensures Valid(WithEvent(c, ev)) && Events(WithEvent(c, ev)) == Events(c) + multiset{ev}
  {
    DoInsertFiles(c, ev);
  }

  /** The event that RemoveNext returns, and the calendar before it is resized. */
  function NextEvent(c: Calendar): Event
    requires Usable(c) && DoRemoveNext(c).Some?
  {
    DoRemoveNext(c).value.1
  }

  function WithoutNext(c: Calendar): Calendar
    requires Usable(c) && DoRemoveNext(c).Some? && c.size > 0
  {
    DoRemoveNext(c).value.0.(size := c.size - 1)
  }

  lemma WithoutNextValid(c: Calendar)
    requires Valid(c) && c.size > 0
    ensures DoRemoveNext(c).Some? && LeastOf(Events(c), NextEvent(c))
    ensures Valid(WithoutNext(c)) && Events(WithoutNext(c)) == Events(c) - multiset{NextEvent(c)}
    ensures WithoutNext(c).lastPrio == NextEvent(c).ts
  {
    RemoveNextLeast(c);
  }

  /** Where the first event with the number is. */
  function IndexOf(s: Bucket, uid: nat): (k: nat)
    ensures k <= |s| && (k < |s| ==> s[k].uid == uid)
    ensures forall i :: 0 <= i < k ==> s[i].uid != uid
  {
    if s == [] || s[0].uid == uid then 0 else 1 + IndexOf(s[1..], uid)
  }

  /** The bucket of ev holds an event with its number. */
  predicate Listed(c: Calendar, ev: Event) {
    Usable(c) && IndexOf(c.buckets[Hash(c, ev.ts)], ev.uid) < |c.buckets[Hash(c, ev.ts)]|
  }

  function ListedEvent(c: Calendar, ev: Event): Event
    requires Listed(c, ev)
  {
    var s := c.buckets[Hash(c, ev.ts)];
    s[IndexOf(s, ev.uid)]
  }

  function WithoutListed(c: Calendar, ev: Event): Calendar
    requires Listed(c, ev) && c.size > 0
  {
    var b := Hash(c, ev.ts);
    var s := c.buckets[b];
    var k := IndexOf(s, ev.uid);
    c.(buckets := c.buckets[b := Dropped(s, k)], size := c.size - 1)
  }

  function Dropped(s: Bucket, k: nat): Bucket
    requires k < |s|
  {
    s[..k] + s[k + 1..]
  }

  lemma DroppedEvents(s: Bucket, k: nat)
    requires k < |s|
    ensures multiset(s) == multiset(Dropped(s, k)) + multiset{s[k]}
    ensures forall e :: e in Dropped(s, k) ==> e in s
  {
    assert s == s[..k] + [s[k]] + s[k + 1..];
  }

  lemma DroppedSorted(s: Bucket, k: nat)
    requires k < |s| && SortedList(s)
    ensures SortedList(Dropped(s, k))
  {
    var t := Dropped(s, k);
    forall i, j | 0 <= i < j < |t|
      ensures InPlace(t, i, j)
    {
      assert InPlace(s, if i < k then i else i + 1, if j < k then j else j + 1);
    }
  }

  lemma ListedTaken(c: Calendar, ev: Event)
    requires Filed(c) && Listed(c, ev) && c.size > 0
    ensures ListedEvent(c, ev) in Events(c) && Filed(WithoutListed(c, ev))
    ensures Events(WithoutListed(c, ev)) == Events(c) - multiset{ListedEvent(c, ev)}
  {
    DropOne(c, Hash(c, ev.ts), IndexOf(c.buckets[Hash(c, ev.ts)], ev.uid));
  }

  lemma DropOne(c: Calendar, b: nat, k: nat)
    requires Filed(c) && b < |c.buckets| && k < |c.buckets[b]|
    ensures var (e, d) := (c.buckets[b][k], c.(buckets := c.buckets[b := Dropped(c.buckets[b], k)]));
            e in Events(c) && Filed(d) && Events(d) == Events(c) - multiset{e}
  {
    var s := c.buckets[b];
    assert BucketOk(s, b, c.width, |c.buckets|);
    DroppedEvents(s, k);
    DroppedSorted(s, k);
    OneLess(c.buckets, b, s[k], Dropped(s, k));
    BucketThinned(c, b, Dropped(s, k));
  }

  /** Fewer events can still be searched from the same position. */
  lemma StillValid(c: Calendar, d: Calendar, e: Event)
    requires Valid(c) && c.size > 0 && Filed(d) && d == c.(buckets := d.buckets, size := c.size - 1) && |d.buckets| == |c.buckets|
    requires e in Events(c) && Events(d) == Events(c) - multiset{e}
    ensures Valid(d)
  {
    assert Hash(d, d.lastPrio) == Hash(c, c.lastPrio);
  }

  lemma WithoutListedValid(c: Calendar, ev: Event)
    requires Valid(c) && Listed(c, ev)
    ensures c.size > 0 && ListedEvent(c, ev) in Events(c) && ListedEvent(c, ev).uid == ev.uid
    ensures Valid(WithoutListed(c, ev)) && Events(WithoutListed(c, ev)) == Events(c) - multiset{ListedEvent(c, ev)}
    ensures WithoutListed(c, ev).lastPrio == c.lastPrio
  {
    InSomeBucket(c.buckets, ListedEvent(c, ev));
    assert c.size > 0;
    ListedTaken(c, ev);
    StillValid(c, WithoutListed(c, ev), ListedEvent(c, ev));
  }

  // ----- Calls -------------------------------------------------------------------------------------

  datatype Call = Insertion(ev: Event) | Next | Removal(ev: Event)

  /** What the users of a scheduler must see to: they schedule nothing in the past, and take out only
      what is there. */
  predicate Allowed(c: Calendar, call: Call) {
    match call
    case Insertion(ev) => ev.ts >= c.lastPrio
    case Next => c.size > 0
    case Removal(ev) => Listed(c, ev)
  }

  /** The calendar after the call, before it is resized. */
  ghost function Unsettled(c: Calendar, call: Call): (d: Calendar)
    requires Valid(c) && Allowed(c, call)
    ensures Valid(d)
    ensures match call
            case Insertion(ev) => Events(d) == Events(c) + multiset{ev} && d.lastPrio == c.lastPrio
            case Next =>
              && DoRemoveNext(c).Some? && LeastOf(Events(c), NextEvent(c))
              && Events(d) == Events(c) - multiset{NextEvent(c)} && d.lastPrio == NextEvent(c).ts
            case Removal(ev) =>
              && ListedEvent(c, ev) in Events(c) && ListedEvent(c, ev).uid == ev.uid
              && Events(d) == Events(c) - multiset{ListedEvent(c, ev)} && d.lastPrio == c.lastPrio
  {
    match call
    case Insertion(ev) => WithEventValid(c, ev); WithEvent(c, ev)
    case Next => WithoutNextValid(c); WithoutNext(c)
    case Removal(ev) => WithoutListedValid(c, ev); WithoutListed(c, ev)
  }

  predicate ToResize(call: Call, d: Calendar) {
    if call.Insertion? then Crowded(d) else Sparse(d)
  }

  /** None stands for the division by zero. */
  ghost function Called(rule: Rule, c: Calendar, call: Call): (r: Option<Calendar>)
    requires Valid(c) && Allowed(c, call)
    ensures r.Some? ==> SameQueue(Unsettled(c, call), r.value)
    ensures r == None <==> ToResize(call, Unsettled(c, call)) && rule(Unsettled(c, call)) == 0
  {
    if call.Insertion? then ResizedUp(rule, Unsettled(c, call)) else ResizedDown(rule, Unsettled(c, call))
  }

  // ----- Runs --------------------------------------------------------------------------------------

  datatype State = Running(c: Calendar) | DividedByZero | NotAllowed

  const EMPTY := Init(2, 1, 0, 0)

  lemma EmptyValid()
    ensures Valid(EMPTY) && Events(EMPTY) == multiset{}
  {
    InitReady(2, 1, 0, 0);
  }

  ghost function After(rule: Rule, calls: seq<Call>): (s: State)
    ensures s.Running? ==> Valid(s.c)
  {
    if calls == [] then
      EmptyValid();
      Running(EMPTY)
    else
      match After(rule, calls[..|calls| - 1])
      case Running(c) => Stepped(rule, c, calls[|calls| - 1])
      case s => s
  }

  ghost function Stepped(rule: Rule, c: Calendar, call: Call): (s: State)
    requires Valid(c)
    ensures s.Running? ==> Valid(s.c)
  {
    if !Allowed(c, call) then NotAllowed
    else
      match Called(rule, c, call)
      case None => DividedByZero
      case Some(d) => Running(d)
  }

  /** The events that the call puts in and takes out. */
  function PutIn(call: Call): seq<Event> {
    if call.Insertion? then [call.ev] else []
  }

  ghost function TakenOut(c: Calendar, call: Call): seq<Event>
    requires Valid(c) && Allowed(c, call)
  {
    match call
    case Insertion(_) => []
    case Next => WithoutNextValid(c); [NextEvent(c)]
    case Removal(ev) => [ListedEvent(c, ev)]
  }

  function AllIn(calls: seq<Call>): seq<Event> {
    if calls == [] then [] else AllIn(calls[..|calls| - 1]) + PutIn(calls[|calls| - 1])
  }

  ghost function AllOut(rule: Rule, calls: seq<Call>): seq<Event>
    requires After(rule, calls).Running?
  {
    if calls == [] then []
    else
      var init := calls[..|calls| - 1];
      AllOut(rule, init) + TakenOut(After(rule, init).c, calls[|calls| - 1])
  }

  /** The events that the calls of RemoveNext return. */
  ghost function Returned(rule: Rule, calls: seq<Call>): seq<Event>
    requires After(rule, calls).Running?
  {
    if calls == [] then []
    else
      var init, call := calls[..|calls| - 1], calls[|calls| - 1];
      var c := After(rule, init).c;
      if call.Next? then
        WithoutNextValid(c);
        Returned(rule, init) + [NextEvent(c)]
      else Returned(rule, init)
  }

  ghost predicate Rising(s: seq<Event>) {
    forall i, j :: 0 <= i < j < |s| ==> s[i].ts <= s[j].ts
  }

  /** The times rise and have not passed t. */
  ghost predicate RisingTo(s: seq<Event>, t: nat) {
    Rising(s) && (s != [] ==> s[|s| - 1].ts <= t)
  }

  lemma RisingNext(s: seq<Event>, t: nat, e: Event)
    requires RisingTo(s, t) && t <= e.ts
    ensures RisingTo(s + [e], e.ts)
  {
  }

  /** Time never runs backwards, whatever was inserted and removed in between. */
  lemma {:induction false} TimeRises(rule: Rule, calls: seq<Call>)
    requires After(rule, calls).Running?
    ensures RisingTo(Returned(rule, calls), After(rule, calls).c.lastPrio)
  {
    if calls != [] {
      var init, call := calls[..|calls| - 1], calls[|calls| - 1];
      var c := After(rule, init).c;
      TimeRises(rule, init);
      LaterThan(rule, c, call);
      if call.Next? {
        RisingNext(Returned(rule, init), c.lastPrio, NextEvent(c));
      }
    }
  }

  lemma LaterThan(rule: Rule, c: Calendar, call: Call)
    requires Valid(c) && Stepped(rule, c, call).Running?
    ensures Stepped(rule, c, call).c.lastPrio >= c.lastPrio
    ensures call.Next? ==> DoRemoveNext(c).Some? && NextEvent(c).ts == Stepped(rule, c, call).c.lastPrio
  {
    StepSettles(rule, c, call);
    if call.Next? {
      WithoutNextValid(c);
      assert NextEvent(c) in Events(c);
    }
  }

  lemma StepSettles(rule: Rule, c: Calendar, call: Call)
    requires Valid(c) && Stepped(rule, c, call).Running?
    ensures Allowed(c, call) && SameQueue(Unsettled(c, call), Stepped(rule, c, call).c)
  {
  }

  lemma CallConserves(c: Calendar, call: Call)
    requires Valid(c) && Allowed(c, call)
    ensures Events(Unsettled(c, call)) + multiset(TakenOut(c, call)) == Events(c) + multiset(PutIn(call))
  {
    match call
    case Insertion(ev) => WithEventValid(c, ev);
    case Next => WithoutNextValid(c);
    case Removal(ev) => WithoutListedValid(c, ev);
  }

  lemma Balance(before: multiset<Event>, after: multiset<Event>, out: seq<Event>, in_: seq<Event>,
                out': seq<Event>, in': seq<Event>)
    requires before + multiset(out) == multiset(in_) && after + multiset(out') == before + multiset(in')
    ensures after + multiset(out + out') == multiset(in_ + in')
  {
    calc {
      after + multiset(out + out');
      (after + multiset(out')) + multiset(out);
      (before + multiset(in')) + multiset(out);
      (before + multiset(out)) + multiset(in');
      multiset(in_ + in');
    }
  }

  /** Every event that was inserted is waiting or was taken out, and not both. */
  lemma {:induction false} EventsConserved(rule: Rule, calls: seq<Call>)
    requires After(rule, calls).Running?
    ensures Events(After(rule, calls).c) + multiset(AllOut(rule, calls)) == multiset(AllIn(calls))
  {
    if calls == [] {
      EmptyValid();
    } else {
      var init, call := calls[..|calls| - 1], calls[|calls| - 1];
      var c := After(rule, init).c;
      EventsConserved(rule, init);
      StepSettles(rule, c, call);
      CallConserves(c, call);
      Balance(Events(c), Events(Stepped(rule, c, call).c), AllOut(rule, init), AllIn(init), TakenOut(c, call), PutIn(call));
    }
  }

  // ----- The calendar and the heap -------------------------------------------------------------------

  function HeapCall(call: Call): H.Call {
    match call
    case Insertion(ev) => H.Insertion(ev)
    case Next => H.Next
    case Removal(ev) => H.Removal(ev.uid)
  }

  function HeapCalls(calls: seq<Call>): seq<H.Call> {
    if calls == [] then [] else HeapCalls(calls[..|calls| - 1]) + [HeapCall(calls[|calls| - 1])]
  }

  /** The event is waiting, and no other event with its number is. */
  ghost predicate OnlyWithNumber(events: multiset<Event>, ev: Event) {
    ev in events && forall x :: x in events && x.uid == ev.uid ==> x == ev
  }

  /** What is taken out by its number is the one event that has it. */
  ghost predicate NumbersTell(rule: Rule, calls: seq<Call>) {
    calls == [] ||
    var init, call := calls[..|calls| - 1], calls[|calls| - 1];
    NumbersTell(rule, init) &&
    (After(rule, init).Running? && call.Removal? ==> OnlyWithNumber(Events(After(rule, init).c), call.ev))
  }

  lemma LeastUnique(events: multiset<Event>, a: Event, b: Event)
    requires LeastOf(events, a) && LeastOf(events, b)
    ensures a == b
  {
    assert !Less(a, b) && !Less(b, a);
  }

  lemma SameNext(c: Calendar, h: H.Heap)
    requires Valid(c) && H.HeapOrdered(h) && H.Events(h) == Events(c) && c.size > 0
    ensures |h| > 1 && DoRemoveNext(c).Some? && NextEvent(c) == h[1]
  {
    WithoutNextValid(c);
    assert |multiset(h[1..])| == |h| - 1;
    H.RootIsLeast(h);
    LeastUnique(Events(c), NextEvent(c), h[1]);
  }

  lemma SameRemoval(c: Calendar, h: H.Heap, ev: Event)
    requires Valid(c) && Listed(c, ev) && H.Events(h) == Events(c) && OnlyWithNumber(Events(c), ev)
    ensures ListedEvent(c, ev) == ev && H.Events(H.Called(h, H.Removal(ev.uid))) == Events(c) - multiset{ev}
  {
    var i := H.FirstAt(h, ev.uid, 1);
    WithoutListedValid(c, ev);
    H.NumberThere(h, ev.uid);
    H.RemovedKeeps(h, i);
  }

  lemma SameStep(rule: Rule, c: Calendar, h: H.Heap, call: Call)
    requires Valid(c) && H.HeapOrdered(h) && H.Events(h) == Events(c) && Stepped(rule, c, call).Running?
    requires call.Removal? ==> OnlyWithNumber(Events(c), call.ev)
    ensures H.Events(H.Called(h, HeapCall(call))) == Events(Stepped(rule, c, call).c)
  {
    var d := Unsettled(c, call);
    match call
    case Insertion(ev) =>
      H.InsertedKeeps(h, ev);
    case Next =>
      SameNext(c, h);
      H.NextRemoved(h);
    case Removal(ev) =>
      SameRemoval(c, h, ev);
  }

  /** On any run that both schedulers accept they hold the same events, and return the same next event. */
  lemma {:induction false} SchedulersAgree(rule: Rule, calls: seq<Call>)
    requires After(rule, calls).Running? && NumbersTell(rule, calls) && H.RunFits(H.EMPTY, HeapCalls(calls))
    ensures var c, h := After(rule, calls).c, H.After(H.EMPTY, HeapCalls(calls));
            && H.Events(h) == Events(c)
            && (c.size > 0 ==> |h| > 1 && DoRemoveNext(c).Some? && NextEvent(c) == h[1])
  {
    var c, h := After(rule, calls).c, H.After(H.EMPTY, HeapCalls(calls));
    H.RunOrdered(HeapCalls(calls));
    if calls == [] {
      EmptyValid();
    } else {
      var init, call := calls[..|calls| - 1], calls[|calls| - 1];
      assert HeapCalls(calls)[..|HeapCalls(calls)| - 1] == HeapCalls(init);
      SchedulersAgree(rule, init);
      H.RunOrdered(HeapCalls(init));
      SameStep(rule, After(rule, init).c, H.After(H.EMPTY, HeapCalls(init)), call);
    }
    if c.size > 0 {
      SameNext(c, h);
    }
  }
}
