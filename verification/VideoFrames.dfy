/** The bookkeeping of v2x_3gpp_small.cc for one receiver, on values: the packets that make up a
    frame, and what a metrics report makes of the packets received so far. */
module VideoFrames {

  // ----- The video trace --------------------------------------------------------------------

  /** The fields of a trace line that are kept. */
  datatype TraceLine = TraceLine(frameId: nat, frameType: string, packets: nat)

  function PacketTotal(trace: seq<TraceLine>): nat {
    if trace == [] then 0 else PacketTotal(trace[..|trace| - 1]) + trace[|trace| - 1].packets
  }

  predicate FramesNamed(trace: seq<TraceLine>, frames: nat) {
    forall i :: 0 <= i < |trace| ==> 1 <= trace[i].frameId <= frames
  }

  /** framePct after the trace has been read. */
  function StartsAfter(trace: seq<TraceLine>, starts: seq<int>): (r: seq<int>)
    requires |starts| > 0 && FramesNamed(trace, |starts| - 1)
    ensures |r| == |starts|
  {
    if trace == [] then starts
    else
      var before, line := trace[..|trace| - 1], trace[|trace| - 1];
      StartsAfter(before, starts)[line.frameId - 1 := PacketTotal(before) + 1]
  }

  function TypesAfter(trace: seq<TraceLine>, types: seq<string>): (r: seq<string>)
    requires FramesNamed(trace, |types|)
    ensures |r| == |types|
  {
    if trace == [] then types
    else
      var before, line := trace[..|trace| - 1], trace[|trace| - 1];
      TypesAfter(before, types)[line.frameId - 1 := line.frameType]
  }

  /** The trace lists the frames from 1 to its length. */
  predicate InOrder(trace: seq<TraceLine>) {
    forall i :: 0 <= i < |trace| ==> trace[i].frameId == i + 1
  }

  /** Frame j has the packets starts[j], ..., starts[j + 1] - 1. */
  predicate Tiles(starts: seq<int>, packets: nat) {
    && |starts| > 0 && starts[0] == 1 && starts[|starts| - 1] == packets + 1
    && forall i, j :: 0 <= i <= j < |starts| ==> starts[i] <= starts[j]
  }

  lemma {:induction false} StartsInOrder(trace: seq<TraceLine>, starts: seq<int>, i: nat)
    requires |trace| < |starts| && InOrder(trace) && i < |trace|
    ensures StartsAfter(trace, starts)[i] == PacketTotal(trace[..i]) + 1
  {
    var before := trace[..|trace| - 1];
    if i < |trace| - 1 {
      StartsInOrder(before, starts, i);
      assert before[..i] == trace[..i];
    }
  }

  lemma {:induction false} TotalGrows(trace: seq<TraceLine>, i: nat, j: nat)
    requires i <= j <= |trace|
    ensures PacketTotal(trace[..i]) <= PacketTotal(trace[..j])
    decreases j
  {
    if i < j {
      TotalGrows(trace, i, j - 1);
      assert trace[..j][..j - 1] == trace[..j - 1];
    }
  }

  /** framePct with the end mark that a report sets. */
  function Marked(starts: seq<int>, packets: nat): (r: seq<int>)
    requires |starts| > 0
    ensures |r| == |starts|
  {
    starts[|starts| - 1 := packets + 1]
  }

  lemma MarkedAt(trace: seq<TraceLine>, starts: seq<int>, i: nat)
    requires |starts| == |trace| + 1 && InOrder(trace) && i <= |trace|
    ensures Marked(StartsAfter(trace, starts), PacketTotal(trace))[i] == PacketTotal(trace[..i]) + 1
  {
    if i < |trace| {
      StartsInOrder(trace, starts, i);
    } else {
      assert trace[..i] == trace;
    }
  }

  /** Each frame gets as many packets as its line says. */
  lemma FrameSize(trace: seq<TraceLine>, starts: seq<int>, i: nat)
    requires |starts| == |trace| + 1 && InOrder(trace) && i < |trace|
    ensures var s := Marked(StartsAfter(trace, starts), PacketTotal(trace));
            s[i + 1] == s[i] + trace[i].packets
  {
    MarkedAt(trace, starts, i);
    MarkedAt(trace, starts, i + 1);
    assert trace[..i + 1][..i] == trace[..i];
  }

  predicate SizedAs(starts: seq<int>, trace: seq<TraceLine>)
    requires |starts| == |trace| + 1
  {
    forall i :: 0 <= i < |trace| ==> starts[i + 1] == starts[i] + trace[i].packets
  }

  /** A trace of all frames in order tiles the packets, with as many for each frame as its line says. */
  lemma TraceTiles(trace: seq<TraceLine>, starts: seq<int>)
    requires |starts| == |trace| + 1 && InOrder(trace)
    ensures Tiles(Marked(StartsAfter(trace, starts), PacketTotal(trace)), PacketTotal(trace))
    ensures SizedAs(Marked(StartsAfter(trace, starts), PacketTotal(trace)), trace)
  {
    var s := Marked(StartsAfter(trace, starts), PacketTotal(trace));
    MarkedAt(trace, starts, 0);
    forall i, j | 0 <= i <= j < |s|
      ensures s[i] <= s[j]
    {
      MarkedAt(trace, starts, i);
      MarkedAt(trace, starts, j);
      TotalGrows(trace, i, j);
    }
    forall i | 0 <= i < |trace|
      ensures s[i + 1] == s[i] + trace[i].packets
    {
      FrameSize(trace, starts, i);
    }
  }

  predicate InFrame(starts: seq<int>, j: nat, packet: int)
    requires j + 1 < |starts|
  {
    starts[j] <= packet < starts[j + 1]
  }

  /** Every packet belongs to exactly one frame. */
  lemma OneFrameEach(starts: seq<int>, packets: nat, p: int)
    requires Tiles(starts, packets) && 1 <= p <= packets
    ensures exists j: nat ::
              && j + 1 < |starts| && InFrame(starts, j, p)
              && forall i: nat :: i + 1 < |starts| && InFrame(starts, i, p) ==> i == j
  {
    FindFrame(starts, |starts| - 1, p);
    var j: nat :| j + 1 < |starts| && InFrame(starts, j, p);
    forall i: nat | i + 1 < |starts| && InFrame(starts, i, p)
      ensures i == j
    {
      FramesApart(starts, packets, i, j, p);
    }
  }

  lemma FramesApart(starts: seq<int>, packets: nat, i: nat, j: nat, p: int)
    requires Tiles(starts, packets) && i + 1 < |starts| && j + 1 < |starts|
    requires InFrame(starts, i, p) && InFrame(starts, j, p)
    ensures i == j
  {
    var a, b := if i < j then i + 1 else i, if j < i then j + 1 else j;
    assert a <= b ==> starts[a] <= starts[b];
    assert b <= a ==> starts[b] <= starts[a];
  }

  lemma {:induction false} FindFrame(starts: seq<int>, n: nat, p: int)
    requires n < |starts| && starts[0] <= p < starts[n]
    ensures exists j: nat :: j < n && InFrame(starts, j, p)
  {
    if starts[n - 1] <= p {
      assert InFrame(starts, n - 1, p);
    } else {
      FindFrame(starts, n - 1, p);
    }
  }

  // ----- A report ---------------------------------------------------------------------------

  /** receivedPackets, receivedFrames and LastReceivedFrame of one receiver. */
  datatype Reception = Reception(packets: seq<bool>, frames: seq<bool>, lastFrame: nat)

  /** Packets are numbered from 1. */
  predicate PacketIds(ids: seq<nat>, packets: nat) {
    forall i :: 0 <= i < |ids| ==> 1 <= ids[i] <= packets
  }

  function Received(packets: seq<bool>, ids: seq<nat>): (r: seq<bool>)
    requires PacketIds(ids, |packets|)
    ensures |r| == |packets|
  {
    if ids == [] then packets else Received(packets, ids[..|ids| - 1])[ids[|ids| - 1] - 1 := true]
  }

  /** lastPacket: the number on the last line, not the highest. */
  function LastPacket(ids: seq<nat>): nat {
    if ids == [] then 0 else ids[|ids| - 1]
  }

  /** Packet p has been received. */
  predicate Got(packets: seq<bool>, p: int) {
    1 <= p <= |packets| && packets[p - 1]
  }

  /** All packets of frame j have been received. */
  ghost predicate Complete(starts: seq<int>, packets: seq<bool>, j: nat)
    requires j + 1 < |starts|
  {
    starts[j] <= starts[j + 1] && forall p :: starts[j] <= p < starts[j + 1] ==> Got(packets, p)
  }

  function CountReceived(packets: seq<bool>, lo: int, hi: int): (c: nat)
    ensures lo <= hi ==> c <= hi - lo
    ensures lo > hi ==> c == 0
    decreases hi - lo
  {
    if lo >= hi then 0 else CountReceived(packets, lo, hi - 1) + if Got(packets, hi - 1) then 1 else 0
  }

  lemma {:induction false} FullCount(packets: seq<bool>, lo: int, hi: int)
    requires lo <= hi
    ensures CountReceived(packets, lo, hi) == hi - lo <==> forall p :: lo <= p < hi ==> Got(packets, p)
    decreases hi - lo
  {
    if lo < hi {
      FullCount(packets, lo, hi - 1);
    }
  }

  /** The scan marks frame j: it does not start after the last packet and none of its packets is missing. */
  predicate Marks(starts: seq<int>, packets: seq<bool>, last: nat, j: nat)
    requires j + 1 < |starts|
  {
    starts[j] <= last && CountReceived(packets, starts[j], starts[j + 1]) == starts[j + 1] - starts[j]
  }

  lemma MarksMeans(starts: seq<int>, packets: seq<bool>, last: nat, j: nat)
    requires j + 1 < |starts|
    ensures Marks(starts, packets, last, j) <==> starts[j] <= last && Complete(starts, packets, j)
  {
    if starts[j] <= starts[j + 1] {
      FullCount(packets, starts[j], starts[j + 1]);
    }
  }

  function FramesAfter(starts: seq<int>, packets: seq<bool>, last: nat, frames: seq<bool>, n: nat): (r: seq<bool>)
    requires n < |starts| && n <= |frames|
    ensures |r| == |frames|
    ensures forall j :: 0 <= j < |r| ==>
              (r[j] <==> frames[j] || (j < n && Marks(starts, packets, last, j)))
  {
    if n == 0 then frames
    else
      var r := FramesAfter(starts, packets, last, frames, n - 1);
      if Marks(starts, packets, last, n - 1) then r[n - 1 := true] else r
  }

  function LastFrameAfter(starts: seq<int>, packets: seq<bool>, last: nat, lastFrame: nat, n: nat): nat
    requires n < |starts|
  {
    if n == 0 then lastFrame
    else if Marks(starts, packets, last, n - 1) then n
    else LastFrameAfter(starts, packets, last, lastFrame, n - 1)
  }

  predicate Shaped(starts: seq<int>, r: Reception) {
    |starts| > 0 && |starts| - 1 <= |r.frames| && r.lastFrame < |starts|
  }

  /** What one report makes of the packet file. */
  function Report(starts: seq<int>, r: Reception, ids: seq<nat>): Reception
    requires Shaped(starts, r) && PacketIds(ids, |r.packets|)
  {
    var packets := Received(r.packets, ids);
    Reception(packets,
              FramesAfter(starts, packets, LastPacket(ids), r.frames, |starts| - 1),
              LastFrameAfter(starts, packets, LastPacket(ids), r.lastFrame, |starts| - 1))
  }

  /** Any number of reports, on any packet files. */
  function Reports(starts: seq<int>, r: Reception, files: seq<seq<nat>>): (r': Reception)
    requires Shaped(starts, r) && forall i :: 0 <= i < |files| ==> PacketIds(files[i], |r.packets|)
    ensures Shaped(starts, r') && |r'.packets| == |r.packets| && |r'.frames| == |r.frames|
  {
    if files == [] then r
    else
      var before := Reports(starts, r, files[..|files| - 1]);
      LastFrameInRange(starts, before, files[|files| - 1]);
      Report(starts, before, files[|files| - 1])
  }

  lemma LastFrameInRange(starts: seq<int>, r: Reception, ids: seq<nat>)
    requires Shaped(starts, r) && PacketIds(ids, |r.packets|)
    ensures Shaped(starts, Report(starts, r, ids))
  {
    LastFrameMarked(starts, Received(r.packets, ids), LastPacket(ids), r.lastFrame, |starts| - 1);
  }

  /** LastReceivedFrame becomes the highest frame this scan marks, and stays when it marks none. */
  lemma {:induction false} LastFrameMarked(starts: seq<int>, packets: seq<bool>, last: nat, lastFrame: nat, n: nat)
    requires n < |starts|
    ensures var l := LastFrameAfter(starts, packets, last, lastFrame, n);
            || (1 <= l <= n && Marks(starts, packets, last, l - 1)
                && forall j :: l <= j < n ==> !Marks(starts, packets, last, j))
            || (l == lastFrame && forall j :: 0 <= j < n ==> !Marks(starts, packets, last, j))
  {
    if n > 0 {
      LastFrameMarked(starts, packets, last, lastFrame, n - 1);
    }
  }

  /** The scan looks only at packets that the array has room for. */
  predicate WithinArray(starts: seq<int>, packets: nat, last: nat) {
    forall j :: 0 <= j < |starts| - 1 && starts[j] <= last && starts[j] < starts[j + 1] ==>
                  1 <= starts[j] && starts[j + 1] <= packets + 1
  }

  /** Frames that tile the packets are safe to scan, whatever the packet file says. */
  lemma TilesWithinArray(starts: seq<int>, packets: nat, last: nat)
    requires Tiles(starts, packets)
    ensures WithinArray(starts, packets, last)
  {
    forall j | 0 <= j < |starts| - 1 && starts[j] < starts[j + 1]
      ensures 1 <= starts[j] && starts[j + 1] <= packets + 1
    {
      assert starts[0] <= starts[j] && starts[j + 1] <= starts[|starts| - 1];
    }
  }

  // ----- Whole runs -------------------------------------------------------------------------

  lemma {:induction false} ReceivedMeans(packets: seq<bool>, ids: seq<nat>, p: int)
    requires PacketIds(ids, |packets|)
    ensures Got(Received(packets, ids), p) <==> Got(packets, p) || p in ids
  {
    if ids != [] {
      ReceivedMeans(packets, ids[..|ids| - 1], p);
      assert ids == ids[..|ids| - 1] + [ids[|ids| - 1]];
    }
  }

  /** Packet p is in one of the files. */
  ghost predicate Seen(files: seq<seq<nat>>, p: int) {
    exists i :: 0 <= i < |files| && p in files[i]
  }

  /** All packets of frame j are in the files. */
  ghost predicate FrameSeen(starts: seq<int>, files: seq<seq<nat>>, j: nat)
    requires j + 1 < |starts|
  {
    starts[j] <= starts[j + 1] && forall p :: starts[j] <= p < starts[j + 1] ==> Seen(files, p)
  }

  /** When report m came, all packets of frame j had been seen, and its file did not end before frame j. */
  ghost predicate Witness(starts: seq<int>, files: seq<seq<nat>>, m: nat, j: nat)
    requires j + 1 < |starts| && m < |files|
  {
    && starts[j] <= LastPacket(files[m])
    && FrameSeen(starts, files[..m + 1], j)
  }

  ghost predicate Files(files: seq<seq<nat>>, packets: nat) {
    forall i :: 0 <= i < |files| ==> PacketIds(files[i], packets)
  }

  /** Nothing has been received yet. */
  ghost predicate Clear(r: Reception) {
    && (forall k :: 0 <= k < |r.packets| ==> !r.packets[k])
    && (forall j :: 0 <= j < |r.frames| ==> !r.frames[j])
    && r.lastFrame == 0
  }

  lemma SeenSplit(files: seq<seq<nat>>, p: int)
    requires files != []
    ensures Seen(files, p) <==> Seen(files[..|files| - 1], p) || p in files[|files| - 1]
  {
    var before := files[..|files| - 1];
    assert forall i :: 0 <= i < |before| ==> before[i] == files[i];
  }

  /** A packet is marked exactly when some file has listed it. */
  lemma {:induction false} PacketsSeen(starts: seq<int>, r: Reception, files: seq<seq<nat>>, p: int)
    requires Shaped(starts, r) && Clear(r) && Files(files, |r.packets|)
    ensures Got(Reports(starts, r, files).packets, p) <==> Seen(files, p)
  {
    if files != [] {
      var before, ids := files[..|files| - 1], files[|files| - 1];
      PacketsSeen(starts, r, before, p);
      ReceivedMeans(Reports(starts, r, before).packets, ids, p);
      SeenSplit(files, p);
    }
  }

  lemma CompleteSeen(starts: seq<int>, r: Reception, files: seq<seq<nat>>, j: nat)
    requires Shaped(starts, r) && Clear(r) && Files(files, |r.packets|) && j + 1 < |starts|
    ensures Complete(starts, Reports(starts, r, files).packets, j) <==> FrameSeen(starts, files, j)
  {
    var packets := Reports(starts, r, files).packets;
    forall p: int
      ensures Got(packets, p) <==> Seen(files, p)
    {
      PacketsSeen(starts, r, files, p);
    }
  }

  /** A frame is marked exactly when, at some report, all its packets had been seen and the packet
      file did not end before it. So a mark is never wrong, and never comes off. */
  lemma {:induction false} FramesMarked(starts: seq<int>, r: Reception, files: seq<seq<nat>>, j: nat)
    requires Shaped(starts, r) && Clear(r) && Files(files, |r.packets|) && j + 1 < |starts|
    ensures Reports(starts, r, files).frames[j] <==> exists m: nat :: m < |files| && Witness(starts, files, m, j)
  {
    if files != [] {
      var before, ids := files[..|files| - 1], files[|files| - 1];
      FramesMarked(starts, r, before, j);
      CompleteSeen(starts, r, files, j);
      MarksMeans(starts, Reports(starts, r, files).packets, LastPacket(ids), j);
      assert files[..|files|] == files;
      forall m: nat | m < |before|
        ensures Witness(starts, files, m, j) <==> Witness(starts, before, m, j)
      {
        assert before[..m + 1] == files[..m + 1];
      }
      assert Witness(starts, files, |before|, j) <==> Marks(starts, Reports(starts, r, files).packets, LastPacket(ids), j);
    }
  }

  /** When the last file ends with the highest packet of all, as it does if packets arrive in order,
      a frame that has packets is marked exactly when all of them have been seen. */
  lemma MarkedIffSeen(starts: seq<int>, r: Reception, files: seq<seq<nat>>, j: nat)
    requires Shaped(starts, r) && Clear(r) && Files(files, |r.packets|) && j + 1 < |starts|
    requires files != [] && starts[j] < starts[j + 1]
    requires forall p :: Seen(files, p) ==> p <= LastPacket(files[|files| - 1])
    ensures Reports(starts, r, files).frames[j] <==> FrameSeen(starts, files, j)
  {
    FramesMarked(starts, r, files, j);
    assert files[..|files|] == files;
    if FrameSeen(starts, files, j) {
      assert Seen(files, starts[j]);
      assert Witness(starts, files, |files| - 1, j);
    }
    forall m: nat | m < |files| && Witness(starts, files, m, j)
      ensures FrameSeen(starts, files, j)
    {
      forall p | starts[j] <= p < starts[j + 1]
        ensures Seen(files, p)
      {
        assert Seen(files[..m + 1], p);
      }
    }
  }

  /** Out of order it can be missed: two frames of one packet each, both received, the second first. */
  lemma OutOfOrderMissed(r: Reception)
    requires Shaped([1, 2, 3], r) && Clear(r) && |r.packets| == 2
    ensures FrameSeen([1, 2, 3], [[2, 1]], 1) && !Reports([1, 2, 3], r, [[2, 1]]).frames[1]
  {
    var starts, files := [1, 2, 3], [[2, 1]];
    FramesMarked(starts, r, files, 1);
    assert 2 in files[0];
    forall m: nat | m < 1
      ensures !Witness(starts, files, m, 1)
    {
    }
  }

  // ----- Loss -------------------------------------------------------------------------------

  datatype Kind = Intra | Predicted | Bidirectional | Other

  function KindOf(frameType: string): Kind {
    if 'I' in frameType || 'H' in frameType then Intra
    else if 'P' in frameType then Predicted
    else if 'B' in frameType then Bidirectional
    else Other
  }

  /** The frames of a kind from lo up to hi, all of them or only those received. */
  function CountKind(types: seq<string>, kind: Kind, lo: nat, hi: nat): (c: nat)
    requires lo <= hi <= |types|
    decreases hi
  {
    if lo == hi then 0 else CountKind(types, kind, lo, hi - 1) + if KindOf(types[hi - 1]) == kind then 1 else 0
  }

  function CountKept(types: seq<string>, frames: seq<bool>, kind: Kind, lo: nat, hi: nat): (c: nat)
    requires lo <= hi <= |types| && hi <= |frames|
    ensures c <= CountKind(types, kind, lo, hi)
    decreases hi
  {
    if lo == hi then 0
    else CountKept(types, frames, kind, lo, hi - 1) + if frames[hi - 1] && KindOf(types[hi - 1]) == kind then 1 else 0
  }

  function Percentage(total: nat, received: nat): real {
    if total != 0 then (total as real - received as real) * 100.0 / total as real else 0.0
  }

  function Loss(types: seq<string>, frames: seq<bool>, kind: Kind, lo: nat, hi: nat): real
    requires lo <= hi <= |types| && hi <= |frames|
  {
    Percentage(CountKind(types, kind, lo, hi), CountKept(types, frames, kind, lo, hi))
  }

  lemma QuotientOrder(a: real, b: real, t: real)
    requires t > 0.0
    ensures a <= b <==> a / t <= b / t
  {
    var x, y := a / t, b / t;
    assert x * t == a && y * t == b;
    assert x <= y ==> (y - x) * t >= 0.0;
    assert x > y ==> (x - y) * t > 0.0;
  }

  lemma QuotientBounds(a: real, b: real, t: real)
    requires t > 0.0
    ensures a / t <= b <==> a <= b * t
    ensures a / t >= b <==> a >= b * t
  {
    var x := a / t;
    assert x * t == a;
    assert x < b ==> (b - x) * t > 0.0;
    assert x > b ==> (x - b) * t > 0.0;
  }

  /** The loss is that many hundredths of all. */
  lemma PercentageMeans(total: nat, received: nat)
    requires total > 0 && received <= total
    ensures Percentage(total, received) * total as real == 100.0 * (total - received) as real
    ensures Percentage(total, received) == 100.0 <==> received == 0
  {
    var t, r := total as real, received as real;
    assert (total - received) as real == t - r;
    QuotientBounds((t - r) * 100.0, 100.0, t);
    TimesBack((t - r) * 100.0, t);
  }

  /** The loss says how many hundredths of the total were not received. */
  predicate LossIs(loss: real, total: nat, received: nat) {
    && received <= total && loss * total as real == 100.0 * (total - received) as real
    && (total == 0 ==> loss == 0.0)
  }

  lemma PercentageOfAny(total: nat, received: nat)
    requires received <= total
    ensures LossIs(Percentage(total, received), total, received)
  {
    if total > 0 {
      PercentageMeans(total, received);
    }
  }

  lemma TimesBack(a: real, t: real)
    requires t > 0.0
    ensures a / t * t == a
  {
  }

  lemma Fraction(total: nat, received: nat)
    requires received <= total
    ensures 0.0 <= Percentage(total, received) <= 100.0
    ensures Percentage(total, received) == 0.0 <==> received == total
  {
    if total != 0 {
      var t, r := total as real, received as real;
      QuotientBounds((t - r) * 100.0, 0.0, t);
      QuotientBounds((t - r) * 100.0, 100.0, t);
    }
  }

  /** Every frame of the kind in the window is marked. */
  predicate AllKept(types: seq<string>, frames: seq<bool>, kind: Kind, lo: nat, hi: nat)
    requires lo <= hi <= |types| && hi <= |frames|
  {
    forall j :: lo <= j < hi && KindOf(types[j]) == kind ==> frames[j]
  }

  lemma {:induction false} KeptMeans(types: seq<string>, frames: seq<bool>, kind: Kind, lo: nat, hi: nat)
    requires lo <= hi <= |types| && hi <= |frames|
    ensures CountKept(types, frames, kind, lo, hi) == CountKind(types, kind, lo, hi)
       <==> AllKept(types, frames, kind, lo, hi)
    decreases hi
  {
    if lo < hi {
      KeptMeans(types, frames, kind, lo, hi - 1);
    }
  }

  /** A loss is a percentage, and zero exactly when every frame of the kind is marked. */
  lemma LossMeans(types: seq<string>, frames: seq<bool>, kind: Kind, lo: nat, hi: nat)
    requires lo <= hi <= |types| && hi <= |frames|
    ensures 0.0 <= Loss(types, frames, kind, lo, hi) <= 100.0
    ensures Loss(types, frames, kind, lo, hi) == 0.0 <==> AllKept(types, frames, kind, lo, hi)
  {
    KeptMeans(types, frames, kind, lo, hi);
    Fraction(CountKind(types, kind, lo, hi), CountKept(types, frames, kind, lo, hi));
  }

  /** The frames from lo up to hi that carry one of the letters and none of the others. */
  ghost function Carrying(types: seq<string>, letters: set<char>, others: set<char>, lo: nat, hi: nat): set<nat>
    requires lo <= hi <= |types|
  {
    set j: nat | lo <= j < hi && (exists c :: c in letters && c in types[j]) && forall c :: c in others ==> c !in types[j]
  }

  /** Intra frames carry an I or an H, predicted ones a P and neither of those, bidirectional ones a B and none of the
      three. */
  ghost function OfKind(types: seq<string>, kind: Kind, lo: nat, hi: nat): set<nat>
    requires lo <= hi <= |types|
  {
    match kind
    case Intra => Carrying(types, {'I', 'H'}, {}, lo, hi)
    case Predicted => Carrying(types, {'P'}, {'I', 'H'}, lo, hi)
    case Bidirectional => Carrying(types, {'B'}, {'I', 'H', 'P'}, lo, hi)
    case Other => set j: nat | lo <= j < hi && forall c :: c in {'I', 'H', 'P', 'B'} ==> c !in types[j]
  }

  lemma KindMeans(types: seq<string>, kind: Kind, lo: nat, hi: nat, j: nat)
    requires lo <= hi <= |types|
    ensures j in OfKind(types, kind, lo, hi) <==> lo <= j < hi && KindOf(types[j]) == kind
  {
    if lo <= j < hi {
      var t := types[j];
      assert (exists c :: c in {'I', 'H'} && c in t) <==> 'I' in t || 'H' in t;
      assert (exists c :: c in {'P'} && c in t) <==> 'P' in t;
      assert (exists c :: c in {'B'} && c in t) <==> 'B' in t;
    }
  }

  lemma OneMoreOfKind(types: seq<string>, kind: Kind, lo: nat, hi: nat)
    requires lo < hi <= |types|
    ensures OfKind(types, kind, lo, hi)
         == OfKind(types, kind, lo, hi - 1) + if KindOf(types[hi - 1]) == kind then {hi - 1} else {}
    ensures hi - 1 !in OfKind(types, kind, lo, hi - 1)
  {
    forall j: nat
      ensures j in OfKind(types, kind, lo, hi) <==>
              j in OfKind(types, kind, lo, hi - 1) || (j == hi - 1 && KindOf(types[hi - 1]) == kind)
    {
      KindMeans(types, kind, lo, hi, j);
      KindMeans(types, kind, lo, hi - 1, j);
    }
    KindMeans(types, kind, lo, hi - 1, hi - 1);
  }

  lemma {:induction false} CountKindMeans(types: seq<string>, kind: Kind, lo: nat, hi: nat)
    requires lo <= hi <= |types|
    ensures CountKind(types, kind, lo, hi) == |OfKind(types, kind, lo, hi)|
    decreases hi
  {
    if lo < hi {
      CountKindMeans(types, kind, lo, hi - 1);
      OneMoreOfKind(types, kind, lo, hi);
    } else {
      forall j: nat
        ensures j !in OfKind(types, kind, lo, hi)
      {
        KindMeans(types, kind, lo, hi, j);
      }
      assert OfKind(types, kind, lo, hi) == {};
    }
  }

  /** Those of them that were received. */
  ghost function KeptOf(types: seq<string>, frames: seq<bool>, kind: Kind, lo: nat, hi: nat): set<nat>
    requires lo <= hi <= |types| && hi <= |frames|
  {
    set j | j in OfKind(types, kind, lo, hi) && j < |frames| && frames[j]
  }

  lemma OneMoreKept(types: seq<string>, frames: seq<bool>, kind: Kind, lo: nat, hi: nat)
    requires lo < hi <= |types| && hi <= |frames|
    ensures KeptOf(types, frames, kind, lo, hi) == KeptOf(types, frames, kind, lo, hi - 1)
              + if frames[hi - 1] && KindOf(types[hi - 1]) == kind then {hi - 1} else {}
    ensures hi - 1 !in KeptOf(types, frames, kind, lo, hi - 1)
  {
    OneMoreOfKind(types, kind, lo, hi);
  }

  lemma {:induction false} CountKeptMeans(types: seq<string>, frames: seq<bool>, kind: Kind, lo: nat, hi: nat)
    requires lo <= hi <= |types| && hi <= |frames|
    ensures CountKept(types, frames, kind, lo, hi) == |KeptOf(types, frames, kind, lo, hi)|
    decreases hi
  {
    if lo < hi {
      CountKeptMeans(types, frames, kind, lo, hi - 1);
      OneMoreKept(types, frames, kind, lo, hi);
    } else {
      forall j: nat
        ensures j !in OfKind(types, kind, lo, hi)
      {
        KindMeans(types, kind, lo, hi, j);
      }
      assert KeptOf(types, frames, kind, lo, hi) == {};
    }
  }

  /** The loss of a kind, told by the letters of the frame types: in hundredths of the frames of that kind, those
      that were not received. Without any there is no loss. */
  lemma LossOfLetters(types: seq<string>, frames: seq<bool>, kind: Kind, lo: nat, hi: nat)
    requires lo <= hi <= |types| && hi <= |frames|
    ensures LossIs(Loss(types, frames, kind, lo, hi), |OfKind(types, kind, lo, hi)|, |KeptOf(types, frames, kind, lo, hi)|)
  {
    var total, received := CountKind(types, kind, lo, hi), CountKept(types, frames, kind, lo, hi);
    CountKindMeans(types, kind, lo, hi);
    CountKeptMeans(types, frames, kind, lo, hi);
    PercentageOfAny(total, received);
  }

  lemma {:induction false} KeptGrows(types: seq<string>, before: seq<bool>, after: seq<bool>, kind: Kind, lo: nat, hi: nat)
    requires lo <= hi <= |types| && hi <= |before| == |after|
    requires forall j :: 0 <= j < |before| ==> before[j] ==> after[j]
    ensures CountKept(types, before, kind, lo, hi) <= CountKept(types, after, kind, lo, hi)
    decreases hi
  {
    if lo < hi {
      KeptGrows(types, before, after, kind, lo, hi - 1);
    }
  }

  lemma LessLost(total: nat, few: nat, many: nat)
    requires few <= many <= total
    ensures Percentage(total, many) <= Percentage(total, few)
  {
    if total != 0 {
      var t := total as real;
      QuotientOrder((t - many as real) * 100.0, (t - few as real) * 100.0, t);
    }
  }

  /** In one window, a later report never gives a higher loss. */
  lemma LossNeverRises(starts: seq<int>, types: seq<string>, r: Reception, ids: seq<nat>, kind: Kind, lo: nat, hi: nat)
    requires Shaped(starts, r) && PacketIds(ids, |r.packets|)
    requires lo <= hi <= |types| && hi <= |r.frames|
    ensures Loss(types, Report(starts, r, ids).frames, kind, lo, hi) <= Loss(types, r.frames, kind, lo, hi)
  {
    var frames := Report(starts, r, ids).frames;
    KeptGrows(types, r.frames, frames, kind, lo, hi);
    LessLost(CountKind(types, kind, lo, hi), CountKept(types, r.frames, kind, lo, hi),
             CountKept(types, frames, kind, lo, hi));
  }
}
