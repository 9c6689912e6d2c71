/** The global arrays of v2x_3gpp_small.cc, for one receiver, and the loops that update them. */
module VideoMetrics {
  import opened VideoFrames

  datatype Losses = NoGroupYet | Losses(intra: real, predicted: real, bidirectional: real)

  /** The losses over the last group of 20 frames that ended by lastFrame, if there has been one.
      The last frame of the group is not looked at. */
  function LossesOf(types: seq<string>, frames: seq<bool>, lastFrame: nat): Losses
    requires lastFrame <= |types| && lastFrame <= |frames|
  {
    if lastFrame < 20 then NoGroupYet
    else
      var lo := 20 * (lastFrame / 20 - 1);
      Losses(Loss(types, frames, Intra, lo, lo + 19),
             Loss(types, frames, Predicted, lo, lo + 19),
             Loss(types, frames, Bidirectional, lo, lo + 19))
  }

  /** The loss of one kind among the first 19 of the 20 frames from lo on. */
  ghost predicate LostIn(types: seq<string>, frames: seq<bool>, kind: Kind, lo: nat, loss: real)
    requires lo + 19 <= |types| && lo + 19 <= |frames|
  {
    LossIs(loss, |OfKind(types, kind, lo, lo + 19)|, |KeptOf(types, frames, kind, lo, lo + 19)|)
  }

  /** What is measured: nothing before there are 20 frames, and then the last whole group of 20. */
  lemma LossesMean(types: seq<string>, frames: seq<bool>, lastFrame: nat)
    requires lastFrame <= |types| && lastFrame <= |frames|
    ensures LossesOf(types, frames, lastFrame) == NoGroupYet <==> lastFrame < 20
    ensures lastFrame >= 20 ==>
              var (lo, losses) := (lastFrame - lastFrame % 20 - 20, LossesOf(types, frames, lastFrame));
              && LostIn(types, frames, Intra, lo, losses.intra)
              && LostIn(types, frames, Predicted, lo, losses.predicted)
              && LostIn(types, frames, Bidirectional, lo, losses.bidirectional)
  {
    if lastFrame >= 20 {
      var lo := 20 * (lastFrame / 20 - 1);
      assert lo == lastFrame - lastFrame % 20 - 20;
      LossOfLetters(types, frames, Intra, lo, lo + 19);
      LossOfLetters(types, frames, Predicted, lo, lo + 19);
      LossOfLetters(types, frames, Bidirectional, lo, lo + 19);
    }
  }

  class Receiver {
    const framePct: array<int>
    const frameType: array<string>
    const receivedPackets: array<bool>
    const receivedFrames: array<bool>
    var lastReceivedFrame: nat

    ghost predicate Valid()
      reads this
    {
      && framePct.Length == frameType.Length + 1
      && frameType.Length <= receivedFrames.Length == receivedPackets.Length
      && receivedFrames != receivedPackets
      && lastReceivedFrame <= frameType.Length
    }

    /** What the receiver has received so far. */
    ghost function State(): Reception
      reads this, receivedPackets, receivedFrames
    {
      Reception(receivedPackets[..], receivedFrames[..], lastReceivedFrame)
    }

    constructor (frames: nat, packets: nat)
      requires frames <= packets
      ensures Valid() && Clear(State())
      ensures framePct.Length == frames + 1 && receivedPackets.Length == packets
      ensures fresh(framePct) && fresh(frameType) && fresh(receivedPackets) && fresh(receivedFrames)
    {
      framePct := new int[frames + 1](_ => 0);
      frameType := new string[frames](_ => "");
      receivedPackets := new bool[packets](_ => false);
      receivedFrames := new bool[packets](_ => false);
      lastReceivedFrame := 0;
    }

    method VideoTraceParse(trace: seq<TraceLine>)
      requires Valid() && FramesNamed(trace, frameType.Length)
      modifies framePct, frameType
      ensures framePct[..] == StartsAfter(trace, old(framePct[..]))
      ensures frameType[..] == TypesAfter(trace, old(frameType[..]))
    {
      var packet := 0;
      var i := 0;
      while i < |trace|
        invariant i <= |trace| && packet == PacketTotal(trace[..i])
        invariant framePct[..] == StartsAfter(trace[..i], old(framePct[..]))
        invariant frameType[..] == TypesAfter(trace[..i], old(frameType[..]))
      {
        var line := trace[i];
        assert trace[..i + 1][..i] == trace[..i] && trace[..i + 1][i] == line;
        framePct[line.frameId - 1] := packet + 1;
        frameType[line.frameId - 1] := line.frameType;
        packet := packet + line.packets;
        i := i + 1;
      }
      assert trace[..|trace|] == trace;
    }

    /** Read the packet file. */
    method ReadPackets(ids: seq<nat>) returns (lastPacket: nat)
      requires Valid() && PacketIds(ids, receivedPackets.Length)
      modifies receivedPackets
      ensures receivedPackets[..] == Received(old(receivedPackets[..]), ids)
      ensures lastPacket == LastPacket(ids)
    {
      lastPacket := 0;
      var i := 0;
      while i < |ids|
        invariant i <= |ids| && lastPacket == LastPacket(ids[..i])
        invariant receivedPackets[..] == Received(old(receivedPackets[..]), ids[..i])
      {
        assert ids[..i + 1][..i] == ids[..i] && ids[..i + 1][i] == ids[i];
        receivedPackets[ids[i] - 1] := true;
        lastPacket := ids[i];
        i := i + 1;
      }
      assert ids[..|ids|] == ids;
    }

    method CountPackets(lo: int, hi: int) returns (counter: nat)
      requires lo < hi ==> 1 <= lo && hi <= receivedPackets.Length + 1
      ensures counter == CountReceived(receivedPackets[..], lo, hi)
    {
      counter := 0;
      var k := lo;
      while k < hi
        invariant lo < hi ==> k <= hi
        invariant lo <= k && counter == CountReceived(receivedPackets[..], lo, k)
        invariant lo >= hi ==> k == lo
      {
        if receivedPackets[k - 1] {
          counter := counter + 1;
        }
        k := k + 1;
      }
    }

    /** Mark the frames that have become complete. */
    method MarkFrames(lastPacket: nat)
      requires Valid() && WithinArray(framePct[..], receivedPackets.Length, lastPacket)
      modifies this`lastReceivedFrame, receivedFrames
      ensures Valid()
      ensures receivedFrames[..] == FramesAfter(framePct[..], receivedPackets[..], lastPacket,
                                                old(receivedFrames[..]), frameType.Length)
      ensures lastReceivedFrame == LastFrameAfter(framePct[..], receivedPackets[..], lastPacket,
                                                  old(lastReceivedFrame), frameType.Length)
    {
      ghost var starts, packets, frames := framePct[..], receivedPackets[..], receivedFrames[..];
      var j := 0;
      while j < frameType.Length
        invariant Valid() && j <= frameType.Length && framePct[..] == starts && receivedPackets[..] == packets
        invariant receivedFrames[..] == FramesAfter(starts, packets, lastPacket, frames, j)
        invariant lastReceivedFrame == LastFrameAfter(starts, packets, lastPacket, old(lastReceivedFrame), j)
      {
        assert starts[j] == framePct[j] && starts[j + 1] == framePct[j + 1];
        var npackets := framePct[j + 1] - framePct[j];
        if framePct[j] <= lastPacket {
          var counter := CountPackets(framePct[j], framePct[j + 1]);
          if npackets == counter {
            receivedFrames[j] := true;
            lastReceivedFrame := j + 1;
          }
        }
        j := j + 1;
      }
    }

    /** Count the frames of one kind in a window: all of them, and those received. */
    method CountFrames(kind: Kind, lo: nat, hi: nat) returns (total: nat, received: nat)
      requires lo <= hi <= frameType.Length && hi <= receivedFrames.Length
      ensures total == CountKind(frameType[..], kind, lo, hi)
      ensures received == CountKept(frameType[..], receivedFrames[..], kind, lo, hi)
    {
      total, received := 0, 0;
      for j := lo to hi
        invariant total == CountKind(frameType[..], kind, lo, j)
        invariant received == CountKept(frameType[..], receivedFrames[..], kind, lo, j)
      {
        if KindOf(frameType[j]) == kind {
          total := total + 1;
          if receivedFrames[j] {
            received := received + 1;
          }
        }
      }
    }

    method MeasureLosses() returns (losses: Losses)
      requires Valid()
      ensures losses == LossesOf(frameType[..], receivedFrames[..], lastReceivedFrame)
    {
      var lastGop := lastReceivedFrame / 20;
      if lastGop == 0 {
        return NoGroupYet;
      }
      var lo, hi := 20 * (lastGop - 1), lastGop * 20 - 1;
      var iTotal, iReceived := CountFrames(Intra, lo, hi);
      var pTotal, pReceived := CountFrames(Predicted, lo, hi);
      var bTotal, bReceived := CountFrames(Bidirectional, lo, hi);
      losses := Losses(Percentage(iTotal, iReceived), Percentage(pTotal, pReceived), Percentage(bTotal, bReceived));
    }

    /** One report. */
    method WriteMetrics(ids: seq<nat>) returns (losses: Losses)
      requires Valid() && PacketIds(ids, receivedPackets.Length)
      requires WithinArray(Marked(framePct[..], receivedPackets.Length), receivedPackets.Length, LastPacket(ids))
      modifies this`lastReceivedFrame, framePct, receivedPackets, receivedFrames
      ensures Valid() && framePct[..] == Marked(old(framePct[..]), receivedPackets.Length)
      ensures State() == Report(framePct[..], old(State()), ids)
      ensures losses == LossesOf(frameType[..], receivedFrames[..], lastReceivedFrame)
      ensures losses == NoGroupYet <==> lastReceivedFrame < 20
      ensures lastReceivedFrame >= 20 ==>
                var lo := lastReceivedFrame - lastReceivedFrame % 20 - 20;
                && LostIn(frameType[..], receivedFrames[..], Intra, lo, losses.intra)
                && LostIn(frameType[..], receivedFrames[..], Predicted, lo, losses.predicted)
                && LostIn(frameType[..], receivedFrames[..], Bidirectional, lo, losses.bidirectional)
    {
      var lastPacket := ReadPackets(ids);
      framePct[frameType.Length] := receivedPackets.Length + 1;
      assert framePct[..] == Marked(old(framePct[..]), receivedPackets.Length);
      MarkFrames(lastPacket);
      losses := MeasureLosses();
      LossesMean(frameType[..], receivedFrames[..], lastReceivedFrame);
    }
  }
}
