/** The encoder against the summing reader: what a batch of acquired gates becomes when published. */
module SummedFrames {
  import opened MachineWords
  import opened MarkerStream
  import opened GateSamples
  import opened RunLength
  import opened UimfAcquisitionRecord
  import opened VectorBounds
  import opened ZmqAcquiredDataSubscriber
  import AcquisitionBuffer

  /** What the acquired triggers describe in bin `b`, all scans together. */
  function DescribedBatch(words: seq<Word>, stamps: seq<TriggerData>, offsetBins: nat, b: int): int {
    if stamps == [] then 0
    else
      var front, t := stamps[..|stamps| - 1], stamps[|stamps| - 1];
      DescribedBatch(words, front, offsetBins, b) + Described(words, TotalElements(front), t.gates, offsetBins, b)
  }

  /** Gates as the card means them, inside the record, with their words acquired. */
  ghost predicate Sound(words: seq<Word>, stamps: seq<TriggerData>, offsetBins: nat, size: nat) {
    forall t :: 0 <= t < |stamps| ==>
      var gates := stamps[t].gates;
      && Readable(words, TotalElements(stamps[..t]), gates)
      && Forward(gates, offsetBins) && StopsAscend(gates, offsetBins) && SkipsInPlace(gates, offsetBins)
      && InsideRecord(gates, offsetBins, size)
  }

  ghost predicate AllReported(results: seq<EncodedResult>, words: seq<Word>, stamps: seq<TriggerData>,
                              offsetBins: nat)
  {
    && |results| == |stamps|
    && forall t :: 0 <= t < |stamps| ==>
         Reports(results[t], words, TotalElements(stamps[..t]), stamps[t], offsetBins)
  }

  lemma {:induction false} BatchIsDescribed(results: seq<EncodedResult>, words: seq<Word>, stamps: seq<TriggerData>,
                                            offsetBins: nat, size: nat, b: int)
    requires AllReported(results, words, stamps, offsetBins) && Sound(words, stamps, offsetBins, size)
    ensures BatchValue(results, b) == DescribedBatch(words, stamps, offsetBins, b)
  {
    hide Value, Encoded, Forward, StopsAscend, SkipsInPlace, Readable, Described, TotalElements, IsPeak;
    if stamps == [] {
    } else {
      var n := |stamps| - 1;
      assert AllReported(results[..n], words, stamps[..n], offsetBins)
          && Sound(words, stamps[..n], offsetBins, size) by {
        assert forall t :: 0 <= t < n ==> stamps[..n][..t] == stamps[..t];
      }
      BatchIsDescribed(results[..n], words, stamps[..n], offsetBins, size, b);
      RoundTrip(words, TotalElements(stamps[..n]), stamps[n].gates, offsetBins, b);
    }
  }

  lemma BatchIsSafe(results: seq<EncodedResult>, words: seq<Word>, stamps: seq<TriggerData>, offsetBins: nat, size: nat)
    requires AllReported(results, words, stamps, offsetBins) && Sound(words, stamps, offsetBins, size)
    ensures BatchFits(results, size) && BatchStoresFit(results, size)
  {
    hide Encoded, Forward, StopsAscend, SkipsInPlace, Readable, TotalElements, IsPeak, SkipsFit, StoresFit;
    forall s | 0 <= s < |results|
      ensures SkipsFit(results[s].encodedSpectra, size) && StoresFit(results[s].encodedSpectra, size)
    {
      EncodedFits(words, TotalElements(stamps[..s]), stamps[s].gates, offsetBins, size);
    }
  }

  /**
    A record made into a frame and summed: no exception, every bin holds what the gates of all
    scans describe there, and the bins add up to the scans' total ion counts.
   */
  method ToFrameAndSum(stamps: seq<TriggerData>, buffer: AcquisitionBuffer.Buffer, offsetBins: nat, startScanIndex: nat,
                       zmq: Subscriber)
    returns (results: seq<EncodedResult>)
    requires buffer.Valid() && Sound(buffer.Unread(), stamps, offsetBins, zmq.dataVector.Length)
    modifies zmq, zmq.dataVector
    ensures |results| == |stamps| && forall t :: 0 <= t < |results| ==> results[t].scan == startScanIndex + t
    ensures |zmq.published| == |old(zmq.published)| + 1
    ensures var m := zmq.published[|old(zmq.published)|];
            && |m.mz| == zmq.dataVector.Length && m.tics == Tics(results) && SumOf(m.mz) == TotalTic(results)
            && forall b :: 0 <= b < |m.mz| ==>
                 m.mz[b] == DescribedBatch(old(buffer.Unread()), stamps, offsetBins, b)
  {
    hide Readable, Reports, Forward, StopsAscend, SkipsInPlace, InsideRecord, SkipsFit, StoresFit, TotalElements;
    ghost var words, size := buffer.Unread(), zmq.dataVector.Length;
    results := Process(stamps, buffer, offsetBins, startScanIndex);
    BatchIsSafe(results, words, stamps, offsetBins, size);
    TicsAreSums(results, words, stamps, offsetBins);
    var stray := zmq.OnNotify(results);
    ghost var m := zmq.published[|zmq.published| - 1];
    forall b | 0 <= b < |m.mz| ensures m.mz[b] == DescribedBatch(words, stamps, offsetBins, b) {
      BatchIsDescribed(results, words, stamps, offsetBins, size, b);
    }
    SumOfBins(m.mz, results);
    BatchConserves(results, size);
  }

  lemma TicsAreSums(results: seq<EncodedResult>, words: seq<Word>, stamps: seq<TriggerData>, offsetBins: nat)
    requires AllReported(results, words, stamps, offsetBins)
    ensures forall s :: 0 <= s < |results| ==> results[s].tic == StoredSum(results[s].encodedSpectra)
  {
  }

  // ----- what the alignment check counts

  /** Kept gates whose first sample follows a skip, or nothing at all. */
  function OpeningGates(words: seq<Word>, base: nat, gates: seq<GateData>, offsetBins: nat): nat {
    if gates == [] then 0
    else
      var front, g := gates[..|gates| - 1], gates[|gates| - 1];
      OpeningGates(words, base, front, offsetBins)
      + if Count(g) > 0 && (Gap(gates, offsetBins) > 0 || Encoded(words, base, front, offsetBins) == []) then 1 else 0
  }

  /** Those whose first sample is below the floor. */
  function LowGates(words: seq<Word>, base: nat, gates: seq<GateData>, offsetBins: nat, floor: int): nat {
    if gates == [] then 0
    else
      var front, g := gates[..|gates| - 1], gates[|gates| - 1];
      LowGates(words, base, front, offsetBins, floor)
      + if && Count(g) > 0 && (Gap(gates, offsetBins) > 0 || Encoded(words, base, front, offsetBins) == [])
           && SampleAt(words, base + Elements(front), g.startPos) < floor then 1 else 0
  }

  /**
    The check's two counts are the gates that open a run and those of them that open low: a gate
    that touches the one before it is not counted.
   */
  lemma {:induction false} AlignmentCounts(words: seq<Word>, base: nat, gates: seq<GateData>, offsetBins: nat,
                                           floor: int)
    requires Forward(gates, offsetBins)
    ensures var enc := Encoded(words, base, gates, offsetBins);
            && Openings(enc) == OpeningGates(words, base, gates, offsetBins)
            && OpeningsBelow(enc, floor) == LowGates(words, base, gates, offsetBins, floor)
            && (enc != [] ==> enc[|enc| - 1] >= 0)
  {
    hide Start, Stop, Placed, Gap, Openings, OpeningsBelow, Samples, SampleAt, Elements, PreviousStop;
    NoOpenings(floor);
    if gates == [] {
    } else {
      var front, g := gates[..|gates| - 1], gates[|gates| - 1];
      AlignmentCounts(words, base, front, offsetBins, floor);
      if !Empty(g) {
        var enc, gap := Encoded(words, base, front, offsetBins), Gap(gates, offsetBins);
        LastIsPlaced(gates, offsetBins);
        PlacedGate(g, offsetBins);
        ForwardGap(gates, offsetBins);
        GapOpensNothing(enc, gap, floor);
        OpeningsRun(enc + GapCode(gap), Samples(words, base + Elements(front), g, Count(g)), floor);
      }
    }
  }

  lemma GapOpensNothing(enc: seq<int>, gap: int, floor: int)
    requires gap >= 0 && (enc != [] ==> enc[|enc| - 1] >= 0)
    ensures Openings(enc + GapCode(gap)) == Openings(enc)
    ensures OpeningsBelow(enc + GapCode(gap), floor) == OpeningsBelow(enc, floor)
    ensures var r := enc + GapCode(gap);
            (r == [] || r[|r| - 1] < 0) <==> (gap > 0 || enc == [])
  {
    hide Openings, OpeningsBelow;
    if gap == 32768 {
      OpeningsPush(enc, -32767, floor);
      OpeningsPush(enc + [-32767], -1, floor);
      assert enc + GapCode(gap) == enc + [-32767] + [-1];
    } else if gap > 0 {
      OpeningsPush(enc, -1 * gap, floor);
    } else {
      assert enc + GapCode(gap) == enc;
    }
  }
}
