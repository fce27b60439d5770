/**
  From the samples the card packs two to a word to the bins they are read from: which sample is in
  which bin, in terms of the samples alone.
 */
module PackedSamples {
  import opened MachineWords
  import opened MarkerStream
  import opened GateSamples
  import opened RunLength
  import opened UimfAcquisitionRecord

  /** Gates as the card means them: in order, apart, and skipped ones where their predecessor stopped. */
  predicate InOrder(gates: seq<GateData>, offsetBins: nat) {
    Forward(gates, offsetBins) && StopsAscend(gates, offsetBins) && SkipsInPlace(gates, offsetBins)
  }

  lemma AscendFront(gates: seq<GateData>, offsetBins: nat)
    requires gates != [] && StopsAscend(gates, offsetBins)
    ensures StopsAscend(gates[..|gates| - 1], offsetBins)
    ensures PreviousStop(gates, offsetBins) <= Stop(gates[|gates| - 1])
  {
    hide PreviousStop, Stop;
    var front := gates[..|gates| - 1];
    forall i | 0 <= i < |front| ensures PreviousStop(front[..i + 1], offsetBins) <= Stop(front[i]) {
      assert front[..i + 1] == gates[..i + 1];
    }
    assert gates[..|gates| - 1 + 1] == gates;
  }

  /** Nothing is described at or past the last stop. */
  lemma {:induction false} NothingPastTheStop(words: seq<Word>, base: nat, gates: seq<GateData>, offsetBins: nat,
                                              b: int)
    requires Forward(gates, offsetBins) && StopsAscend(gates, offsetBins)
    requires gates != [] ==> b >= offsetBins + Stop(gates[|gates| - 1])
    ensures Described(words, base, gates, offsetBins, b) == 0
  {
    hide Start, Stop, Empty, Count, SampleAt, Elements, StopsAscend, Placed;
    if gates == [] {
    } else {
      var front, g := gates[..|gates| - 1], gates[|gates| - 1];
      AscendFront(gates, offsetBins);
      NothingPastTheStop(words, base, front, offsetBins, b);
      PlacedGate(g, offsetBins);
    }
  }

  /** In the bin of sample `k` of gate `j` nothing else is described. */
  lemma {:induction false} BinOfSample(words: seq<Word>, base: nat, gates: seq<GateData>, offsetBins: nat,
                                       j: nat, k: nat)
    requires Forward(gates, offsetBins) && StopsAscend(gates, offsetBins)
    requires j < |gates| && k < Count(gates[j])
    ensures offsetBins + Start(gates[j]) + k < offsetBins + Stop(gates[|gates| - 1])
    ensures Described(words, base, gates, offsetBins, offsetBins + Start(gates[j]) + k)
         == SampleAt(words, base + Elements(gates[..j]), gates[j].startPos + k)
  {
    hide Start, Stop, Empty, Count, SampleAt, Elements, StopsAscend, Placed;
    var front, g := gates[..|gates| - 1], gates[|gates| - 1];
    var b := offsetBins + Start(gates[j]) + k;
    AscendFront(gates, offsetBins);
    PlacedGate(g, offsetBins);
    if j == |gates| - 1 {
      NothingPastTheStop(words, base, front, offsetBins, b);
    } else {
      BinOfSample(words, base, front, offsetBins, j, k);
      assert front[..j] == gates[..j];
    }
  }

  /** Where gate `j`'s first sample is in the list the words pack. */
  function FirstSample(base: nat, gates: seq<GateData>, j: nat): nat
    requires j < |gates|
  {
    2 * (base + Elements(gates[..j])) + gates[j].startPos
  }

  /** Reading `enc`, sample `k` of gate `j` is in bin `offset + start + k`. */
  ghost predicate BinHoldsSample(enc: seq<int>, list: seq<int>, base: nat, gates: seq<GateData>, offsetBins: nat,
                                 j: nat, k: nat)
    requires j < |gates|
  {
    && FirstSample(base, gates, j) + k < |list|
    && Value(enc, offsetBins + Start(gates[j]) + k) == list[FirstSample(base, gates, j) + k] + RANGE_SHIFT
  }

  /**
    The round trip in terms of samples: for words that pack `list`, reading the encoding finds in
    bin `offset + start + k` sample `k` of the gate, counted from where its words begin.
   */
  lemma BinsHoldSamples(words: seq<Word>, list: seq<int>, base: nat, gates: seq<GateData>, offsetBins: nat,
                        j: nat, k: nat)
    requires Packs(words, list) && Readable(words, base, gates) && InOrder(gates, offsetBins)
    requires j < |gates| && k < Count(gates[j])
    ensures BinHoldsSample(Encoded(words, base, gates, offsetBins), list, base, gates, offsetBins, j, k)
  {
    hide Start, Stop, Empty, Count, SampleAt, Elements, StopsAscend, Forward, SkipsInPlace, Packs, Value, Encoded,
         Described, Readable;
    OneMoreGate(words, base, gates, j, offsetBins);
    HalvesAscend(gates[j].startPos + k, gates[j].startPos + Count(gates[j]) - 1);
    SampleAtOfPacked(words, list, base + Elements(gates[..j]), gates[j].startPos + k);
    BinOfSample(words, base, gates, offsetBins, j, k);
    RoundTrip(words, base, gates, offsetBins, offsetBins + Start(gates[j]) + k);
  }

  /** A scan, read back, has every kept gate's samples in its own bins, in order. */
  ghost predicate ScanHoldsSamples(r: EncodedResult, list: seq<int>, base: nat, gates: seq<GateData>, offsetBins: nat) {
    forall j, k :: 0 <= j < |gates| && 0 <= k < Count(gates[j]) ==>
      BinHoldsSample(r.encodedSpectra, list, base, gates, offsetBins, j, k)
  }

  /** So it is with every scan of what `Process` returns. */
  lemma ProcessedHoldsSamples(results: seq<EncodedResult>, words: seq<Word>, list: seq<int>, stamps: seq<TriggerData>,
                              offsetBins: nat, start: nat, t: nat)
    requires Reported(results, words, stamps, offsetBins, start, |stamps|) && Packs(words, list)
    requires t < |stamps| && Readable(words, TotalElements(stamps[..t]), stamps[t].gates)
    requires InOrder(stamps[t].gates, offsetBins)
    ensures ScanHoldsSamples(results[t], list, TotalElements(stamps[..t]), stamps[t].gates, offsetBins)
  {
    hide Count, TotalElements, InOrder, Packs, Encoded, Readable, IsPeak, BinHoldsSample;
    var base, gates := TotalElements(stamps[..t]), stamps[t].gates;
    forall j, k | 0 <= j < |gates| && 0 <= k < Count(gates[j])
      ensures BinHoldsSample(results[t].encodedSpectra, list, base, gates, offsetBins, j, k)
    {
      BinsHoldSamples(words, list, base, gates, offsetBins, j, k);
    }
  }
}
