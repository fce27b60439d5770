/** The summing reader: expands the run-length vectors of a batch and adds them bin by bin. */
module ZmqAcquiredDataSubscriber {
  import opened MachineWords
  import opened MarkerStream
  import opened GateSamples
  import opened RunLength
  import opened UimfAcquisitionRecord

  /** The dense sum: bin `b` over all scans. */
  function BatchValue(scans: seq<EncodedResult>, b: int): int {
    if scans == [] then 0 else BatchValue(scans[..|scans| - 1], b) + Value(scans[|scans| - 1].encodedSpectra, b)
  }

  function BatchOpenings(scans: seq<EncodedResult>): nat {
    if scans == [] then 0 else BatchOpenings(scans[..|scans| - 1]) + Openings(scans[|scans| - 1].encodedSpectra)
  }

  function BatchBelow(scans: seq<EncodedResult>, floor: int): nat {
    if scans == [] then 0
    else BatchBelow(scans[..|scans| - 1], floor) + OpeningsBelow(scans[|scans| - 1].encodedSpectra, floor)
  }

  /** No skip of the batch leaves the vector. */
  ghost predicate BatchFits(scans: seq<EncodedResult>, size: nat) {
    forall s :: 0 <= s < |scans| ==> SkipsFit(scans[s].encodedSpectra, size)
  }

  /** Nothing is stored outside the vector before some skip has left it: the store itself is not checked. */
  ghost predicate BatchStoresFit(scans: seq<EncodedResult>, size: nat) {
    forall s :: 0 <= s < |scans| && BatchFits(scans[..s], size) ==> StoresFit(scans[s].encodedSpectra, size)
  }

  datatype Message = Message(tics: seq<nat>, timeStamps: seq<nat>, mz: seq<int>)

  datatype Status = SamplesMisaligned(below: nat, gates: nat) | IndexOutOfRange(index: int)

  function Tics(scans: seq<EncodedResult>): (r: seq<nat>)
    ensures |r| == |scans| && forall i :: 0 <= i < |r| ==> r[i] == scans[i].tic
  {
    if scans == [] then [] else Tics(scans[..|scans| - 1]) + [scans[|scans| - 1].tic]
  }

  function TimeStamps(scans: seq<EncodedResult>): (r: seq<nat>)
    ensures |r| == |scans| && forall i :: 0 <= i < |r| ==> r[i] == scans[i].timestamp
  {
    if scans == [] then [] else TimeStamps(scans[..|scans| - 1]) + [scans[|scans| - 1].timestamp]
  }

  function TotalTic(scans: seq<EncodedResult>): nat {
    if scans == [] then 0 else TotalTic(scans[..|scans| - 1]) + scans[|scans| - 1].tic
  }

  function SumOf(bins: seq<int>): int {
    if bins == [] then 0 else SumOf(bins[..|bins| - 1]) + bins[|bins| - 1]
  }

  // ----- conservation

  function SumBatchBins(scans: seq<EncodedResult>, size: nat): int {
    if size == 0 then 0 else SumBatchBins(scans, size - 1) + BatchValue(scans, size - 1)
  }

  lemma {:induction false} SumBatchBinsPush(scans: seq<EncodedResult>, size: nat)
    requires scans != []
    ensures SumBatchBins(scans, size)
         == SumBatchBins(scans[..|scans| - 1], size) + SumBins(scans[|scans| - 1].encodedSpectra, size)
  {
    if size == 0 {
    } else {
      hide Value;
      SumBatchBinsPush(scans, size - 1);
    }
  }

  lemma {:induction false} NoScans(size: nat)
    ensures SumBatchBins([], size) == 0
  {
    if size == 0 {
    } else {
      NoScans(size - 1);
    }
  }

  /** A batch that fits loses nothing: the bins add up to the scans' total ion counts. */
  lemma {:induction false} BatchConserves(scans: seq<EncodedResult>, size: nat)
    requires BatchFits(scans, size) && BatchStoresFit(scans, size)
    requires forall s :: 0 <= s < |scans| ==> scans[s].tic == StoredSum(scans[s].encodedSpectra)
    ensures SumBatchBins(scans, size) == TotalTic(scans)
  {
    hide SkipsFit, StoresFit, SumBins, Value;
    if scans == [] {
      NoScans(size);
    } else {
      var n := |scans| - 1;
      forall s | 0 <= s < n && BatchFits(scans[..n][..s], size) ensures StoresFit(scans[..n][s].encodedSpectra, size) {
        assert scans[..n][..s] == scans[..s];
      }
      BatchConserves(scans[..n], size);
      SumBatchBinsPush(scans, size);
      assert BatchFits(scans[..n], size);
      BinsHoldAll(scans[n].encodedSpectra, size);
    }
  }

  lemma {:induction false} SumOfBins(bins: seq<int>, scans: seq<EncodedResult>)
    requires forall b :: 0 <= b < |bins| ==> bins[b] == BatchValue(scans, b)
    ensures SumOf(bins) == SumBatchBins(scans, |bins|)
  {
    if bins == [] {
    } else {
      hide BatchValue;
      SumOfBins(bins[..|bins| - 1], scans);
    }
  }

  // ----- the subscriber

  /** A scan is added, or a skip has left the vector at `index`, or a store was made there. */
  datatype Outcome = Added | Left(index: int) | Stray(index: int)

  class Subscriber {
    const dataVector: array<int>
    const firstSampleFloor: int
    var processed: nat
    var published: seq<Message>
    var statuses: seq<Status>

    constructor (sampleCount: nat, firstSampleFloor: int)
      ensures fresh(dataVector) && dataVector.Length == sampleCount && this.firstSampleFloor == firstSampleFloor
      ensures published == [] && statuses == [] && processed == 0
    {
      dataVector := new int[sampleCount](_ => 0);
      this.firstSampleFloor := firstSampleFloor;
      processed, published, statuses := 0, [], [];
    }

    /** How many runs open in the batch, and how many of them below the threshold. */
    method CheckAlignment(scans: seq<EncodedResult>) returns (gates: nat, below: nat)
      ensures gates == BatchOpenings(scans) && below == BatchBelow(scans, firstSampleFloor)
    {
      hide Openings, OpeningsBelow;
      gates, below := 0, 0;
      assert scans[..0] == [];
      for s := 0 to |scans|
        invariant gates == BatchOpenings(scans[..s]) && below == BatchBelow(scans[..s], firstSampleFloor)
      {
        var enc, opening, g, d := scans[s].encodedSpectra, true, gates, below;
        NoOpenings(firstSampleFloor);
        assert enc[..0] == [];
        for i := 0 to |enc|
          invariant g == gates + Openings(enc[..i]) && d == below + OpeningsBelow(enc[..i], firstSampleFloor)
          invariant opening <==> i == 0 || enc[i - 1] < 0
        {
          var val := enc[i];
          OpeningsPush(enc[..i], val, firstSampleFloor);
          assert enc[..i + 1] == enc[..i] + [val];
          if val < 0 {
            opening := true;
            continue;
          }
          if opening {
            g := g + 1;
            if val < firstSampleFloor {
              d := d + 1;
            }
            opening := false;
          }
        }
        assert enc[..|enc|] == enc;
        assert scans[..s + 1][..s] == scans[..s];
        gates, below := g, d;
      }
      assert scans[..|scans|] == scans;
    }

    /**
      Adds one scan. A skip that leaves the vector is the source's exception. A store outside the
      vector is not checked there, and nothing is known once it is made: here it ends the method.
     */
    method AddScan(enc: seq<int>) returns (outcome: Outcome)
      modifies dataVector
      ensures outcome.Stray? <==> !StoresFit(enc, dataVector.Length)
      ensures outcome.Added? <==> StoresFit(enc, dataVector.Length) && SkipsFit(enc, dataVector.Length)
      ensures !outcome.Added? ==> outcome.index >= dataVector.Length
      ensures outcome.Added? ==>
                forall b :: 0 <= b < dataVector.Length ==> dataVector[b] == old(dataVector[b]) + Value(enc, b)
    {
      hide Cursor, Value, SkipsFit, StoresFit;
      var index, size := 0, dataVector.Length;
      assert enc[..0] == [];
      NothingStored();
      NothingFits(size);
      for i := 0 to |enc|
        invariant index == Cursor(enc[..i]) && SkipsFit(enc[..i], size) && StoresFit(enc[..i], size)
        invariant forall b :: 0 <= b < size ==> dataVector[b] == old(dataVector[b]) + Value(enc[..i], b)
      {
        var val := enc[i];
        Push(enc[..i], val);
        SkipsFitOne(enc[..i], val, size);
        StoresFitOne(enc[..i], val, size);
        assert enc[..i + 1] == enc[..i] + [val];
        if val < 0 {
          index := index + -1 * val;
          if index >= size {
            SkipsDoNotFit(enc, i, size);
            return Left(index);
          }
          continue;
        }
        if index >= size {
          StoreDoesNotFit(enc, i, size);
          return Stray(index);
        }
        dataVector[index] := dataVector[index] + val;
        index := index + 1;
      }
      assert enc[..|enc|] == enc;
      return Added;
    }

    /**
      A batch: checked for alignment, then summed and published, or refused whole when a skip
      leaves the vector. `stray` is a store outside it, after which nothing is known.
     */
    method OnNotify(scans: seq<EncodedResult>) returns (stray: bool)
      modifies this, dataVector
      ensures stray <==> !BatchStoresFit(scans, dataVector.Length)
      ensures var below := BatchBelow(scans, firstSampleFloor);
              var checked := old(statuses)
                             + if below == 0 then [] else [SamplesMisaligned(below, BatchOpenings(scans))];
              if stray then statuses == checked && published == old(published)
              else if BatchFits(scans, dataVector.Length) then
                && statuses == checked && processed == old(processed) + 1
                && |published| == |old(published)| + 1 && published[..|old(published)|] == old(published)
                && var m := published[|old(published)|];
                   && m.tics == Tics(scans) && m.timeStamps == TimeStamps(scans) && |m.mz| == dataVector.Length
                   && forall b :: 0 <= b < |m.mz| ==> m.mz[b] == BatchValue(scans, b)
              else
                && published == old(published) && processed == old(processed)
                && |statuses| == |checked| + 1 && statuses[..|checked|] == checked
                && statuses[|checked|].IndexOutOfRange? && statuses[|checked|].index >= dataVector.Length
    {
      hide BatchFits, BatchStoresFit, Value;
      var gates, below := CheckAlignment(scans);
      if below != 0 {
        statuses := statuses + [SamplesMisaligned(below, gates)];
      }
      var outcome, tics, timeStamps := SumScans(scans);
      stray := outcome.Stray?;
      match outcome
      case Added =>
        published := published + [Message(tics, timeStamps, dataVector[..])];
        processed := processed + 1;
      case Left(index) =>
        statuses := statuses + [IndexOutOfRange(index)];
      case Stray(_) =>
    }

    method SumScans(scans: seq<EncodedResult>) returns (outcome: Outcome, tics: seq<nat>, timeStamps: seq<nat>)
      modifies dataVector
      ensures outcome.Stray? <==> !BatchStoresFit(scans, dataVector.Length)
      ensures outcome.Added? <==> BatchStoresFit(scans, dataVector.Length) && BatchFits(scans, dataVector.Length)
      ensures outcome.Added? ==> tics == Tics(scans) && timeStamps == TimeStamps(scans)
      ensures outcome.Added? ==> forall b :: 0 <= b < dataVector.Length ==> dataVector[b] == BatchValue(scans, b)
      ensures !outcome.Added? ==> outcome.index >= dataVector.Length
    {
      hide SkipsFit, StoresFit, Value;
      outcome, tics, timeStamps := Added, [], [];
      forall b | 0 <= b < dataVector.Length {
        dataVector[b] := 0;
      }
      assert scans[..0] == [];
      for s := 0 to |scans|
        invariant outcome.Added?
        invariant BatchFits(scans[..s], dataVector.Length) && BatchStoresFit(scans[..s], dataVector.Length)
        invariant tics == Tics(scans[..s]) && timeStamps == TimeStamps(scans[..s])
        invariant forall b :: 0 <= b < dataVector.Length ==> dataVector[b] == BatchValue(scans[..s], b)
      {
        hide BatchFits, BatchStoresFit;
        var er := scans[s];
        tics, timeStamps := tics + [er.tic], timeStamps + [er.timestamp];
        BatchStops(scans, s, dataVector.Length);
        outcome := AddScan(er.encodedSpectra);
        if !outcome.Added? {
          return;
        }
        BatchGoesOn(scans, s, dataVector.Length);
        assert scans[..s + 1][..s] == scans[..s];
      }
      assert scans[..|scans|] == scans;
    }
  }

  /** A skip that leaves the vector ends the scan: what would be stored after it is not. */
  lemma SkipsDoNotFit(enc: seq<int>, i: nat, size: nat)
    requires i < |enc| && enc[i] < 0 && Cursor(enc[..i + 1]) >= size && StoresFit(enc[..i + 1], size)
    ensures !SkipsFit(enc, size) && StoresFit(enc, size)
  {
    hide Cursor;
    forall k | i < k <= |enc| ensures !SkipsFit(enc[..k], size) {
      assert enc[..k][i] == enc[i] && enc[..k][..i + 1] == enc[..i + 1];
    }
    forall k | 0 <= k <= i && enc[k] >= 0 && SkipsFit(enc[..k], size) ensures Cursor(enc[..k]) < size {
      assert enc[..i + 1][k] == enc[k] && enc[..i + 1][..k] == enc[..k];
    }
    assert enc[..|enc|] == enc;
  }

  /** A store outside the vector with no skip before it that has left it. */
  lemma StoreDoesNotFit(enc: seq<int>, i: nat, size: nat)
    requires i < |enc| && enc[i] >= 0 && Cursor(enc[..i]) >= size && SkipsFit(enc[..i], size)
    ensures !StoresFit(enc, size)
  {
  }

  lemma BatchStops(scans: seq<EncodedResult>, s: nat, size: nat)
    requires s < |scans| && BatchFits(scans[..s], size) && BatchStoresFit(scans[..s], size)
    ensures !SkipsFit(scans[s].encodedSpectra, size) && StoresFit(scans[s].encodedSpectra, size) ==>
              !BatchFits(scans, size) && BatchStoresFit(scans, size)
    ensures !StoresFit(scans[s].encodedSpectra, size) ==> !BatchStoresFit(scans, size)
  {
    hide SkipsFit, StoresFit;
    if !SkipsFit(scans[s].encodedSpectra, size) && StoresFit(scans[s].encodedSpectra, size) {
      forall k | s < k <= |scans| ensures !BatchFits(scans[..k], size) {
        assert scans[..k][s] == scans[s];
      }
      forall k | 0 <= k < s && BatchFits(scans[..k], size) ensures StoresFit(scans[k].encodedSpectra, size) {
        assert scans[..s][k] == scans[k] && scans[..s][..k] == scans[..k];
      }
      assert scans[..|scans|] == scans;
    }
  }

  lemma BatchGoesOn(scans: seq<EncodedResult>, s: nat, size: nat)
    requires s < |scans| && BatchFits(scans[..s], size) && BatchStoresFit(scans[..s], size)
    requires SkipsFit(scans[s].encodedSpectra, size) && StoresFit(scans[s].encodedSpectra, size)
    ensures BatchFits(scans[..s + 1], size) && BatchStoresFit(scans[..s + 1], size)
  {
    hide SkipsFit, StoresFit;
    var more := scans[..s + 1];
    forall k | 0 <= k <= s && BatchFits(more[..k], size) ensures StoresFit(more[k].encodedSpectra, size) {
      if k < s {
        assert scans[..s][k] == more[k] && scans[..s][..k] == more[..k];
      }
    }
  }

  lemma NoOpenings(floor: int)
    ensures Openings([]) == 0 && OpeningsBelow([], floor) == 0
  {
  }
}
