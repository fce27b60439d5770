/**
  When the vector a list of gates is encoded to fits a reader's bins: exactly which gates make a
  skip or an unchecked store leave them.
 */
module VectorBounds {
  import opened MachineWords
  import opened MarkerStream
  import opened GateSamples
  import opened RunLength
  import opened UimfAcquisitionRecord

  /** If gate `j` is kept and a gap is before it, it lands inside `size` bins. */
  predicate GapInside(gates: seq<GateData>, j: nat, offsetBins: nat, size: nat)
    requires j < |gates|
  {
    !Empty(gates[j]) && Gap(gates[..j + 1], offsetBins) > 0 ==> Landing(gates[..j + 1], offsetBins) < size
  }

  /** Gate `j` is kept and ends past the bins. */
  predicate EndsOutside(gates: seq<GateData>, j: nat, offsetBins: nat, size: nat)
    requires j < |gates|
  {
    !Empty(gates[j]) && Landing(gates[..j + 1], offsetBins) + Count(gates[j]) > size
  }

  /** Every gap before one of the first `k` gates leads to a place inside. */
  predicate GapsInside(gates: seq<GateData>, k: nat, offsetBins: nat, size: nat)
    requires k <= |gates|
  {
    forall j :: 0 <= j < k ==> GapInside(gates, j, offsetBins, size)
  }

  /** One of the first `k` gates ends past the bins, and no gap up to it leads there. */
  predicate StoreOutside(gates: seq<GateData>, k: nat, offsetBins: nat, size: nat)
    requires k <= |gates|
  {
    exists j :: 0 <= j < k && EndsOutside(gates, j, offsetBins, size) && GapsInside(gates, j + 1, offsetBins, size)
  }

  lemma GapFit(enc: seq<int>, gap: int, size: nat)
    requires gap >= 0
    ensures SkipsFit(enc + GapCode(gap), size) <==> SkipsFit(enc, size) && (gap > 0 ==> Cursor(enc) + gap < size)
    ensures StoresFit(enc + GapCode(gap), size) <==> StoresFit(enc, size)
  {
    hide SkipsFit, StoresFit, Cursor;
    if gap == 32768 {
      SkipsFitOne(enc, -32767, size);
      StoresFitOne(enc, -32767, size);
      Push(enc, -32767);
      SkipsFitOne(enc + [-32767], -1, size);
      StoresFitOne(enc + [-32767], -1, size);
      assert enc + GapCode(gap) == enc + [-32767] + [-1];
    } else if gap > 0 {
      SkipsFitOne(enc, -1 * gap, size);
      StoresFitOne(enc, -1 * gap, size);
    } else {
      assert enc + GapCode(gap) == enc;
    }
  }

  /** What gate `j` asks of the bins. */
  lemma OneMoreFits(words: seq<Word>, base: nat, gates: seq<GateData>, j: nat, offsetBins: nat, size: nat)
    requires j < |gates| && Forward(gates[..j + 1], offsetBins)
    ensures var front := Encoded(words, base, gates[..j], offsetBins);
            var enc := Encoded(words, base, gates[..j + 1], offsetBins);
            && (SkipsFit(enc, size) <==> SkipsFit(front, size) && GapInside(gates, j, offsetBins, size))
            && (StoresFit(enc, size)
                <==> && StoresFit(front, size)
                     && (SkipsFit(front, size) && GapInside(gates, j, offsetBins, size) ==>
                           !EndsOutside(gates, j, offsetBins, size)))
  {
    hide Start, Stop, Gap, GapCode, Cursor, SkipsFit, StoresFit, Samples, Elements, Placed, Landing, Forward, Empty,
         Count;
    var upTo, g := gates[..j + 1], gates[j];
    assert upTo[..j] == gates[..j];
    if !Empty(g) {
      var front := Encoded(words, base, gates[..j], offsetBins);
      var gap := Gap(upTo, offsetBins);
      CursorOfGates(words, base, upTo, offsetBins);
      LastIsPlaced(upTo, offsetBins);
      KeptHasSamples(g, offsetBins);
      GapCodeMoves(front, gap);
      GapFit(front, gap, size);
      var run := Samples(words, base + Elements(gates[..j]), g, Count(g));
      assert |run| == Count(g) > 0;
      FitOfRun(front + GapCode(gap), run, size);
    }
  }

  lemma LastIsPlaced(gates: seq<GateData>, offsetBins: nat)
    requires gates != [] && Forward(gates, offsetBins)
    ensures Placed(gates[|gates| - 1], offsetBins) && Forward(gates[..|gates| - 1], offsetBins)
  {
  }

  lemma KeptHasSamples(g: GateData, offsetBins: nat)
    requires Placed(g, offsetBins) && !Empty(g)
    ensures Count(g) == Stop(g) - Start(g) > 0
  {
    PlacedGate(g, offsetBins);
  }

  /**
    The vector's skips fit exactly when every gap leads inside; and it has a store outside exactly
    when a kept gate ends past the bins and no gap up to it leads there.
   */
  lemma EncodedFitsExactly(words: seq<Word>, base: nat, gates: seq<GateData>, offsetBins: nat, size: nat)
    requires Forward(gates, offsetBins)
    ensures SkipsFit(Encoded(words, base, gates, offsetBins), size) <==> GapsInside(gates, |gates|, offsetBins, size)
    ensures StoresFit(Encoded(words, base, gates, offsetBins), size)
       <==> !StoreOutside(gates, |gates|, offsetBins, size)
  {
    FitsUpTo(words, base, gates, |gates|, offsetBins, size);
    assert gates[..|gates|] == gates;
  }

  /** So the whole vector is added exactly when no kept gate ends past the bins. */
  lemma EncodedAddsExactly(words: seq<Word>, base: nat, gates: seq<GateData>, offsetBins: nat, size: nat)
    requires Forward(gates, offsetBins)
    ensures var enc := Encoded(words, base, gates, offsetBins);
            SkipsFit(enc, size) && StoresFit(enc, size)
            <==> forall j :: 0 <= j < |gates| ==> !EndsOutside(gates, j, offsetBins, size)
  {
    hide Encoded, SkipsFit, StoresFit, Start, Stop, Empty, Count, Gap, Forward, Placed, Landing;
    EncodedFitsExactly(words, base, gates, offsetBins, size);
    forall j | 0 <= j < |gates| && !EndsOutside(gates, j, offsetBins, size)
      ensures GapInside(gates, j, offsetBins, size)
    {
      ForwardPrefix(gates, offsetBins, j + 1);
      LastIsPlaced(gates[..j + 1], offsetBins);
      if !Empty(gates[j]) {
        KeptHasSamples(gates[j], offsetBins);
      }
    }
  }

  lemma {:induction false} FitsUpTo(words: seq<Word>, base: nat, gates: seq<GateData>, k: nat, offsetBins: nat,
                                    size: nat)
    requires k <= |gates| && Forward(gates, offsetBins)
    ensures SkipsFit(Encoded(words, base, gates[..k], offsetBins), size) <==> GapsInside(gates, k, offsetBins, size)
    ensures StoresFit(Encoded(words, base, gates[..k], offsetBins), size) <==> !StoreOutside(gates, k, offsetBins, size)
  {
    hide Encoded, SkipsFit, StoresFit, GapInside, EndsOutside, Forward;
    if k == 0 {
      assert gates[..k] == [];
      NoGates(words, base, offsetBins);
      NothingFits(size);
    } else {
      FitsUpTo(words, base, gates, k - 1, offsetBins, size);
      ForwardPrefix(gates, offsetBins, k);
      OneMoreFits(words, base, gates, k - 1, offsetBins, size);
    }
  }

  // ----- gates inside the record

  /** Every kept gate ends inside a vector of `size` bins. */
  predicate InsideRecord(gates: seq<GateData>, offsetBins: nat, size: nat) {
    forall j :: 0 <= j < |gates| && !Empty(gates[j]) ==> offsetBins + Stop(gates[j]) <= size
  }

  /** Gates inside the record never make the reader leave the vector: skipped ones only pull them in. */
  lemma EncodedFits(words: seq<Word>, base: nat, gates: seq<GateData>, offsetBins: nat, size: nat)
    requires Forward(gates, offsetBins) && StopsAscend(gates, offsetBins) && InsideRecord(gates, offsetBins, size)
    ensures SkipsFit(Encoded(words, base, gates, offsetBins), size)
    ensures StoresFit(Encoded(words, base, gates, offsetBins), size)
  {
    hide Encoded, SkipsFit, StoresFit, Start, Stop, Empty, Count, Gap, Forward, StopsAscend, Placed, Drift;
    EncodedAddsExactly(words, base, gates, offsetBins, size);
    forall j | 0 <= j < |gates| && !Empty(gates[j]) ensures !EndsOutside(gates, j, offsetBins, size) {
      ForwardPrefix(gates, offsetBins, j + 1);
      LastIsPlaced(gates[..j + 1], offsetBins);
      KeptHasSamples(gates[j], offsetBins);
      DriftIsZero(gates, offsetBins, j);
      assert gates[..j + 1][..j] == gates[..j];
    }
  }

  lemma {:induction false} ForwardPrefix(gates: seq<GateData>, offsetBins: nat, k: nat)
    requires Forward(gates, offsetBins) && k <= |gates|
    ensures Forward(gates[..k], offsetBins)
    decreases |gates|
  {
    if k == |gates| {
      assert gates[..k] == gates;
    } else {
      hide Placed, Empty, PreviousStop, Start;
      ForwardPrefix(gates[..|gates| - 1], offsetBins, k);
      assert gates[..|gates| - 1][..k] == gates[..k];
    }
  }

  /** A gate from sample 8 to 16 in a record of 12: its skip fits, and its fifth sample is stored outside. */
  lemma GateAcrossTheEnd(words: seq<Word>)
    ensures var gates := [GateData(2, 0, 3, 8, 16)];
            && Forward(gates, 0) && StopsAscend(gates, 0) && SkipsInPlace(gates, 0)
            && SkipsFit(Encoded(words, 0, gates, 0), 12) && !StoresFit(Encoded(words, 0, gates, 0), 12)
  {
    var g := GateData(2, 0, 3, 8, 16);
    var gates := [g];
    PlacedGate(g, 0);
    assert Start(g) == 8 && Stop(g) == 16 && Count(g) == 8 && !Empty(g);
    hide Start, Stop, Count, Empty, Encoded, SkipsFit, StoresFit, Placed, Gap;
    assert gates[..0] == [] && gates[..1] == gates;
    assert Forward([], 0);
    assert Drift([], 0) == 0;
    assert Landing(gates, 0) == 8;
    EncodedFitsExactly(words, 0, gates, 0, 12);
    assert gates[..0 + 1] == gates;
    assert EndsOutside(gates, 0, 0, 12) && GapsInside(gates, 0 + 1, 0, 12);
  }
}
