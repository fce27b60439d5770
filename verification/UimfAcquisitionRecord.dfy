/** `UimfAcquisitionRecord::process`: gates to run-length vectors, and the summary of each scan. */
module UimfAcquisitionRecord {
  import opened MachineWords
  import opened MarkerStream
  import opened GateSamples
  import opened RunLength
  import AcquisitionBuffer

  datatype EncodedResult = EncodedResult(
    scan: nat, nonZeroCount: nat, encodedSpectra: seq<int>, tic: nat, bpi: nat, indexMaxIntensity: int, timestamp: nat)

  // ----- the vector a list of gates is encoded to

  /** The sample at half-word `i` of the words from `at`; nothing is there past the end. */
  function SampleAt(words: seq<Word>, at: nat, i: nat): (v: int)
    ensures 0 <= v < TWO16
  {
    if at + i / 2 < |words| then
      SampleInRange(words[at + i / 2], i);
      Sample(words[at + i / 2], i)
    else 0
  }

  /** The first `k` samples of a gate whose words start at `at`. */
  function Samples(words: seq<Word>, at: nat, g: GateData, k: nat): (s: seq<int>)
    ensures |s| == k && forall i :: 0 <= i < k ==> 0 <= s[i] < TWO16 && s[i] == SampleAt(words, at, g.startPos + i)
  {
    if k == 0 then [] else Samples(words, at, g, k - 1) + [SampleAt(words, at, g.startPos + k - 1)]
  }

  /** Samples of a list, shifted into range. */
  function Shifted(list: seq<int>): (s: seq<int>)
    ensures |s| == |list| && forall i :: 0 <= i < |list| ==> s[i] == list[i] + RANGE_SHIFT
  {
    seq(|list|, i requires 0 <= i < |list| => list[i] + RANGE_SHIFT)
  }

  lemma SampleAtOfPacked(words: seq<Word>, list: seq<int>, at: nat, i: nat)
    requires Packs(words, list) && at + i / 2 < |words|
    ensures 2 * at + i < |list| && SampleAt(words, at, i) == list[2 * at + i] + RANGE_SHIFT
  {
    HalfWordIsSample(words, list, 2 * at + i);
    assert (2 * at + i) / 2 == at + i / 2 && (2 * at + i) % 2 == i % 2;
  }

  /** A gate's samples are those of the list the words pack, from its own place on. */
  lemma {:induction false} SamplesOfPacked(words: seq<Word>, list: seq<int>, at: nat, g: GateData, k: nat)
    requires Packs(words, list) && (k > 0 ==> at + (g.startPos + k - 1) / 2 < |words|)
    ensures k > 0 ==> 2 * at + g.startPos + k <= |list|
    ensures k > 0 ==> Samples(words, at, g, k) == Shifted(list[2 * at + g.startPos..2 * at + g.startPos + k])
  {
    hide Packs, SampleAt;
    if k == 0 {
    } else {
      SampleAtOfPacked(words, list, at, g.startPos + k - 1);
      if k > 1 {
        HalvesAscend(g.startPos + k - 2, g.startPos + k - 1);
        SamplesOfPacked(words, list, at, g, k - 1);
      }
    }
  }

  lemma HalvesAscend(i: nat, j: nat)
    requires i <= j
    ensures i / 2 <= j / 2
  {
  }

  /** The gap before the last gate, measured from the gate before it even when that one was skipped. */
  function Gap(gates: seq<GateData>, offsetBins: nat): int
    requires gates != []
  {
    var n := |gates| - 1;
    S32(if n == 0 then Start(gates[0]) + offsetBins else Start(gates[n]) - Stop(gates[n - 1]))
  }

  /** A gap as run lengths; 32768 is written as two so that it never is one. */
  function GapCode(gap: int): seq<int> {
    if gap == 32768 then [-32767, -1]
    else if gap > 0 then [-1 * gap]
    else []
  }

  function Encoded(words: seq<Word>, base: nat, gates: seq<GateData>, offsetBins: nat): seq<int> {
    if gates == [] then []
    else
      var front, g := gates[..|gates| - 1], gates[|gates| - 1];
      var enc := Encoded(words, base, front, offsetBins);
      if Empty(g) then enc
      else enc + GapCode(Gap(gates, offsetBins)) + Samples(words, base + Elements(front), g, Count(g))
  }

  // ----- where samples land

  /** The end of the gate before, or the start of the bins. */
  function PreviousStop(gates: seq<GateData>, offsetBins: nat): int
    requires gates != []
  {
    if |gates| == 1 then 0 - offsetBins else Stop(gates[|gates| - 2])
  }

  /** How far skipped gates have pulled everything after them towards bin 0. */
  function Drift(gates: seq<GateData>, offsetBins: nat): int {
    if gates == [] then 0
    else
      Drift(gates[..|gates| - 1], offsetBins)
      + if Empty(gates[|gates| - 1]) then Stop(gates[|gates| - 1]) - PreviousStop(gates, offsetBins) else 0
  }

  /** Indices fit, and no gate that is not skipped starts before the gate before it stops. */
  predicate Forward(gates: seq<GateData>, offsetBins: nat) {
    gates == []
    || (&& Forward(gates[..|gates| - 1], offsetBins)
        && Placed(gates[|gates| - 1], offsetBins)
        && (Empty(gates[|gates| - 1]) || PreviousStop(gates, offsetBins) <= Start(gates[|gates| - 1])))
  }

  /** The bin of the first sample of the last gate, by the gate's own description less the drift. */
  function Landing(gates: seq<GateData>, offsetBins: nat): int
    requires gates != []
  {
    offsetBins + Start(gates[|gates| - 1]) - Drift(gates[..|gates| - 1], offsetBins)
  }

  lemma GapCodeMoves(enc: seq<int>, gap: int)
    requires 0 <= gap
    ensures Cursor(enc + GapCode(gap)) == Cursor(enc) + gap
    ensures forall b :: Value(enc + GapCode(gap), b) == Value(enc, b)
    ensures forall v :: v in GapCode(gap) ==> v < 0 && v != -32768
  {
    hide Cursor, Value;
    if gap == 32768 {
      Push(enc, -32767);
      Push(enc + [-32767], -1);
      assert enc + GapCode(gap) == enc + [-32767] + [-1];
    } else if gap > 0 {
      Push(enc, -1 * gap);
    } else {
      assert enc + GapCode(gap) == enc;
    }
  }

  lemma SmallIsKept(n: nat)
    requires n < TWO31
    ensures S32(n) == n
  {
  }

  lemma ForwardGap(gates: seq<GateData>, offsetBins: nat)
    requires gates != [] && Forward(gates, offsetBins) && !Empty(gates[|gates| - 1])
    ensures Gap(gates, offsetBins) == Start(gates[|gates| - 1]) - PreviousStop(gates, offsetBins) >= 0
  {
    hide Start, Stop, Placed, Empty, S32;
    var n := |gates| - 1;
    PlacedGate(gates[n], offsetBins);
    if n == 0 {
      SmallIsKept(Start(gates[0]) + offsetBins);
    } else {
      assert gates[..n] != [] && gates[..n][n - 1] == gates[n - 1];
      PlacedGate(gates[n - 1], offsetBins);
      SmallIsKept(Start(gates[n]) - Stop(gates[n - 1]));
    }
  }

  /** The cursor after a list of gates: where the last of them stops, less the drift. */
  lemma {:induction false} CursorOfGates(words: seq<Word>, base: nat, gates: seq<GateData>, offsetBins: nat)
    requires Forward(gates, offsetBins)
    ensures gates == [] ==> Cursor(Encoded(words, base, gates, offsetBins)) == 0
    ensures gates != [] ==> Cursor(Encoded(words, base, gates, offsetBins))
                            == offsetBins + Stop(gates[|gates| - 1]) - Drift(gates, offsetBins)
    ensures gates != [] && !Empty(gates[|gates| - 1]) ==>
              && Gap(gates, offsetBins) >= 0
              && Cursor(Encoded(words, base, gates[..|gates| - 1], offsetBins)) + Gap(gates, offsetBins)
                 == Landing(gates, offsetBins)
  {
    hide Start, Stop, Count, Placed, Gap, GapCode, Cursor, Value, Samples, SampleAt, Elements;
    if gates == [] {
      assert Cursor([]) == 0 by { NothingStored(); }
    } else {
      var front, g := gates[..|gates| - 1], gates[|gates| - 1];
      CursorOfGates(words, base, front, offsetBins);
      if !Empty(g) {
        ForwardGap(gates, offsetBins);
        PlacedGate(g, offsetBins);
        var enc := Encoded(words, base, front, offsetBins);
        GapCodeMoves(enc, Gap(gates, offsetBins));
        StoreRun(enc + GapCode(Gap(gates, offsetBins)), Samples(words, base + Elements(front), g, Count(g)), 0);
      }
    }
  }

  lemma NothingStored()
    ensures Cursor([]) == 0 && forall b :: Value([], b) == 0
  {
  }

  /** The spectrum the gates describe, each gate moved by the drift of the skipped gates before it. */
  function Spectrum(words: seq<Word>, base: nat, gates: seq<GateData>, offsetBins: nat, b: int): int {
    if gates == [] then 0
    else
      var front, g := gates[..|gates| - 1], gates[|gates| - 1];
      var k := b - Landing(gates, offsetBins);
      Spectrum(words, base, front, offsetBins, b)
      + if 0 <= k < Count(g) then SampleAt(words, base + Elements(front), g.startPos + k) else 0
  }

  /** Encoding and reading back: bin by bin, the drifted spectrum and nothing else. */
  lemma {:induction false} ReadsBack(words: seq<Word>, base: nat, gates: seq<GateData>, offsetBins: nat, b: int)
    requires Forward(gates, offsetBins)
    ensures Value(Encoded(words, base, gates, offsetBins), b) == Spectrum(words, base, gates, offsetBins, b)
  {
    hide Start, Stop, Placed, Gap, GapCode, Cursor, Value, SampleAt, Drift, Landing;
    if gates == [] {
      NothingStored();
    } else {
      var front, g := gates[..|gates| - 1], gates[|gates| - 1];
      ReadsBack(words, base, front, offsetBins, b);
      CursorOfGates(words, base, gates, offsetBins);
      if !Empty(g) {
        var enc := Encoded(words, base, front, offsetBins);
        var run := Samples(words, base + Elements(front), g, Count(g));
        GapCodeMoves(enc, Gap(gates, offsetBins));
        StoreRun(enc + GapCode(Gap(gates, offsetBins)), run, b);
      }
    }
  }

  /** Sample `k` of gate `j` as the gates describe it: bin `offsetBins + Start + k`. */
  function Described(words: seq<Word>, base: nat, gates: seq<GateData>, offsetBins: nat, b: int): int {
    if gates == [] then 0
    else
      var front, g := gates[..|gates| - 1], gates[|gates| - 1];
      var k := b - (offsetBins + Start(g));
      Described(words, base, front, offsetBins, b)
      + if 0 <= k < Count(g) then SampleAt(words, base + Elements(front), g.startPos + k) else 0
  }

  /** Every skipped gate that a kept one follows stops where the gate before it stopped. */
  predicate SkipsInPlace(gates: seq<GateData>, offsetBins: nat) {
    forall i, j :: 0 <= i < j < |gates| && Empty(gates[i]) && !Empty(gates[j]) ==>
                     Stop(gates[i]) == PreviousStop(gates[..i + 1], offsetBins)
  }

  /** Stops never go backwards. */
  predicate StopsAscend(gates: seq<GateData>, offsetBins: nat) {
    forall i :: 0 <= i < |gates| ==> PreviousStop(gates[..i + 1], offsetBins) <= Stop(gates[i])
  }

  /** Every kept gate lands where it describes itself. */
  predicate LandsInPlace(gates: seq<GateData>, offsetBins: nat) {
    forall j :: 0 <= j < |gates| && !Empty(gates[j]) ==>
                  Landing(gates[..j + 1], offsetBins) == offsetBins + Start(gates[j])
  }

  lemma {:induction false} DriftIsZero(gates: seq<GateData>, offsetBins: nat, j: nat)
    requires j <= |gates| && StopsAscend(gates, offsetBins)
    ensures Drift(gates[..j], offsetBins) >= 0
    ensures Drift(gates[..j], offsetBins) == 0
       <==> forall i :: 0 <= i < j && Empty(gates[i]) ==> Stop(gates[i]) == PreviousStop(gates[..i + 1], offsetBins)
  {
    if j == 0 {
    } else {
      hide Start, Stop, PreviousStop;
      DriftIsZero(gates, offsetBins, j - 1);
      assert gates[..j][..j - 1] == gates[..j - 1];
    }
  }

  /**
    With stops that never go backwards, every kept gate lands in place exactly when every skipped
    gate before a kept one stops where its predecessor did. Without skipped gates it always does.
   */
  lemma {:induction false} LandsInPlaceExactly(gates: seq<GateData>, offsetBins: nat)
    requires StopsAscend(gates, offsetBins)
    ensures LandsInPlace(gates, offsetBins) <==> SkipsInPlace(gates, offsetBins)
    ensures (forall i :: 0 <= i < |gates| ==> !Empty(gates[i])) ==> LandsInPlace(gates, offsetBins)
  {
    hide Start, Stop, PreviousStop, Drift, StopsAscend;
    forall j | 0 <= j < |gates|
      ensures Landing(gates[..j + 1], offsetBins) == offsetBins + Start(gates[j])
         <==> forall i :: 0 <= i < j && Empty(gates[i]) ==> Stop(gates[i]) == PreviousStop(gates[..i + 1], offsetBins)
    {
      DriftIsZero(gates, offsetBins, j);
      assert gates[..j + 1][..j] == gates[..j];
    }
  }

  lemma LandsInPlaceFront(gates: seq<GateData>, offsetBins: nat)
    requires gates != [] && LandsInPlace(gates, offsetBins)
    ensures LandsInPlace(gates[..|gates| - 1], offsetBins)
    ensures !Empty(gates[|gates| - 1]) ==> Landing(gates, offsetBins) == offsetBins + Start(gates[|gates| - 1])
  {
    hide Start, Stop, Empty, Landing;
    var n := |gates| - 1;
    forall j | 0 <= j < n && !Empty(gates[..n][j])
      ensures Landing(gates[..n][..j + 1], offsetBins) == offsetBins + Start(gates[..n][j])
    {
      assert gates[..n][..j + 1] == gates[..j + 1];
    }
    assert gates[..n + 1] == gates;
  }

  lemma {:induction false} InPlaceIsDescribed(words: seq<Word>, base: nat, gates: seq<GateData>, offsetBins: nat,
                                              b: int)
    requires LandsInPlace(gates, offsetBins)
    ensures Spectrum(words, base, gates, offsetBins, b) == Described(words, base, gates, offsetBins, b)
  {
    if gates == [] {
    } else {
      hide Start, Stop, Empty, Count, SampleAt, Landing, LandsInPlace, Elements;
      LandsInPlaceFront(gates, offsetBins);
      EmptyHasNone(gates[|gates| - 1]);
      InPlaceIsDescribed(words, base, gates[..|gates| - 1], offsetBins, b);
    }
  }

  lemma EmptyHasNone(g: GateData)
    ensures Empty(g) ==> Count(g) == 0
  {
  }

  /** The round trip for gates as the card means them: kept, placed, and one after the other. */
  lemma RoundTrip(words: seq<Word>, base: nat, gates: seq<GateData>, offsetBins: nat, b: int)
    requires Forward(gates, offsetBins) && StopsAscend(gates, offsetBins) && SkipsInPlace(gates, offsetBins)
    ensures Value(Encoded(words, base, gates, offsetBins), b) == Described(words, base, gates, offsetBins, b)
  {
    ReadsBack(words, base, gates, offsetBins, b);
    LandsInPlaceExactly(gates, offsetBins);
    InPlaceIsDescribed(words, base, gates, offsetBins, b);
  }

  /** A gate hunk: blocks 2 to 2, which is no sample, and blocks 3 to 4; the other quarters hold no gate. */
  function DisplacingHunk(): (hunk: seq<Word>)
    ensures |hunk| == HUNK
  {
    [0x0200_0004, 0, 0x0200_0000, 0x0800_0000, 0x0300_0004, 0, 0x0400_0000, 0x0800_0000, 0, 0, 0, 0, 0, 0, 0, 0]
  }

  /** Its two gates: the empty one needs no words. */
  function DisplacingGates(): (gates: seq<GateData>)
    ensures |gates| == 2 && gates[..1] == [GateData(2, 0, 2, 8, 0)]
  {
    [GateData(2, 0, 2, 8, 0), GateData(3, 0, 4, 8, 16)]
  }

  lemma DisplacingHunkIsRead()
    ensures KindOf(DisplacingHunk()).Gates? && GatesOf(DisplacingHunk(), 4) == DisplacingGates()
  {
    hide Gate, DisplacingHunk, LowOctet;
    var hunk := DisplacingHunk();
    DisplacingKinds();
    FirstDisplacingGate();
    SecondDisplacingGate();
    assert GatesOf(hunk, 1) == [Gate(hunk, 0)];
    assert GatesOf(hunk, 2) == [Gate(hunk, 0), Gate(hunk, 4)];
    assert GatesOf(hunk, 4) == GatesOf(hunk, 3) == GatesOf(hunk, 2);
  }

  lemma DisplacingKinds()
    ensures var hunk := DisplacingHunk();
            LowOctet(hunk[0]) == LowOctet(hunk[4]) == 0x04 && LowOctet(hunk[8]) == LowOctet(hunk[12]) == 0
  {
  }

  lemma FirstDisplacingGate()
    ensures Gate(DisplacingHunk(), 0) == DisplacingGates()[0]
  {
    var hunk := DisplacingHunk();
    assert hunk[0] == 0x0200_0004 && hunk[1] == 0 && hunk[2] == 0x0200_0000 && hunk[3] == 0x0800_0000;
    hide DisplacingHunk;
    assert BlockIndex(hunk[0], hunk[1]) == 2 && BlockIndex(hunk[2], hunk[3]) == 2;
    assert TopOctet(hunk[1]) == 0 && TopOctet(hunk[3]) == 8;
    hide BlockIndex, TopOctet;
  }

  lemma SecondDisplacingGate()
    ensures Gate(DisplacingHunk(), 4) == DisplacingGates()[1]
  {
    var hunk := DisplacingHunk();
    assert hunk[4] == 0x0300_0004 && hunk[5] == 0 && hunk[6] == 0x0400_0000 && hunk[7] == 0x0800_0000;
    hide DisplacingHunk;
    assert BlockIndex(hunk[4], hunk[5]) == 3 && BlockIndex(hunk[6], hunk[7]) == 4;
    assert TopOctet(hunk[5]) == 0 && TopOctet(hunk[7]) == 8;
    hide BlockIndex, TopOctet;
  }

  lemma DisplacingPlaces()
    ensures var g := DisplacingGates();
            && Placed(g[0], 0) && Start(g[0]) == 8 && Stop(g[0]) == 8 && Empty(g[0]) && Count(g[0]) == 0
            && Placed(g[1], 0) && Start(g[1]) == 16 && Stop(g[1]) == 24 && !Empty(g[1]) && Count(g[1]) == 8
  {
    var g := DisplacingGates();
    PlacedGate(g[0], 0);
    PlacedGate(g[1], 0);
  }

  /**
    The empty gate at sample 8 makes the gate that starts at sample 16 land in bin 8: bin 8 reads
    as its first sample, although the gates describe nothing there.
   */
  lemma EmptyGateDisplaces()
    ensures var gates, words := DisplacingGates(), seq(16, _ => 0);
            && GatesOf(DisplacingHunk(), 4) == gates
            && Forward(gates, 0) && StopsAscend(gates, 0) && !LandsInPlace(gates, 0)
            && Start(gates[1]) == 16 && Landing(gates, 0) == 8
            && Value(Encoded(words, 0, gates, 0), 8) == 32768 && Described(words, 0, gates, 0, 8) == 0
  {
    DisplacingHunkIsRead();
    DisplacingPlaces();
    var gates, words := DisplacingGates(), seq(16, _ => 0);
    hide Start, Stop, Placed, Empty, Value, Encoded, Count, DisplacingHunk, GatesOf;
    var first := gates[..1];
    assert first == [gates[0]] && gates[..2] == gates && first[..0] == [];
    assert Drift([], 0) == 0;
    assert Drift(first, 0) == 8;
    assert Forward([], 0);
    assert Forward(first, 0);
    assert forall i :: 0 <= i < 2 ==> PreviousStop(gates[..i + 1], 0) <= Stop(gates[i]) by {
      assert gates[..0 + 1] == first && gates[..1 + 1] == gates;
    }
    assert !LandsInPlace(gates, 0) by {
      assert gates[..1 + 1] == gates && !Empty(gates[1]);
    }
    ReadsBack(words, 0, gates, 0, 8);
    FirstOfDisplaced(words);
  }

  lemma FirstOfDisplaced(words: seq<Word>)
    requires words == seq(16, _ => 0)
    ensures Landing(DisplacingGates(), 0) == 8 ==> Spectrum(words, 0, DisplacingGates(), 0, 8) == 32768
    ensures Described(words, 0, DisplacingGates(), 0, 8) == 0
  {
    DisplacingPlaces();
    var gates := DisplacingGates();
    hide Start, Stop, Placed, Empty, Count, Landing, SampleAt;
    SampleOfZero(words);
    OneWithoutSamples(words, gates[0], 8);
    assert gates[..1] == [gates[0]];
  }

  lemma SampleOfZero(words: seq<Word>)
    requires words != [] && words[0] == 0
    ensures SampleAt(words, 0, 0) == 32768
  {
  }

  lemma OneWithoutSamples(words: seq<Word>, g: GateData, b: int)
    requires Count(g) == 0
    ensures Spectrum(words, 0, [g], 0, b) == 0 == Described(words, 0, [g], 0, b)
    ensures Elements([g]) == g.elementCount
  {
    hide Start, Count, Landing, SampleAt;
    assert [g][..0] == [];
  }

  /** Samples of all gates, and their sum. */
  function SampleCount(gates: seq<GateData>): nat {
    if gates == [] then 0 else SampleCount(gates[..|gates| - 1]) + Count(gates[|gates| - 1])
  }

  function SampleSum(words: seq<Word>, base: nat, gates: seq<GateData>): int {
    if gates == [] then 0
    else
      var front, g := gates[..|gates| - 1], gates[|gates| - 1];
      SampleSum(words, base, front) + Sum(Samples(words, base + Elements(front), g, Count(g)))
  }

  /** What a vector stores is every sample of every gate, zeros and all, and nothing else. */
  lemma {:induction false} StoredIsSamples(words: seq<Word>, base: nat, gates: seq<GateData>, offsetBins: nat)
    ensures StoredCount(Encoded(words, base, gates, offsetBins)) == SampleCount(gates)
    ensures StoredSum(Encoded(words, base, gates, offsetBins)) == SampleSum(words, base, gates)
  {
    hide Start, Stop, Empty, Count, Gap, GapCode, Samples, StoredCount, StoredSum, Elements, Sum;
    if gates == [] {
      NothingStoredYet();
    } else {
      var front, g := gates[..|gates| - 1], gates[|gates| - 1];
      StoredIsSamples(words, base, front, offsetBins);
      EmptyHasNone(g);
      var enc, gap := Encoded(words, base, front, offsetBins), Gap(gates, offsetBins);
      var run := Samples(words, base + Elements(front), g, Count(g));
      if Empty(g) {
        NothingSummed(run);
      } else {
        GapStoresNothing(enc, gap);
        StoreRunTotals(enc + GapCode(gap), run);
      }
    }
  }

  lemma NothingStoredYet()
    ensures StoredCount([]) == 0 && StoredSum([]) == 0
  {
  }

  lemma NothingSummed(run: seq<int>)
    ensures run == [] ==> Sum(run) == 0
  {
  }

  lemma GapStoresNothing(enc: seq<int>, gap: int)
    ensures StoredCount(enc + GapCode(gap)) == StoredCount(enc) && StoredSum(enc + GapCode(gap)) == StoredSum(enc)
  {
    hide StoredCount, StoredSum;
    if gap == 32768 {
      Push(enc, -32767);
      Push(enc + [-32767], -1);
      assert enc + GapCode(gap) == enc + [-32767] + [-1];
    } else if gap > 0 {
      Push(enc, -1 * gap);
    } else {
      assert enc + GapCode(gap) == enc;
    }
  }

  /** -32768 is never a run length, so readers that treat it specially see the same bins. */
  lemma {:induction false} NoForbiddenRun(words: seq<Word>, base: nat, gates: seq<GateData>, offsetBins: nat)
    ensures -32768 !in Encoded(words, base, gates, offsetBins)
    ensures PaddedCursor(Encoded(words, base, gates, offsetBins)) == Cursor(Encoded(words, base, gates, offsetBins))
  {
    hide Start, Stop, Gap, Cursor, PaddedCursor;
    if gates == [] {
    } else {
      NoForbiddenRun(words, base, gates[..|gates| - 1], offsetBins);
    }
    RunLength.ReadersAgree(Encoded(words, base, gates, offsetBins));
  }

  /** Every entry is a 32-bit word, so a vector can be compressed as it is. */
  lemma {:induction false} EntriesAreWords(words: seq<Word>, base: nat, gates: seq<GateData>, offsetBins: nat)
    ensures forall v :: v in Encoded(words, base, gates, offsetBins) ==> -TWO31 <= v < TWO31
  {
    if gates == [] {
    } else {
      hide Start, Stop, Empty, Count, S32;
      EntriesAreWords(words, base, gates[..|gates| - 1], offsetBins);
    }
  }

  // ----- the method

  /** Every gate of the list reads inside the words there are. */
  predicate Readable(words: seq<Word>, base: nat, gates: seq<GateData>) {
    gates == []
    || (&& Readable(words, base, gates[..|gates| - 1])
        && (Count(gates[|gates| - 1]) > 0 ==>
              base + Elements(gates[..|gates| - 1])
              + (gates[|gates| - 1].startPos + Count(gates[|gates| - 1]) - 1) / 2 < |words|))
  }

  /** What a scan is reported to be, against the vector its gates are encoded to. */
  ghost predicate Reports(r: EncodedResult, words: seq<Word>, base: nat, t: TriggerData, offsetBins: nat) {
    var enc := Encoded(words, base, t.gates, offsetBins);
    && r.encodedSpectra == enc && r.timestamp == t.timestamp
    && r.tic == StoredSum(enc) && r.nonZeroCount == StoredCount(enc)
    && (Forward(t.gates, offsetBins) ==> IsPeak(enc, r.bpi, r.indexMaxIntensity))
  }

  /** The summary kept beside a vector while it grows. */
  datatype Tally = Tally(tic: nat, bpi: nat, indexMaxIntensity: int, nonZeroCount: nat, zeroCount: int)

  ghost predicate Counts(enc: seq<int>, y: Tally) {
    y.tic == StoredSum(enc) && y.nonZeroCount == StoredCount(enc)
  }

  /** The peak, and the bin the next value will be read into, provided all gaps went forward. */
  ghost predicate Tracks(enc: seq<int>, y: Tally) {
    IsPeak(enc, y.bpi, y.indexMaxIntensity) && y.nonZeroCount + y.zeroCount == Cursor(enc)
  }

  /** One stored value. */
  function Tallied(y: Tally, v: nat): Tally {
    Tally(y.tic + v,
          if v > y.bpi then v else y.bpi,
          if v > y.bpi then y.nonZeroCount + y.zeroCount else y.indexMaxIntensity,
          y.nonZeroCount + 1, y.zeroCount)
  }

  lemma TallyStore(enc: seq<int>, y: Tally, v: nat)
    requires Counts(enc, y)
    ensures Counts(enc + [v], Tallied(y, v))
    ensures Tracks(enc, y) ==> Tracks(enc + [v], Tallied(y, v))
  {
    hide Cursor, StoredSum, StoredCount, IsPeak;
    Push(enc, v);
    if Tracks(enc, y) {
      PushPeak(enc, y.bpi, y.indexMaxIntensity, v);
    }
  }

  lemma TallyGap(enc: seq<int>, y: Tally, gap: int)
    requires Counts(enc, y)
    ensures Counts(enc + GapCode(gap), y.(zeroCount := y.zeroCount + gap))
    ensures Tracks(enc, y) && gap >= 0 ==> Tracks(enc + GapCode(gap), y.(zeroCount := y.zeroCount + gap))
  {
    hide Cursor, StoredSum, StoredCount, IsPeak;
    if gap == 32768 {
      Push(enc, -32767);
      Push(enc + [-32767], -1);
      assert enc + GapCode(gap) == enc + [-32767] + [-1];
      if Tracks(enc, y) {
        PushPeak(enc, y.bpi, y.indexMaxIntensity, -32767);
        PushPeak(enc + [-32767], y.bpi, y.indexMaxIntensity, -1);
      }
    } else if gap > 0 {
      Push(enc, -1 * gap);
      if Tracks(enc, y) {
        PushPeak(enc, y.bpi, y.indexMaxIntensity, -1 * gap);
      }
    } else {
      assert enc + GapCode(gap) == enc;
    }
  }

  lemma NothingTallied()
    ensures Counts([], Tally(0, 0, 0, 0, 0)) && Tracks([], Tally(0, 0, 0, 0, 0))
  {
  }

  /** Reading the buffer from its unprocessed part on is reading the unread words. */
  lemma RawIsUnread(buffer: AcquisitionBuffer.Buffer, k: nat)
    requires buffer.Valid() && k < |buffer.Unread()|
    ensures buffer.RawUnprocessed() + k < buffer.data.Length
    ensures buffer.data[buffer.RawUnprocessed() + k] == buffer.Unread()[k]
  {
  }

  /** The half-word at `i` of the words from `offset`. */
  method ReadSample(buffer: AcquisitionBuffer.Buffer, offset: nat, i: nat) returns (val: nat)
    requires buffer.Valid() && offset + i / 2 < |buffer.Unread()|
    ensures val == SampleAt(buffer.Unread(), offset, i) < TWO16
  {
    hide LowSample, HighSample;
    var ptr := buffer.RawUnprocessed() + offset;
    var dataIndex := i / 2;
    RawIsUnread(buffer, offset + dataIndex);
    var word := buffer.data[ptr + dataIndex];
    SamplesOfWord(word);
    val := if i % 2 == 0 then LowSample(word) else HighSample(word);
  }

  lemma SamplesPush(enc: seq<int>, words: seq<Word>, at: nat, g: GateData, k: nat)
    ensures Samples(words, at, g, 0) == []
    ensures enc + Samples(words, at, g, k) + [SampleAt(words, at, g.startPos + k)] == enc + Samples(words, at, g, k + 1)
  {
  }

  /** The samples of one kept gate, two to a word. */
  method EncodeSamples(buffer: AcquisitionBuffer.Buffer, offset: nat, g: GateData, enc0: seq<int>, y0: Tally)
    returns (enc: seq<int>, y: Tally)
    requires buffer.Valid() && !Empty(g) && Counts(enc0, y0)
    requires Count(g) > 0 ==> offset + (g.startPos + Count(g) - 1) / 2 < |buffer.Unread()|
    ensures enc == enc0 + Samples(buffer.Unread(), offset, g, Count(g))
    ensures Counts(enc, y) && (Tracks(enc0, y0) ==> Tracks(enc, y))
  {
    hide Start, Stop, Counts, Tracks, Samples, SampleAt, Packs;
    enc, y := enc0, y0;
    ghost var words := buffer.Unread();
    var samples := S64(Stop(g)) - S64(Start(g));
    var i := g.startPos;
    SamplesPush(enc0, words, offset, g, 0);
    while i < g.startPos + samples
      invariant g.startPos <= i <= g.startPos + Count(g)
      invariant enc == enc0 + Samples(words, offset, g, i - g.startPos)
      invariant Counts(enc, y) && (Tracks(enc0, y0) ==> Tracks(enc, y))
    {
      HalvesAscend(i, g.startPos + Count(g) - 1);
      var val := ReadSample(buffer, offset, i);
      SamplesPush(enc0, words, offset, g, i - g.startPos);
      TallyStore(enc, y, val);
      if val > y.bpi {
        y := y.(bpi := val, indexMaxIntensity := y.nonZeroCount + y.zeroCount);
      }
      enc := enc + [val];
      y := y.(nonZeroCount := y.nonZeroCount + 1, tic := y.tic + val);
      i := i + 1;
    }
  }

  /** The gap and the samples of a kept gate. */
  method EncodeGate(buffer: AcquisitionBuffer.Buffer, offset: nat, g: GateData, gateZeroCount: int,
                    enc0: seq<int>, y0: Tally)
    returns (enc: seq<int>, y: Tally)
    requires buffer.Valid() && !Empty(g) && Counts(enc0, y0)
    requires Count(g) > 0 ==> offset + (g.startPos + Count(g) - 1) / 2 < |buffer.Unread()|
    ensures enc == enc0 + GapCode(gateZeroCount) + Samples(buffer.Unread(), offset, g, Count(g))
    ensures Counts(enc, y) && (Tracks(enc0, y0) && gateZeroCount >= 0 ==> Tracks(enc, y))
  {
    hide Counts, Tracks, Samples, Count, Empty;
    enc, y := enc0, y0;
    TallyGap(enc, y, gateZeroCount);
    if gateZeroCount == 32768 {
      enc := enc + [-32767];
      enc := enc + [-1];
    } else if gateZeroCount > 0 {
      enc := enc + [-1 * gateZeroCount];
    }
    assert enc == enc0 + GapCode(gateZeroCount);
    y := y.(zeroCount := y.zeroCount + gateZeroCount);
    enc, y := EncodeSamples(buffer, offset, g, enc, y);
  }

  /** What the first `j + 1` gates add to the first `j`. */
  lemma OneMoreGate(words: seq<Word>, base: nat, gates: seq<GateData>, j: nat, offsetBins: nat)
    requires j < |gates| && Readable(words, base, gates)
    ensures Elements(gates[..j + 1]) == Elements(gates[..j]) + gates[j].elementCount
    ensures Empty(gates[j]) ==>
              Encoded(words, base, gates[..j + 1], offsetBins) == Encoded(words, base, gates[..j], offsetBins)
    ensures !Empty(gates[j]) ==>
              Encoded(words, base, gates[..j + 1], offsetBins)
              == Encoded(words, base, gates[..j], offsetBins) + GapCode(Gap(gates[..j + 1], offsetBins))
                 + Samples(words, base + Elements(gates[..j]), gates[j], Count(gates[j]))
    ensures Count(gates[j]) > 0 ==>
              base + Elements(gates[..j]) + (gates[j].startPos + Count(gates[j]) - 1) / 2 < |words|
    ensures Forward(gates[..j + 1], offsetBins) ==>
              Forward(gates[..j], offsetBins) && (!Empty(gates[j]) ==> Gap(gates[..j + 1], offsetBins) >= 0)
  {
    hide Gap, GapCode, Samples, Count, Start, Stop, Empty, Placed;
    var upTo := gates[..j + 1];
    assert upTo[..j] == gates[..j];
    ReadablePrefix(words, base, gates, j + 1);
    if Forward(upTo, offsetBins) && !Empty(gates[j]) {
      ForwardGap(upTo, offsetBins);
    }
  }

  /** One scan; `offset` is where its first gate's words start, and ends after its last gate's. */
  method ProcessTrigger(trig: TriggerData, buffer: AcquisitionBuffer.Buffer, offset0: nat, offsetBins: nat, scan: nat)
    returns (result: EncodedResult, offset: nat)
    requires buffer.Valid() && Readable(buffer.Unread(), offset0, trig.gates)
    ensures offset == offset0 + Elements(trig.gates)
    ensures result.scan == scan && Reports(result, buffer.Unread(), offset0, trig, offsetBins)
  {
    hide Start, Stop, Empty, Count, Counts, Tracks, Gap, GapCode, S32, Forward, Readable, Encoded, Elements, Samples,
         IsPeak, StoredSum, StoredCount;
    offset := offset0;
    ghost var words := buffer.Unread();
    var enc: seq<int>, y := [], Tally(0, 0, 0, 0, 0);
    NothingTallied();
    NoGates(words, offset0, offsetBins);
    assert trig.gates[..0] == [];
    for j := 0 to |trig.gates|
      invariant offset == offset0 + Elements(trig.gates[..j])
      invariant enc == Encoded(words, offset0, trig.gates[..j], offsetBins)
      invariant Counts(enc, y) && (Forward(trig.gates[..j], offsetBins) ==> Tracks(enc, y))
    {
      OneMoreGate(words, offset0, trig.gates, j, offsetBins);
      GapOfLast(trig.gates, j, offsetBins);
      var g := trig.gates[j];
      if Empty(g) {
        offset := offset + g.elementCount;
        continue;
      }
      var gateZeroCount := S32(if j == 0 then Start(g) + offsetBins else Start(g) - Stop(trig.gates[j - 1]));
      enc, y := EncodeGate(buffer, offset, g, gateZeroCount, enc, y);
      offset := offset + g.elementCount;
    }
    assert trig.gates[..|trig.gates|] == trig.gates;
    result := EncodedResult(scan, y.nonZeroCount, enc, y.tic, y.bpi, y.indexMaxIntensity, trig.timestamp);
    TallyReports(enc, y);
  }

  lemma NoGates(words: seq<Word>, base: nat, offsetBins: nat)
    ensures Encoded(words, base, [], offsetBins) == [] && Elements([]) == 0
  {
  }

  lemma GapOfLast(gates: seq<GateData>, j: nat, offsetBins: nat)
    requires j < |gates|
    ensures Gap(gates[..j + 1], offsetBins)
         == S32(if j == 0 then Start(gates[j]) + offsetBins else Start(gates[j]) - Stop(gates[j - 1]))
  {
  }

  lemma TallyReports(enc: seq<int>, y: Tally)
    requires Counts(enc, y)
    ensures y.tic == StoredSum(enc) && y.nonZeroCount == StoredCount(enc)
    ensures Tracks(enc, y) ==> IsPeak(enc, y.bpi, y.indexMaxIntensity)
  {
  }

  lemma {:induction false} ReadablePrefix(words: seq<Word>, base: nat, gates: seq<GateData>, k: nat)
    requires Readable(words, base, gates) && k <= |gates|
    ensures Readable(words, base, gates[..k])
    decreases |gates|
  {
    if k == |gates| {
      assert gates[..k] == gates;
    } else {
      hide Count;
      ReadablePrefix(words, base, gates[..|gates| - 1], k);
      assert gates[..|gates| - 1][..k] == gates[..k];
    }
  }

  /** The first `k` results report the first `k` triggers, numbered from `start`. */
  ghost predicate Reported(results: seq<EncodedResult>, words: seq<Word>, stamps: seq<TriggerData>,
                           offsetBins: nat, start: nat, k: nat) {
    && |results| == k <= |stamps|
    && forall t :: 0 <= t < k ==>
         results[t].scan == start + t && Reports(results[t], words, TotalElements(stamps[..t]), stamps[t], offsetBins)
  }

  lemma ReportedPush(results: seq<EncodedResult>, words: seq<Word>, stamps: seq<TriggerData>,
                     offsetBins: nat, start: nat, k: nat, r: EncodedResult)
    requires Reported(results, words, stamps, offsetBins, start, k) && k < |stamps|
    requires r.scan == start + k && Reports(r, words, TotalElements(stamps[..k]), stamps[k], offsetBins)
    ensures Reported(results + [r], words, stamps, offsetBins, start, k + 1)
    ensures TotalElements(stamps[..k + 1]) == TotalElements(stamps[..k]) + Elements(stamps[k].gates)
  {
    hide Reports, Elements;
    assert stamps[..k + 1][..k] == stamps[..k];
  }

  lemma NothingReported(words: seq<Word>, stamps: seq<TriggerData>, offsetBins: nat, start: nat)
    ensures Reported([], words, stamps, offsetBins, start, 0) && TotalElements(stamps[..0]) == 0
  {
  }

  /**
    `process`: one result per trigger, in order, numbered from `startScanIndex`. The words of each
    trigger's gates follow those of the trigger before.
   */
  method Process(stamps: seq<TriggerData>, buffer: AcquisitionBuffer.Buffer, offsetBins: nat, startScanIndex: nat)
    returns (results: seq<EncodedResult>)
    requires buffer.Valid()
    requires forall t :: 0 <= t < |stamps| ==> Readable(buffer.Unread(), TotalElements(stamps[..t]), stamps[t].gates)
    ensures Reported(results, buffer.Unread(), stamps, offsetBins, startScanIndex, |stamps|)
  {
    hide Readable, Reports, Reported, Elements, TotalElements;
    results := [];
    var offset := 0;
    NothingReported(buffer.Unread(), stamps, offsetBins, startScanIndex);
    for trigIndex := 0 to |stamps|
      invariant offset == TotalElements(stamps[..trigIndex])
      invariant Reported(results, buffer.Unread(), stamps, offsetBins, startScanIndex, trigIndex)
    {
      var result;
      result, offset := ProcessTrigger(stamps[trigIndex], buffer, offset, offsetBins, startScanIndex + trigIndex);
      ReportedPush(results, buffer.Unread(), stamps, offsetBins, startScanIndex, trigIndex, result);
      results := results + [result];
    }
  }
}
