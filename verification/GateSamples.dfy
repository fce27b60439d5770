/** Where a gate's samples lie: in the record, and in the words fetched for it. */
module GateSamples {
  import opened MachineWords
  import opened MarkerStream

  const BLOCK := 8
  const RANGE_SHIFT := 32768

  /** First valid sample of the record, and one past the last, in 64-bit arithmetic. */
  function Start(g: GateData): (n: nat)
    ensures n < TWO64
  {
    U64((g.startBlock - 1) * BLOCK + g.startPos)
  }

  function Stop(g: GateData): (n: nat)
    ensures n < TWO64
  {
    U64((g.stopBlock - 1) * BLOCK - U32(BLOCK - g.stopPos))
  }

  /** A gate whose stop is not past its start is skipped. */
  predicate Empty(g: GateData) {
    Stop(g) <= Start(g)
  }

  function Count(g: GateData): nat {
    if Empty(g) || S64(Stop(g)) <= S64(Start(g)) then 0 else S64(Stop(g)) - S64(Start(g))
  }

  /** Blocks count from 1, positions stay in a block, and with the offset every index fits 32 bits. */
  predicate Placed(g: GateData, offsetBins: nat) {
    && 1 <= g.startBlock && 2 <= g.stopBlock && g.stopPos <= BLOCK
    && (g.startBlock - 1) * BLOCK + g.startPos + offsetBins < TWO31
    && (g.stopBlock - 2) * BLOCK + g.stopPos + offsetBins < TWO31
  }

  lemma PlacedGate(g: GateData, offsetBins: nat)
    requires Placed(g, offsetBins)
    ensures Start(g) == (g.startBlock - 1) * BLOCK + g.startPos
    ensures Stop(g) == (g.stopBlock - 2) * BLOCK + g.stopPos
    ensures Start(g) + offsetBins < TWO31 && Stop(g) + offsetBins < TWO31
    ensures Count(g) == if Empty(g) then 0 else Stop(g) - Start(g)
  {
    hide U64, U32, S64;
    SmallIndex((g.startBlock - 1) * BLOCK + g.startPos);
    SmallIndex((g.stopBlock - 2) * BLOCK + g.stopPos);
    SmallPosition(BLOCK - g.stopPos);
  }

  lemma SmallIndex(n: nat)
    requires n < TWO31
    ensures U64(n) == n && S64(n) == n
  {
  }

  lemma SmallPosition(n: nat)
    requires n <= BLOCK
    ensures U32(n) == n
  {
  }

  // ----- the two samples of a word

  /** The even sample: the low half-word, sign-extended by shifting up and down, then shifted into range. */
  function LowSample(w: Word): int {
    S32(w * TWO16) / TWO16 + RANGE_SHIFT
  }

  function HighSample(w: Word): int {
    w / TWO16 + RANGE_SHIFT
  }

  function Sample(w: Word, i: nat): int {
    if i % 2 == 0 then LowSample(w) else HighSample(w)
  }

  /** Both samples are 16-bit values, and together they are the word. */
  lemma SamplesOfWord(w: Word)
    ensures 0 <= LowSample(w) < TWO16 && 0 <= HighSample(w) < TWO16
    ensures LowSample(w) == (w + RANGE_SHIFT) % TWO16
    ensures w == (HighSample(w) - RANGE_SHIFT) * TWO16 + (LowSample(w) + RANGE_SHIFT) % TWO16
  {
    var q, r := w / TWO16, w % TWO16;
    assert w == q * TWO16 + r;
    ShiftUp(w);
    var s := if r >= RANGE_SHIFT then r - TWO16 else r;
    assert S32(w * TWO16) == s * TWO16;
    assert s * TWO16 / TWO16 == s;
  }

  /** Shifting a word up by 16 keeps the low half as a signed multiple of 65536. */
  lemma ShiftUp(w: Word)
    ensures var r := w % TWO16;
            S32(w * TWO16) == if r >= RANGE_SHIFT then (r - TWO16) * TWO16 else r * TWO16
  {
    var q, r := w / TWO16, w % TWO16;
    assert w == q * TWO16 + r;
    assert w * TWO16 == q * TWO32 + r * TWO16;
    assert 0 <= r * TWO16 < TWO32;
    RemainderOf(q, r * TWO16);
  }

  lemma RemainderOf(q: int, r: nat)
    requires r < TWO32
    ensures (q * TWO32 + r) % TWO32 == r
  {
  }

  lemma SampleInRange(w: Word, i: nat)
    ensures 0 <= Sample(w, i) < TWO16
  {
    hide LowSample, HighSample;
    SamplesOfWord(w);
  }

  // ----- samples as the card packs them

  /** A word holds two signed 16-bit samples, the first in its low half. */
  predicate PacksPair(w: Word, first: int, second: int) {
    && -RANGE_SHIFT <= first < RANGE_SHIFT && -RANGE_SHIFT <= second < RANGE_SHIFT
    && w == second * TWO16 + if first < 0 then first + TWO16 else first
  }

  /** The words hold the samples of `list`, in order. */
  predicate Packs(words: seq<Word>, list: seq<int>) {
    && |list| == 2 * |words|
    && forall k :: 0 <= k < |words| ==> PacksPair(words[k], list[2 * k], list[2 * k + 1])
  }

  lemma PairOfWord(w: Word, first: int, second: int)
    requires PacksPair(w, first, second)
    ensures LowSample(w) == first + RANGE_SHIFT && HighSample(w) == second + RANGE_SHIFT
  {
    hide LowSample;
    SamplesOfWord(w);
    var low := if first < 0 then first + TWO16 else first;
    assert w / TWO16 == second && w % TWO16 == low;
    assert (w + RANGE_SHIFT) % TWO16 == first + RANGE_SHIFT;
  }

  /** Every word packs exactly one pair, so whatever is acquired packs some list. */
  lemma EveryWordPacks(w: Word)
    ensures PacksPair(w, Sample(w, 0) - RANGE_SHIFT, Sample(w, 1) - RANGE_SHIFT)
    ensures forall first, second :: PacksPair(w, first, second) ==>
              first == Sample(w, 0) - RANGE_SHIFT && second == Sample(w, 1) - RANGE_SHIFT
  {
    hide LowSample;
    SamplesOfWord(w);
    forall first, second | PacksPair(w, first, second)
      ensures first == Sample(w, 0) - RANGE_SHIFT && second == Sample(w, 1) - RANGE_SHIFT
    {
      PairOfWord(w, first, second);
    }
  }

  /** Half-word `i` of packed words is sample `i`, shifted into range. */
  lemma HalfWordIsSample(words: seq<Word>, list: seq<int>, i: nat)
    requires Packs(words, list) && i < |list|
    ensures Sample(words[i / 2], i) == list[i] + RANGE_SHIFT
  {
    hide LowSample, HighSample;
    var k := i / 2;
    assert i == 2 * k || i == 2 * k + 1;
    PairOfWord(words[k], list[2 * k], list[2 * k + 1]);
  }

  // ----- windows

  /** The words that hold the gate's samples are among the ones fetched for it. */
  predicate InWindow(g: GateData) {
    Count(g) > 0 ==> (g.startPos + Count(g) - 1) / 2 < g.elementCount
  }

  /**
    A gate of a marker hunk with its blocks in order, counted from 1, ending inside a block and
    with a 32-bit count, never reads outside its own words.
   */
  lemma GateReadsItsWindow(hunk: seq<Word>, q: nat)
    requires |hunk| == HUNK && q <= 12
    requires var start, stop := BlockIndex(hunk[q], hunk[q + 1]), BlockIndex(hunk[q + 2], hunk[q + 3]);
             1 <= start <= stop && stop - start <= TWO32 / 4 - 4
    requires Placed(Gate(hunk, q), 0)
    ensures InWindow(Gate(hunk, q))
  {
    var g := Gate(hunk, q);
    var start, stop := BlockIndex(hunk[q], hunk[q + 1]), BlockIndex(hunk[q + 2], hunk[q + 3]);
    PlacedGate(g, 0);
    CountIsFetch(hunk, q);
    FetchSizeOrdered(start, stop);
    hide BlockIndex, FetchSize, Start, Stop, Empty, U32, U64, S64;
    assert g.startBlock == start && g.stopBlock == stop;
    assert g.elementCount >= (stop - start) * 4;
    if Count(g) > 0 {
      assert g.startPos + Count(g) <= (stop - start) * 8;
    }
  }

  /** Within one trigger, window `j` ends where window `j + 1` begins. */
  lemma {:induction false} WindowsTile(gates: seq<GateData>, j: nat)
    requires j < |gates|
    ensures Elements(gates[..j]) + gates[j].elementCount == Elements(gates[..j + 1]) <= Elements(gates)
    decreases |gates|
  {
    assert gates[..j + 1][..j] == gates[..j];
    if j + 1 == |gates| {
      assert gates[..j + 1] == gates;
    } else {
      WindowsTile(gates[..|gates| - 1], j);
      assert gates[..|gates| - 1][..j + 1] == gates[..j + 1];
      assert gates[..|gates| - 1][..j] == gates[..j];
    }
  }
}
