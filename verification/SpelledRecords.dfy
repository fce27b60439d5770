/**
  From what the card means to the bins of the published spectra, in one statement: a stream that
  spells some triggers and gates, and words that pack some samples, become vectors in which every
  gate's samples are read from their own bins.
 */
module SpelledRecords {
  import opened MachineWords
  import opened MarkerStream
  import opened MarkerSpelling
  import opened GateSamples
  import opened UimfAcquisitionRecord
  import opened PackedSamples
  import opened CstZs1Context
  import opened AcquiredRecords

  /** The samples a stretch of packed words packs. */
  lemma PackedSlice(words: seq<Word>, list: seq<int>, lo: nat, hi: nat)
    requires Packs(words, list) && lo <= hi <= |words|
    ensures Packs(words[lo..hi], list[2 * lo..2 * hi])
  {
    forall k | 0 <= k < hi - lo
      ensures PacksPair(words[lo..hi][k], list[2 * lo..2 * hi][2 * k], list[2 * lo..2 * hi][2 * k + 1])
    {
      assert PacksPair(words[lo + k], list[2 * (lo + k)], list[2 * (lo + k) + 1]);
    }
  }

  /** Samples counted from the start of the stream, instead of from what was acquired. */
  lemma HoldsFromStream(r: EncodedResult, list: seq<int>, from: nat, to: nat, base: nat, gates: seq<GateData>,
                        offsetBins: nat)
    requires from <= to && 2 * to <= |list|
    requires ScanHoldsSamples(r, list[2 * from..2 * to], base, gates, offsetBins)
    ensures ScanHoldsSamples(r, list, from + base, gates, offsetBins)
  {
    hide Start, Count, Elements;
    var at := from + base;
    forall j, k | 0 <= j < |gates| && 0 <= k < Count(gates[j])
      ensures BinHoldsSample(r.encodedSpectra, list, at, gates, offsetBins, j, k)
    {
      assert BinHoldsSample(r.encodedSpectra, list[2 * from..2 * to], base, gates, offsetBins, j, k);
    }
  }

  /** Every scan of a record whose words are a slice of the samples stream. */
  lemma ScansHoldSamples(s: seq<Word>, results: seq<EncodedResult>, words: seq<Word>, samples: seq<Word>,
                         list: seq<int>, from: nat, offsetBins: nat, start: nat, t: nat)
    requires Whole(|s|) && StretchSound(s) && |s| <= TWO32 && |words| == TotalElements(Parse(s))
    requires Reported(results, words, Parse(s), offsetBins, start, |Parse(s)|)
    requires Packs(samples, list) && from + |words| <= |samples| && words == samples[from..from + |words|]
    requires t < |Parse(s)| && InOrder(Parse(s)[t].gates, offsetBins)
    ensures ScanHoldsSamples(results[t], list, from + TotalElements(Parse(s)[..t]), Parse(s)[t].gates, offsetBins)
  {
    hide Parse, StretchSound, FetchTotal, Whole, U64, TotalElements, Packs, ScanHoldsSamples, InOrder, Readable,
         Reports;
    FetchDoesNotWrap(s);
    AcquiredIsReadable(s, words);
    PackedSlice(samples, list, from, from + |words|);
    PackedLength(samples, list);
    ProcessedHoldsSamples(results, words, list[2 * from..2 * (from + |words|)], Parse(s), offsetBins, start, t);
    HoldsFromStream(results[t], list, from, from + |words|, TotalElements(Parse(s)[..t]), Parse(s)[t].gates,
                    offsetBins);
  }

  lemma PackedLength(words: seq<Word>, list: seq<int>)
    requires Packs(words, list)
    ensures |list| == 2 * |words|
  {
  }

  /**
    A record of a spelled stream, acquired and encoded: its triggers are those spelled, and with the
    replies in step sample `k` of gate `j` of scan `t` is read from bin `offset + start + k`.
   */
  method AcquireSpelled(context: Context, n: nat, timeoutMs: nat, offsetBins: nat, startScanIndex: nat,
                        ghost hunks: seq<Hunk>, ghost next: Hunk, ghost list: seq<int>)
    returns (r: Result<AcquiredData>, results: seq<EncodedResult>, ghost replies: seq<Reply>)
    requires context.Valid() && context.Noting() && n <= context.maxTriggers
    requires SoundAhead(context.digitizer.markers, context.Walked())
    requires (forall h :: h in hunks ==> h.Spellable()) && next.Spellable() && next.Fired?
    requires SpelledAt(context.digitizer.markers, context.Walked(), hunks, next) && |Meaning(hunks)| == n
    requires Packs(context.digitizer.samples, list)
    modifies context, context.markersBuffer, context.markersBuffer.data, context.digitizer
    ensures context.Valid() && context.Noting()
    ensures r.Ok? ==>
              && r.value.stamps == Meaning(hunks)
              && context.Walked() == old(context.Walked()) + |SpellAll(hunks)|
              && |results| == n && forall t :: 0 <= t < n ==> results[t].timestamp == r.value.stamps[t].timestamp
    ensures r.Ok? && InStep(replies) ==>
              forall t :: 0 <= t < n && InOrder(r.value.stamps[t].gates, offsetBins) ==>
                ScanHoldsSamples(results[t], list,
                                 old(context.digitizer.samplesRead) + TotalElements(r.value.stamps[..t]),
                                 r.value.stamps[t].gates, offsetBins)
  {
    hide Parse, StretchSound, FetchTotal, Whole, U64, TotalElements, Packs, ScanHoldsSamples, InOrder, Readable,
         Clean, KindOf, InStep, IsLatest, FirstIsLater, SpelledAt, SpellAll, Meaning, ReadsItsOwn, TriggerAt,
         SoundAhead, Reported, Context.Noting;
    ghost var a, from := context.Walked(), context.digitizer.samplesRead;
    r, results, replies := AcquireAndEncode(context, n, timeoutMs, offsetBins, startScanIndex);
    if r.Ok? {
      ghost var s, words := context.digitizer.markers[a..context.Walked()], r.value.samplesBuffer.Unread();
      SoundUpTo(context.digitizer.markers, a, context.Walked());
      WalkReadsSpelled(context.digitizer.markers, a, context.Walked(), n, hunks, next);
      ReportedTimes(results, words, Parse(s), offsetBins, startScanIndex);
      if InStep(replies) {
        forall t | 0 <= t < n && InOrder(Parse(s)[t].gates, offsetBins)
          ensures ScanHoldsSamples(results[t], list, from + TotalElements(Parse(s)[..t]), Parse(s)[t].gates, offsetBins)
        {
          ScansHoldSamples(s, results, words, context.digitizer.samples, list, from, offsetBins, startScanIndex, t);
        }
      }
    }
  }

  lemma ReportedTimes(results: seq<EncodedResult>, words: seq<Word>, stamps: seq<TriggerData>, offsetBins: nat,
                      start: nat)
    requires Reported(results, words, stamps, offsetBins, start, |stamps|)
    ensures |results| == |stamps|
    ensures forall t :: 0 <= t < |stamps| ==>
              results[t].timestamp == stamps[t].timestamp && results[t].scan == start + t
  {
  }
}
