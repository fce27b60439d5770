/**
  The zero-suppress reader against the encoder: the samples acquired for a stretch of markers are
  exactly the windows of its gates, one after the other, and every gate reads only its own.
 */
module AcquiredRecords {
  import opened MachineWords
  import opened MarkerStream
  import opened GateSamples
  import opened UimfAcquisitionRecord
  import opened CstZs1Context

  // ----- gates as the card means them

  /** The quarter at `q` has its blocks in order, and its sample indices fit. */
  predicate QuarterSound(hunk: seq<Word>, q: nat)
    requires |hunk| == HUNK && q <= 12
  {
    && BlockIndex(hunk[q], hunk[q + 1]) <= BlockIndex(hunk[q + 2], hunk[q + 3])
    && Placed(Gate(hunk, q), 0)
  }

  predicate HunkSound(hunk: seq<Word>)
    requires |hunk| == HUNK
  {
    forall k :: 0 <= k < 4 && LowOctet(hunk[4 * k]) == 0x04 ==> QuarterSound(hunk, 4 * k)
  }

  /** Every gate of a stretch is sound. */
  predicate StretchSound(s: seq<Word>)
    requires Whole(|s|)
  {
    s == [] || (StretchSound(s[..|s| - HUNK]) && (KindOf(s[|s| - HUNK..]).Trigger? || HunkSound(s[|s| - HUNK..])))
  }

  predicate AllInWindow(gates: seq<GateData>) {
    forall j :: 0 <= j < |gates| ==> InWindow(gates[j])
  }

  /** A sound gate reads inside its own words, and as many are fetched as it counts: below 2^31. */
  lemma SoundQuarter(hunk: seq<Word>, q: nat)
    requires |hunk| == HUNK && q <= 12 && QuarterSound(hunk, q)
    ensures InWindow(Gate(hunk, q)) && GateFetch(hunk, q) < TWO31
  {
    var start, stop := BlockIndex(hunk[q], hunk[q + 1]), BlockIndex(hunk[q + 2], hunk[q + 3]);
    assert Gate(hunk, q).startBlock == start && Gate(hunk, q).stopBlock == stop;
    assert stop - start <= TWO31 / 8;
    hide BlockIndex, Gate, InWindow, FetchSize;
    FetchSizeOrdered(start, stop);
    GateReadsItsWindow(hunk, q);
  }

  lemma {:induction false} SoundHunk(hunk: seq<Word>, k: nat)
    requires |hunk| == HUNK && k <= 4 && HunkSound(hunk)
    ensures AllInWindow(GatesOf(hunk, k)) && HunkFits(hunk) && FetchOf(hunk, k) <= k * TWO31
  {
    hide Gate, GateFetch, InWindow, QuarterSound;
    forall k | 0 <= k < 4 && LowOctet(hunk[4 * k]) == 0x04 ensures GateFetch(hunk, 4 * k) < TWO31 {
      SoundQuarter(hunk, 4 * k);
    }
    if k == 0 {
    } else {
      SoundHunk(hunk, k - 1);
      if LowOctet(hunk[4 * (k - 1)]) == 0x04 {
        SoundQuarter(hunk, 4 * (k - 1));
      }
    }
  }

  /** Over a sound stretch every gate reads inside its own window, and the counts are what is fetched. */
  lemma {:induction false} SoundStretch(s: seq<Word>)
    requires Whole(|s|) && StretchSound(s)
    ensures CountsFit(s) && FetchTotal(s) <= |s| * (TWO31 / 4)
    ensures forall t :: 0 <= t < |Parse(s)| ==> AllInWindow(Parse(s)[t].gates)
  {
    if s == [] {
    } else {
      hide GatesOf, FetchOf, KindOf, HunkFits, HunkSound, InWindow;
      var front, hunk := s[..|s| - HUNK], s[|s| - HUNK..];
      SoundStretch(front);
      if !KindOf(hunk).Trigger? {
        SoundHunk(hunk, 4);
      }
    }
  }

  // ----- windows

  /** Where the words of gate `j` of trigger `t` begin among all the words acquired, and where they end. */
  function WindowStart(stamps: seq<TriggerData>, t: nat, j: nat): nat
    requires t < |stamps| && j < |stamps[t].gates|
  {
    TotalElements(stamps[..t]) + Elements(stamps[t].gates[..j])
  }

  function WindowEnd(stamps: seq<TriggerData>, t: nat, j: nat): nat
    requires t < |stamps| && j < |stamps[t].gates|
  {
    WindowStart(stamps, t, j) + stamps[t].gates[j].elementCount
  }

  /** Word `w` is in the window of gate `j` of trigger `t`. */
  predicate Owns(stamps: seq<TriggerData>, t: int, j: int, w: nat) {
    && 0 <= t < |stamps| && 0 <= j < |stamps[t].gates|
    && WindowStart(stamps, t, j) <= w < WindowEnd(stamps, t, j)
  }

  lemma {:induction false} ElementsAscend(gates: seq<GateData>, j: nat, k: nat)
    requires j <= k <= |gates|
    ensures Elements(gates[..j]) <= Elements(gates[..k])
    ensures j < k ==> Elements(gates[..j]) + gates[j].elementCount <= Elements(gates[..k])
    decreases k
  {
    if j == k {
    } else {
      ElementsAscend(gates, j, k - 1);
      WindowsTile(gates, k - 1);
    }
  }

  lemma {:induction false} TotalsAscend(stamps: seq<TriggerData>, t: nat, u: nat)
    requires t <= u <= |stamps|
    ensures TotalElements(stamps[..t]) <= TotalElements(stamps[..u])
    ensures t < u ==> TotalElements(stamps[..t]) + Elements(stamps[t].gates) <= TotalElements(stamps[..u])
    decreases u
  {
    if t == u {
    } else {
      TotalsAscend(stamps, t, u - 1);
      assert stamps[..u][..u - 1] == stamps[..u - 1];
    }
  }

  /** Windows are in order and apart, within a trigger and across triggers, and inside what is acquired. */
  lemma WindowsDisjoint(stamps: seq<TriggerData>, t: nat, j: nat, u: nat, k: nat)
    requires t < |stamps| && j < |stamps[t].gates| && u < |stamps| && k < |stamps[u].gates|
    ensures t < u || (t == u && j < k) ==> WindowEnd(stamps, t, j) <= WindowStart(stamps, u, k)
    ensures WindowEnd(stamps, t, j) <= TotalElements(stamps)
  {
    hide Elements, TotalElements;
    var gates := stamps[t].gates;
    assert gates[..|gates|] == gates && stamps[..|stamps|] == stamps;
    ElementsAscend(gates, j, |gates|);
    TotalsAscend(stamps, t, |stamps|);
    if t < u {
      TotalsAscend(stamps, t, u);
    } else if t == u && j < k {
      ElementsAscend(gates, j, k);
    }
  }

  /** Every word acquired belongs to exactly one gate. */
  lemma EveryWordOnce(stamps: seq<TriggerData>, w: nat)
    requires w < TotalElements(stamps)
    ensures exists t, j :: Owns(stamps, t, j, w)
    ensures forall t, j, u, k :: Owns(stamps, t, j, w) && Owns(stamps, u, k, w) ==> t == u && j == k
  {
    hide Elements, TotalElements, WindowStart, WindowEnd;
    var t, j := OwnerOf(stamps, w);
    assert Owns(stamps, t, j, w);
    forall t, j, u, k | Owns(stamps, t, j, w) && Owns(stamps, u, k, w) ensures t == u && j == k {
      WindowsDisjoint(stamps, t, j, u, k);
      WindowsDisjoint(stamps, u, k, t, j);
    }
  }

  lemma {:induction false} OwnerOf(stamps: seq<TriggerData>, w: nat) returns (t: nat, j: nat)
    requires w < TotalElements(stamps)
    ensures Owns(stamps, t, j, w)
  {
    var n := |stamps| - 1;
    if w < TotalElements(stamps[..n]) {
      t, j := OwnerOf(stamps[..n], w);
      assert stamps[..n][..t] == stamps[..t];
    } else {
      t, j := n, GateOf(stamps[n].gates, w - TotalElements(stamps[..n]));
    }
  }

  function GateOf(gates: seq<GateData>, w: nat): (j: nat)
    requires w < Elements(gates)
    ensures j < |gates| && Elements(gates[..j]) <= w < Elements(gates[..j]) + gates[j].elementCount
  {
    var n := |gates| - 1;
    if w < Elements(gates[..n]) then
      var j := GateOf(gates[..n], w);
      assert gates[..n][..j] == gates[..j];
      j
    else n
  }

  /** A gate that reads inside its window depends on no other word. */
  lemma {:induction false} SamplesAreItsOwn(words: seq<Word>, at: nat, g: GateData, k: nat)
    requires at + g.elementCount <= |words| && InWindow(g) && k <= Count(g)
    ensures Samples(words, at, g, k) == Samples(words[at..at + g.elementCount], 0, g, k)
  {
    hide Count, Sample;
    if k == 0 {
    } else {
      SamplesAreItsOwn(words, at, g, k - 1);
      HalvesAscend(g.startPos + k - 1, g.startPos + Count(g) - 1);
    }
  }

  // ----- what a record holds

  lemma {:induction false} GatesAreReadable(words: seq<Word>, base: nat, gates: seq<GateData>)
    requires base + Elements(gates) <= |words| && AllInWindow(gates)
    ensures Readable(words, base, gates)
  {
    hide Count;
    if gates == [] {
    } else {
      GatesAreReadable(words, base, gates[..|gates| - 1]);
      assert InWindow(gates[|gates| - 1]);
    }
  }

  /**
    What the reader acquires for a sound stretch, the encoder can read: the words are the gates'
    windows, and the running offset stays inside them for every trigger.
   */
  lemma AcquiredIsReadable(s: seq<Word>, words: seq<Word>)
    requires Whole(|s|) && StretchSound(s) && |s| <= TWO32
    requires |words| == U64(FetchTotal(s))
    ensures |words| == TotalElements(Parse(s))
    ensures forall t :: 0 <= t < |Parse(s)| ==> Readable(words, TotalElements(Parse(s)[..t]), Parse(s)[t].gates)
  {
    hide Parse, FetchTotal, CountsFit, StretchSound, TotalElements, Elements, InWindow, Readable, Whole;
    SoundStretch(s);
    FetchDoesNotWrap(s);
    var stamps := Parse(s);
    assert stamps[..|stamps|] == stamps;
    forall t | 0 <= t < |stamps| ensures Readable(words, TotalElements(stamps[..t]), stamps[t].gates) {
      TotalsAscend(stamps, t, |stamps|);
      GatesAreReadable(words, TotalElements(stamps[..t]), stamps[t].gates);
    }
  }

  /** The count of words to fetch for a sound stretch does not wrap. */
  lemma FetchDoesNotWrap(s: seq<Word>)
    requires Whole(|s|) && StretchSound(s) && |s| <= TWO32
    ensures U64(FetchTotal(s)) == FetchTotal(s) == TotalElements(Parse(s))
  {
    hide Parse, FetchTotal, CountsFit, StretchSound, TotalElements, Whole;
    SoundStretch(s);
    FetchIsElements(s);
    SmallFetch(FetchTotal(s));
  }

  lemma SmallFetch(n: nat)
    ensures n < TWO64 ==> U64(n) == n
  {
  }

  /** Whatever stretch is walked next, its gates are sound, and less than 2^32 words of markers are left. */
  ghost predicate SoundAhead(s: seq<Word>, a: nat) {
    && a <= |s| <= a + TWO32
    && forall p :: a <= p <= |s| && Whole(p - a) ==> StretchSound(s[a..p])
  }

  lemma SoundUpTo(s: seq<Word>, a: nat, p: nat)
    requires SoundAhead(s, a) && a <= p <= |s| && Whole(p - a)
    ensures Whole(|s[a..p]|) && StretchSound(s[a..p]) && |s[a..p]| <= TWO32
  {
  }

  /** The words of gate `j` of trigger `t`, in the samples stream from `from`. */
  ghost predicate ReadsItsOwn(samples: seq<Word>, from: nat, words: seq<Word>, stamps: seq<TriggerData>, t: nat, j: nat)
    requires t < |stamps| && j < |stamps[t].gates|
  {
    && WindowEnd(stamps, t, j) <= |words| && from + WindowEnd(stamps, t, j) <= |samples|
    && var g := stamps[t].gates[j];
       Samples(words, WindowStart(stamps, t, j), g, Count(g))
       == Samples(samples[from + WindowStart(stamps, t, j)..from + WindowEnd(stamps, t, j)], 0, g, Count(g))
  }

  lemma GateReadsItsOwn(s: seq<Word>, samples: seq<Word>, from: nat, words: seq<Word>, t: nat, j: nat)
    requires Whole(|s|) && StretchSound(s) && |words| == TotalElements(Parse(s))
    requires t < |Parse(s)| && j < |Parse(s)[t].gates|
    requires from + |words| <= |samples| && words == samples[from..from + |words|]
    ensures ReadsItsOwn(samples, from, words, Parse(s), t, j)
  {
    hide Parse, StretchSound, TotalElements, InWindow, Whole, Count, Samples, FetchTotal, CountsFit, WindowStart;
    SoundStretch(s);
    var stamps := Parse(s);
    WindowsDisjoint(stamps, t, j, t, j);
    var g, at := stamps[t].gates[j], WindowStart(stamps, t, j);
    assert AllInWindow(stamps[t].gates);
    SamplesAreItsOwn(words, at, g, Count(g));
    SliceOfSlice(samples, from, words, at, WindowEnd(stamps, t, j));
  }

  lemma SliceOfSlice(s: seq<Word>, from: nat, part: seq<Word>, lo: nat, hi: nat)
    requires from + |part| <= |s| && part == s[from..from + |part|] && lo <= hi <= |part|
    ensures part[lo..hi] == s[from + lo..from + hi]
  {
    forall i | 0 <= i < hi - lo ensures part[lo..hi][i] == s[from + lo..from + hi][i] {
      assert part[lo + i] == s[from..from + |part|][lo + i];
    }
  }

  /**
    A record acquired and encoded. With the replies in step, each gate's samples come from its own
    slice of the samples stream, at its running offset from where the stream stood.
   */
  method AcquireAndEncode(context: Context, n: nat, timeoutMs: nat, offsetBins: nat, startScanIndex: nat)
    returns (r: Result<AcquiredData>, results: seq<EncodedResult>, ghost replies: seq<Reply>)
    requires context.Valid() && context.Noting() && n <= context.maxTriggers
    requires SoundAhead(context.digitizer.markers, context.Walked())
    modifies context, context.markersBuffer, context.markersBuffer.data, context.digitizer
    ensures context.Valid() && context.Noting()
    ensures r.Ok? ==>
              && EndsWalk(context.digitizer.markers, old(context.Walked()), context.Walked(), n)
              && var stamps := Parse(context.digitizer.markers[old(context.Walked())..context.Walked()]);
                 && r.value.stamps == stamps && r.value.samplesBuffer.Valid()
                 && Reported(results, r.value.samplesBuffer.Unread(), stamps, offsetBins, startScanIndex, n)
                 && |r.value.samplesBuffer.Unread()| == TotalElements(stamps)
                 && context.digitizer.samplesRead == old(context.digitizer.samplesRead) + TotalElements(stamps)
                 && (InStep(replies) ==>
                       r.value.samplesBuffer.Unread()
                       == context.digitizer.samples[old(context.digitizer.samplesRead)..context.digitizer.samplesRead])
                 && (InStep(replies) ==>
                       forall t, j :: 0 <= t < n && 0 <= j < |stamps[t].gates| ==>
                         ReadsItsOwn(context.digitizer.samples, old(context.digitizer.samplesRead),
                                     r.value.samplesBuffer.Unread(), stamps, t, j))
  {
    hide Parse, FetchTotal, StretchSound, TotalElements, Readable, Reported, Clean, KindOf, InStep, Whole, U64,
         IsLatest, SoundAhead, FirstIsLater, Timestamps, ReadsItsOwn, Context.Noting, Context.InFrame, Context.Explains;
    ghost var a, from := context.Walked(), context.digitizer.samplesRead;
    results := [];
    r, replies := context.Acquire(n, timeoutMs);
    if r.Ok? {
      ghost var s, words := context.digitizer.markers[a..context.Walked()], r.value.samplesBuffer.Unread();
      SoundUpTo(context.digitizer.markers, a, context.Walked());
      AcquiredIsReadable(s, words);
      results := Process(r.value.stamps, r.value.samplesBuffer, offsetBins, startScanIndex);
      if InStep(replies) {
        forall t, j | 0 <= t < n && 0 <= j < |Parse(s)[t].gates|
          ensures ReadsItsOwn(context.digitizer.samples, from, words, Parse(s), t, j)
        {
          GateReadsItsOwn(s, context.digitizer.samples, from, words, t, j);
        }
      }
    }
  }
}
