/** `AcquirePublisher`: the loop that acquires one frame and publishes it record by record. */
module AcquirePublisher {
  import opened MachineWords
  import opened MarkerStream
  import opened AcquisitionBuffer
  import opened CstZs1Context

  datatype State = Acquiring | Stopped | Errored | Unknown

  /** A failed frame, one whose data cannot be trusted, and the end of every frame. */
  datatype Status = Error | ErrorData | Finished

  datatype AcquisitionRecord = AcquisitionRecord(data: AcquiredData, startScanIndex: nat)

  /** Scans in a list of records. */
  function ScanCount(records: seq<AcquisitionRecord>): nat {
    if records == [] then 0 else ScanCount(records[..|records| - 1]) + |records[|records| - 1].data.stamps|
  }

  /** All triggers of a list of records, in order. */
  function AllStamps(records: seq<AcquisitionRecord>): (ts: seq<TriggerData>)
    ensures |ts| == ScanCount(records)
  {
    if records == [] then [] else AllStamps(records[..|records| - 1]) + records[|records| - 1].data.stamps
  }

  /** Every record starts at the scan after the last one of the record before. */
  predicate Tiles(records: seq<AcquisitionRecord>) {
    forall k :: 0 <= k < |records| ==> records[k].startScanIndex == ScanCount(records[..k])
  }

  /** The records are the one-pass parse of the stream from `a` to `p`, where a trigger is unless nothing was read. */
  ghost predicate ParsedFrom(s: seq<Word>, a: nat, p: nat, records: seq<AcquisitionRecord>) {
    && a <= p <= |s| && Whole(p - a)
    && AllStamps(records) == Parse(s[a..p]) && Clean(s[a..p])
    && (p > a ==> TriggerAt(s, p))
  }

  lemma NothingParsed(s: seq<Word>, a: nat)
    requires a <= |s|
    ensures ParsedFrom(s, a, a, [])
  {
    assert s[a..a] == [];
  }

  /** A record that begins where the last one ended extends the parse, and changes none of it. */
  lemma ParseExtends(s: seq<Word>, a: nat, p: nat, q: nat, records: seq<AcquisitionRecord>, r: AcquisitionRecord)
    requires ParsedFrom(s, a, p, records) && EndsWalk(s, p, q, |r.data.stamps|)
    requires r.data.stamps == Parse(s[p..q])
    ensures ParsedFrom(s, a, q, records + [r])
    ensures ScanCount(records + [r]) == ScanCount(records) + |r.data.stamps|
  {
    hide Parse, Clean, TriggerAt, Whole;
    assert (records + [r])[..|records + [r]| - 1] == records;
    if p == a {
      assert s[a..a] == [];
      EmptyParse();
      assert AllStamps(records) == [];
      assert AllStamps(records) + r.data.stamps == r.data.stamps;
    } else {
      ParseSplitsAtTrigger(s, a, p, q);
    }
  }

  /**
    A frame is decided by the stream and the number of its scans: two runs from the same place,
    with any driver, any chunking and any segment size, publish the same triggers and gates.
   */
  lemma FrameIsDetermined(s: seq<Word>, a: nat, p: nat, q: nat,
                          records: seq<AcquisitionRecord>, others: seq<AcquisitionRecord>)
    requires ParsedFrom(s, a, p, records) && ParsedFrom(s, a, q, others)
    requires ScanCount(records) == ScanCount(others)
    ensures AllStamps(records) == AllStamps(others)
  {
    hide Parse, Clean, TriggerAt, AllStamps, ScanCount, Whole;
    EmptyParse();
    assert s[a..a] == [];
    if ScanCount(records) > 0 {
      WalkEndIsUnique(s, a, p, q, ScanCount(records));
    }
  }

  /** As many samples as the stretch from `a` to `p` needs have been fetched, if that is a 64-bit count. */
  ghost predicate InStepWith(s: seq<Word>, a: nat, p: nat, fetched: int) {
    && a <= p <= |s| && Whole(p - a)
    && (FetchTotal(s[a..p]) < TWO64 ==> fetched == FetchTotal(s[a..p]))
  }

  lemma NothingFetched(s: seq<Word>, a: nat)
    requires a <= |s|
    ensures InStepWith(s, a, a, 0)
  {
    assert s[a..a] == [];
  }

  lemma StaysInStep(s: seq<Word>, a: nat, p: nat, q: nat, records: seq<AcquisitionRecord>, fetched: int, n: nat)
    requires ParsedFrom(s, a, p, records) && InStepWith(s, a, p, fetched) && EndsWalk(s, p, q, n)
    ensures InStepWith(s, a, q, fetched + U64(FetchTotal(s[p..q])))
  {
    hide Parse, Clean, TriggerAt, FetchTotal, AllStamps;
    WholeSum(p - a, q - p);
    if p == a {
      assert s[a..a] == [];
      EmptyParse();
    } else {
      FetchSplitsAtTrigger(s, a, p, q);
    }
  }

  /** Over a frame whose counts fit, the samples fetched are the element counts of all its gates. */
  lemma FrameElements(s: seq<Word>, a: nat, p: nat, records: seq<AcquisitionRecord>, fetched: int)
    requires ParsedFrom(s, a, p, records) && InStepWith(s, a, p, fetched)
    requires CountsFit(s[a..p]) && TotalElements(AllStamps(records)) < TWO64
    ensures fetched == TotalElements(AllStamps(records))
  {
    FetchIsElements(s[a..p]);
  }

  lemma TilesPush(records: seq<AcquisitionRecord>, r: AcquisitionRecord)
    requires Tiles(records) && r.startScanIndex == ScanCount(records)
    ensures Tiles(records + [r])
  {
    var more := records + [r];
    forall k | 0 <= k < |more| ensures more[k].startScanIndex == ScanCount(more[..k]) {
      assert more[..k] == records[..k];
    }
  }

  /** Scan numbers are covered one after the other: number `n` is scan `n - start` of exactly one record. */
  lemma {:induction false} EveryScanOnce(records: seq<AcquisitionRecord>, n: nat)
    requires Tiles(records) && n < ScanCount(records)
    ensures exists k :: Covers(records, k, n)
    ensures forall k, l :: Covers(records, k, n) && Covers(records, l, n) ==> k == l
  {
    var m := |records| - 1;
    assert Tiles(records[..m]) by {
      forall k | 0 <= k < m ensures records[..m][k].startScanIndex == ScanCount(records[..m][..k]) {
        assert records[..m][..k] == records[..k];
      }
    }
    if n < ScanCount(records[..m]) {
      EveryScanOnce(records[..m], n);
      var k :| Covers(records[..m], k, n);
      assert Covers(records, k, n);
      forall l | Covers(records, l, n) ensures l == k {
        assert l != m;
        assert Covers(records[..m], l, n);
      }
    } else {
      assert Covers(records, m, n);
      forall l | Covers(records, l, n) ensures l == m {
        EndsBefore(records, l, m);
      }
    }
  }

  predicate Covers(records: seq<AcquisitionRecord>, k: int, n: nat) {
    0 <= k < |records| && records[k].startScanIndex <= n < records[k].startScanIndex + |records[k].data.stamps|
  }

  lemma {:induction false} CountsAscend(records: seq<AcquisitionRecord>, i: nat, j: nat)
    requires i <= j <= |records|
    ensures ScanCount(records[..i]) <= ScanCount(records[..j])
    decreases j - i
  {
    if i == j {
    } else {
      CountsAscend(records, i, j - 1);
      assert records[..j][..j - 1] == records[..j - 1];
    }
  }

  lemma EndsBefore(records: seq<AcquisitionRecord>, l: nat, m: nat)
    requires l < |records| && m < |records|
    ensures l < m ==> ScanCount(records[..l]) + |records[l].data.stamps| <= ScanCount(records[..m])
  {
    if l < m {
      CountsAscend(records, l + 1, m);
      assert records[..l + 1][..l] == records[..l];
    }
  }

  /** The scan after those before record `k`. */
  function ScansBefore(k: nat, segmentSize: nat): nat {
    k * segmentSize
  }

  /** Record `k` starts at scan `k * segmentSize` and holds that many scans, or what is left of the frame. */
  predicate Segmented(records: seq<AcquisitionRecord>, frameLength: nat, segmentSize: nat) {
    forall k :: 0 <= k < |records| ==>
      && records[k].startScanIndex == ScansBefore(k, segmentSize) < frameLength
      && |records[k].data.stamps| == if frameLength - records[k].startScanIndex < segmentSize
                                     then frameLength - records[k].startScanIndex else segmentSize
  }

  /** While the frame is not full, so is every record, and the next one starts after them all. */
  lemma SegmentedPush(records: seq<AcquisitionRecord>, r: AcquisitionRecord, frameLength: nat, segmentSize: nat)
    requires Segmented(records, frameLength, segmentSize) && Tiles(records) && segmentSize > 0
    requires r.startScanIndex == ScanCount(records) < frameLength
    requires |r.data.stamps| == if frameLength - r.startScanIndex < segmentSize
                                then frameLength - r.startScanIndex else segmentSize
    ensures Segmented(records + [r], frameLength, segmentSize)
  {
    FullRecords(records, frameLength, segmentSize);
  }

  lemma FullRecords(records: seq<AcquisitionRecord>, frameLength: nat, segmentSize: nat)
    requires Segmented(records, frameLength, segmentSize) && Tiles(records)
    requires segmentSize > 0 && ScanCount(records) < frameLength
    ensures ScanCount(records) == ScansBefore(|records|, segmentSize)
  {
    hide ScansBefore;
    if records == [] {
      NoScansBefore(segmentSize);
    } else {
      var k := |records| - 1;
      assert records[k].startScanIndex == ScanCount(records[..k]);
      OneMoreSegment(k, segmentSize);
    }
  }

  lemma NoScansBefore(segmentSize: nat)
    ensures ScansBefore(0, segmentSize) == 0
  {
  }

  lemma OneMoreSegment(k: nat, segmentSize: nat)
    ensures ScansBefore(k + 1, segmentSize) == ScansBefore(k, segmentSize) + segmentSize
  {
  }

  /**
    What the segment size does to a frame: every record but the last is full, the last is not
    empty, and a whole frame takes as many records as its length divided by the size, rounded up.
   */
  lemma RecordsOfFrame(records: seq<AcquisitionRecord>, frameLength: nat, segmentSize: nat)
    requires Segmented(records, frameLength, segmentSize) && Tiles(records)
    requires segmentSize > 0 && ScanCount(records) <= frameLength
    ensures forall k :: 0 <= k < |records| - 1 ==> |records[k].data.stamps| == segmentSize
    ensures records != [] ==> 1 <= |records[|records| - 1].data.stamps| <= segmentSize
    ensures ScanCount(records) == frameLength ==> |records| == (frameLength + segmentSize - 1) / segmentSize
  {
    forall k | 0 <= k < |records| - 1 ensures |records[k].data.stamps| == segmentSize {
      EndsBefore(records, k, k + 1);
      assert records[k + 1].startScanIndex == ScanCount(records[..k + 1]);
      assert records[..k + 1][..k] == records[..k];
      assert records[k].startScanIndex == ScanCount(records[..k]);
      CountsAscend(records, k + 2, |records|);
      assert records[..k + 2][..k + 1] == records[..k + 1];
      assert records[..|records|] == records;
    }
    if ScanCount(records) == frameLength {
      if records == [] {
        RoundedUp(0, frameLength, segmentSize);
      } else {
        var k := |records| - 1;
        assert records[k].startScanIndex == ScanCount(records[..k]);
        RoundedUp(k, frameLength, segmentSize);
      }
    }
  }

  lemma RoundedUp(k: nat, n: nat, size: nat)
    requires size > 0
    ensures n == 0 ==> (n + size - 1) / size == 0
    ensures k * size < n <= k * size + size ==> (n + size - 1) / size == k + 1
  {
    if n == 0 {
      QuotientAndRemainder(size - 1, size, 0, size - 1);
    } else if k * size < n <= k * size + size {
      assert (k + 1) * size == k * size + size;
      QuotientAndRemainder(n + size - 1, size, k + 1, n - 1 - k * size);
    }
  }

  /** The samples of the stretch from `p` to `q` are more than a signed 64-bit count can say. */
  ghost predicate TooMuchToFetch(s: seq<Word>, p: nat, q: nat) {
    p <= q <= |s| && Whole(q - p) && U64(FetchTotal(s[p..q])) >= TWO63
  }

  class Publisher {
    const context: Context
    const segmentSize: nat
    const timeout: nat  // in milliseconds; 0 is none
    var state: State
    var published: seq<AcquisitionRecord>
    var statuses: seq<Status>

    constructor (context: Context, segmentSize: nat, timeout: nat)
      ensures this.context == context && this.segmentSize == segmentSize && this.timeout == timeout
      ensures published == [] && statuses == []
    {
      this.context, this.segmentSize, this.timeout := context, segmentSize, timeout;
      state, published, statuses := Unknown, [], [];
    }

    /** What has been published of a frame that began at `a`, `before` and `messages`; it reaches to `p`. */
    ghost predicate FrameSoFar(frameLength: nat, acquired: nat, errored: bool, records: seq<AcquisitionRecord>,
                               before: seq<AcquisitionRecord>, messages: seq<Status>, noted: seq<nat>, a: nat, p: nat)
      reads this, context, context.digitizer, context.markersBuffer, context.markersBuffer.data
    {
      && context.Valid() && context.Noting() && context.InFrame()
      && context.frameNoted == |noted| && noted <= context.noted
      && published == before + records && Tiles(records) && acquired == ScanCount(records) <= frameLength
      && Segmented(records, frameLength, segmentSize)
      && ParsedFrom(context.digitizer.markers, a, p, records) && (!errored ==> context.Walked() == p)
      && statuses == messages + (if errored then [if context.damaged then ErrorData else Error] else [])
      && (context.damaged ==> errored) && (errored ==> acquired < frameLength)
      && (!errored ==>
            InStepWith(context.digitizer.markers, a, p, context.digitizer.samplesRead - context.frameSamples))
    }

    /** One turn of the loop: a record more, or the frame's one error. */
    method AcquireRecord(frameLength: nat, acquired0: nat, ghost records0: seq<AcquisitionRecord>,
                         ghost before: seq<AcquisitionRecord>, ghost messages: seq<Status>,
                         ghost noted: seq<nat>, ghost a: nat, ghost p0: nat)
      returns (acquired: nat, errored: bool, ghost records: seq<AcquisitionRecord>, ghost p: nat)
      requires FrameSoFar(frameLength, acquired0, false, records0, before, messages, noted, a, p0)
      requires acquired0 < frameLength && 1 <= segmentSize <= context.maxTriggers
      modifies this, context, context.markersBuffer, context.markersBuffer.data, context.digitizer
      ensures FrameSoFar(frameLength, acquired, errored, records, before, messages, noted, a, p)
      ensures context.frameSamples == old(context.frameSamples) && state == old(state)
      ensures if errored then acquired == acquired0 && records == records0
              else acquired0 < acquired && |records| == |records0| + 1
      // it fails for a reason, and always when the markers come too late
      ensures (timeout > 0 && context.digitizer.markersAt > old(context.digitizer.now) + timeout) ==> errored
      ensures errored ==>
                || context.damaged || context.digitizer.refused > old(context.digitizer.refused)
                || (timeout > 0 && context.digitizer.markersAt > old(context.digitizer.now) + timeout)
                || context.Explains(Failed(DummyGate)) || context.Explains(Failed(UnexpectedHeader))
                || TooMuchToFetch(context.digitizer.markers, p0, context.Walked())
    {
      hide FirstIsLater, IsLatest, Parse, Clean, TriggerAt, KindOf, EndsWalk, ParsedFrom, InStepWith, Tiles,
           Segmented, ScanCount, AllStamps, Whole, Timestamps, FetchTotal, U64, InStep,
           Context.Valid, Context.Noting, Context.InFrame, Context.Explains;
      acquired, errored, records, p := acquired0, false, records0, p0;
      var toAcquireCount := if frameLength - acquired < segmentSize then frameLength - acquired else segmentSize;
      var data, replies := context.Acquire(toAcquireCount, timeout);
      match data
      case Ok(value) =>
        var record := AcquisitionRecord(value, acquired);
        WalkedCount(context.digitizer.markers, p, context.Walked(), toAcquireCount);
        ParseExtends(context.digitizer.markers, a, p, context.Walked(), records, record);
        TilesPush(records, record);
        SegmentedPush(records, record, frameLength, segmentSize);
        StaysInStep(context.digitizer.markers, a, p, context.Walked(), records,
                    old(context.digitizer.samplesRead) - context.frameSamples, toAcquireCount);
        assert published + [record] == before + (records + [record]);
        published := published + [record];
        records, p := records + [record], context.Walked();
        acquired := acquired + |value.stamps|;
      case Err(error) =>
        statuses := statuses + [if error.MarkersReplayed? then ErrorData else Error];
        errored := true;
    }

    /** The loop over one frame, from a context just started. */
    method AcquireRecords(frameLength: nat, asked: nat -> bool)
      returns (acquired: nat, errored: bool, stopSeen: bool, ghost records: seq<AcquisitionRecord>, ghost p: nat)
      requires context.Valid()
      requires FrameSoFar(frameLength, 0, false, [], published, statuses, context.noted,
                          context.Walked(), context.Walked())
      requires 1 <= segmentSize <= context.maxTriggers && state == Acquiring
      modifies this, context, context.markersBuffer, context.markersBuffer.data, context.digitizer
      ensures FrameSoFar(frameLength, acquired, errored, records, old(published), old(statuses), old(context.noted),
                         old(context.Walked()), p)
      ensures context.frameSamples == old(context.frameSamples)
      ensures acquired < frameLength <==> errored || stopSeen
      ensures forall k :: 0 <= k < |records| ==> !asked(k)
      ensures (stopSeen ==> asked(|records|) && !errored) && (errored ==> !asked(|records|))
      ensures context.digitizer.samplesRead > context.frameSamples ==> FirstIsLater(context.noted, context.frameNoted)
    {
      hide FirstIsLater, IsLatest, ParsedFrom, InStepWith, Tiles, Segmented, ScanCount, Whole;
      acquired, errored, stopSeen, records, p := 0, false, false, [], context.Walked();
      var turn: nat := 0;
      ghost var a, noted := p, context.noted;
      while acquired < frameLength
        invariant FrameSoFar(frameLength, acquired, errored, records, old(published), old(statuses), noted, a, p)
        invariant turn == |records| + (if errored then 1 else 0) && forall k :: 0 <= k < turn ==> !asked(k)
        invariant context.frameSamples == old(context.frameSamples) && !stopSeen && state == Acquiring
        decreases frameLength - acquired, !errored
      {
        if errored || asked(turn) {
          stopSeen := !errored;
          break;
        }
        acquired, errored, records, p :=
          AcquireRecord(frameLength, acquired, records, old(published), old(statuses), noted, a, p);
        turn := turn + 1;
      }
    }

    /** The context is started and nothing of the frame is published yet. */
    method Begin(frameLength: nat)
      requires context.Valid() && context.Noting()
      modifies context
      ensures context.Valid() && context.noted == old(context.noted) && context.Walked() == old(context.Walked())
      ensures FrameSoFar(frameLength, 0, false, [], published, statuses, context.noted,
                         context.Walked(), context.Walked())
      ensures context.frameSamples == context.digitizer.samplesRead
    {
      hide FirstIsLater, IsLatest, ParsedFrom, InStepWith, Tiles, Segmented, ScanCount, Whole;
      NothingTiles(frameLength, segmentSize);
      NothingParsed(context.digitizer.markers, context.Walked());
      NothingFetched(context.digitizer.markers, context.Walked());
      context.Start();
    }

    method Finish()
      requires context.Valid()
      modifies this`state, this`statuses, context.markersBuffer
      ensures context.Valid() && state == Stopped && statuses == old(statuses) + [Finished]
    {
      state := Stopped;
      context.Stop();
      statuses := statuses + [Finished];
    }

    /**
      The acquisition thread, for one frame. `busy` is whether the card is already acquiring, and
      `asked` whether another thread has asked for a stop when the loop looks for the k-th time.
      `p` is how far into the marker stream the records reach.
     */
    method AcquireFrame(frameLength: nat, busy: bool, asked: nat -> bool)
      returns (acquired: nat, errored: bool, stopSeen: bool, ghost records: seq<AcquisitionRecord>, ghost p: nat)
      requires context.Valid() && context.Noting() && 1 <= segmentSize <= context.maxTriggers
      modifies this, context, context.markersBuffer, context.markersBuffer.data, context.digitizer
      ensures context.Valid() && context.Noting() && state == Stopped
      // the records of this frame: contiguous, at most the frame, and all of it unless stopped or failed
      ensures published == old(published) + records && Tiles(records) && acquired == ScanCount(records) <= frameLength
      ensures acquired < frameLength <==> (busy && frameLength > 0) || errored || stopSeen
      ensures forall k :: 0 <= k < |records| ==> !asked(k)
      ensures (stopSeen ==> asked(|records|) && !errored) && (errored ==> !asked(|records|))
      ensures Segmented(records, frameLength, segmentSize)
      ensures forall k :: 0 <= k < |records| - 1 ==> |records[k].data.stamps| == segmentSize
      ensures records != [] ==> 1 <= |records[|records| - 1].data.stamps| <= segmentSize
      ensures acquired == frameLength ==> |records| == (frameLength + segmentSize - 1) / segmentSize
      // what they hold does not depend on how the markers were chunked
      ensures busy ==> records == []
      ensures !busy ==> ParsedFrom(context.digitizer.markers, old(context.Walked()), p, records)
      ensures !busy && !errored ==>
                InStepWith(context.digitizer.markers, old(context.Walked()), p,
                           context.digitizer.samplesRead - old(context.digitizer.samplesRead))
      // one status for a failure, then one for the end
      ensures statuses == old(statuses)
                          + (if errored then [if context.damaged then ErrorData else Error] else []) + [Finished]
      // the replay guard
      ensures old(context.noted) <= context.noted
      ensures context.digitizer.samplesRead > old(context.digitizer.samplesRead) ==>
                FirstIsLater(context.noted, |old(context.noted)|)
    {
      hide FirstIsLater, IsLatest, ParsedFrom, InStepWith, Tiles, Segmented, ScanCount, Whole, Context.Noting,
           Context.InFrame;
      acquired, errored, stopSeen, records, p := 0, false, false, [], context.Walked();
      state := Acquiring;
      NothingTiles(frameLength, segmentSize);
      if !busy {
        Begin(frameLength);
        acquired, errored, stopSeen, records, p := AcquireRecords(frameLength, asked);
      }
      Finish();
      RecordsOfFrame(records, frameLength, segmentSize);
    }

    /**
      Frame after frame; `asked` is the stop flag at each look in each of them. `marks` are the number
      of triggers noted and of samples read before each frame and after the last: no frame reads a
      sample unless its first trigger is later than every trigger of all frames before it, and the
      trigger remembered is the latest of all.
     */
    method AcquireFrames(lengths: seq<nat>, asked: (nat, nat) -> bool) returns (ghost marks: seq<(nat, nat)>)
      requires context.Valid() && context.Noting() && 1 <= segmentSize <= context.maxTriggers
      modifies this, context, context.markersBuffer, context.markersBuffer.data, context.digitizer
      ensures context.Valid() && IsLatest(context.lastTrigger, context.noted)
      ensures |marks| == |lengths| + 1 && marks[|lengths|] == (|context.noted|, context.digitizer.samplesRead)
      ensures forall k :: 0 <= k < |lengths| && marks[k + 1].1 > marks[k].1 ==> FirstIsLater(context.noted, marks[k].0)
    {
      hide FirstIsLater, IsLatest, ParsedFrom, InStepWith, Tiles, Segmented, ScanCount, Whole;
      marks := [(|context.noted|, context.digitizer.samplesRead)];
      for f := 0 to |lengths|
        invariant context.Valid() && context.Noting()
        invariant |marks| == f + 1 && marks[f] == (|context.noted|, context.digitizer.samplesRead)
        invariant forall k :: 0 <= k < f && marks[k + 1].1 > marks[k].1 ==> FirstIsLater(context.noted, marks[k].0)
      {
        ghost var noted := context.noted;
        var busy: bool := *;
        var acquired, errored, stopSeen, records, p := AcquireFrame(lengths[f], busy, (k: nat) => asked(f, k));
        forall k | 0 <= k < f && marks[k + 1].1 > marks[k].1 ensures FirstIsLater(context.noted, marks[k].0) {
          LaterStays(noted, context.noted, marks[k].0);
        }
        marks := marks + [(|context.noted|, context.digitizer.samplesRead)];
      }
    }
  }

  lemma LaterStays(noted: seq<nat>, more: seq<nat>, k: nat)
    requires FirstIsLater(noted, k) && noted <= more
    ensures FirstIsLater(more, k)
  {
    assert forall i :: 0 <= i < |noted| ==> more[i] == noted[i];
  }

  lemma NothingTiles(frameLength: nat, segmentSize: nat)
    ensures Tiles([]) && ScanCount([]) == 0 && Segmented([], frameLength, segmentSize)
  {
  }

  lemma WalkedCount(s: seq<Word>, p: nat, q: nat, n: nat)
    requires EndsWalk(s, p, q, n)
    ensures p <= q <= |s| && |Parse(s[p..q])| == n
  {
  }
}
