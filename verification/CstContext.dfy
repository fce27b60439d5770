/** `CstContext`: plain streaming, where only trigger hunks count and all others are stepped over. */
module CstContext {
  import opened MachineWords
  import opened MarkerStream
  import opened AcquisitionBuffer
  import opened CstZs1Context

  const PLAIN_MULTIPLIER_MAX := 16

  /** The triggers of a stretch of the stream, whatever hunks lie between them. */
  function PlainTriggers(s: seq<Word>): seq<TriggerData>
    requires Whole(|s|)
  {
    if s == [] then []
    else
      var front, hunk := s[..|s| - HUNK], s[|s| - HUNK..];
      PlainTriggers(front)
      + if KindOf(hunk).Trigger? then [TriggerData(PlainTimestamp(hunk), AboveLow(hunk[0]), [])] else []
  }

  /** The high words of all triggers have a clear top bit, as a 56-bit clock leaves them. */
  predicate HighsClear(s: seq<Word>)
    requires Whole(|s|)
  {
    s == []
    || (HighsClear(s[..|s| - HUNK]) && (KindOf(s[|s| - HUNK..]).Trigger? ==> s[|s| - HUNK + 2] >= 0))
  }

  /** The two readers find the same triggers, and the same times exactly when every high word is clear. */
  lemma {:induction false} ReadersAgree(s: seq<Word>)
    requires Whole(|s|)
    ensures |PlainTriggers(s)| == |Parse(s)|
    ensures Timestamps(PlainTriggers(s)) == Timestamps(Parse(s)) <==> HighsClear(s)
    ensures forall t :: 0 <= t < |Parse(s)| ==> PlainTriggers(s)[t].index == Parse(s)[t].index
  {
    if s == [] {
    } else {
      hide Timestamps, Timestamp, PlainTimestamp, GatesOf, KindOf, AddGates, Whole;
      WholeLess(|s|);
      var front, hunk := s[..|s| - HUNK], s[|s| - HUNK..];
      ReadersAgree(front);
      if KindOf(hunk).Trigger? {
        TimestampsAgree(hunk);
        TimestampsPush(PlainTriggers(front), TriggerData(PlainTimestamp(hunk), AboveLow(hunk[0]), []));
        TimestampsPush(Parse(front), NewTrigger(hunk));
        SameEnds(Timestamps(PlainTriggers(front)), PlainTimestamp(hunk), Timestamps(Parse(front)), Timestamp(hunk));
      } else {
        TimestampsOfGates(Parse(front), GatesOf(hunk, 4));
        assert PlainTriggers(s) == PlainTriggers(front);
      }
    }
  }

  lemma SameEnds(a: seq<nat>, x: nat, b: seq<nat>, y: nat)
    ensures a + [x] == b + [y] <==> a == b && x == y
  {
    if a + [x] == b + [y] {
      assert |a + [x]| == |b + [y]|;
      assert (a + [x])[..|a|] == a && (b + [y])[..|b|] == b;
      assert (a + [x])[|a|] == x && (b + [y])[|b|] == y;
    }
  }

  lemma TimestampsPush(ts: seq<TriggerData>, t: TriggerData)
    ensures Timestamps(ts + [t]) == Timestamps(ts) + [t.timestamp]
  {
    assert (ts + [t])[..|ts + [t]| - 1] == ts;
  }

  lemma TimestampsOfGates(ts: seq<TriggerData>, gates: seq<GateData>)
    ensures Timestamps(AddGates(ts, gates)) == Timestamps(ts)
  {
    if ts != [] {
      var more := AddGates(ts, gates);
      assert more[..|more| - 1] == ts[..|ts| - 1];
    }
  }

  /** `ts` are the triggers from `a` to `p`. */
  ghost predicate Scanned(s: seq<Word>, a: nat, p: nat, ts: seq<TriggerData>) {
    a <= p <= |s| && Whole(p - a) && ts == PlainTriggers(s[a..p])
  }

  lemma ScanStep(s: seq<Word>, a: nat, p: nat, ts: seq<TriggerData>)
    requires Scanned(s, a, p, ts) && p + HUNK <= |s|
    ensures var hunk := s[p..p + HUNK];
            Scanned(s, a, p + HUNK,
                    ts + if KindOf(hunk).Trigger? then [TriggerData(PlainTimestamp(hunk), AboveLow(hunk[0]), [])]
                         else [])
  {
    var w := s[a..p + HUNK];
    assert w[..|w| - HUNK] == s[a..p];
    assert w[|w| - HUNK..] == s[p..p + HUNK];
    WholeSum(p - a, HUNK);
  }

  lemma ScanStarts(s: seq<Word>, a: nat)
    requires a <= |s|
    ensures Scanned(s, a, a, [])
  {
    assert s[a..a] == [];
  }

  /** What to ask for next: the base request, or as much of a backlog as the buffer can take. */
  function NextRequest(base: nat, available: nat): (request: nat)
    requires Whole(base) && base > 0
    ensures Whole(request) && base <= request <= 16 * base
    ensures available <= base ==> request == base
    ensures available > base ==> request <= available
    ensures available > base ==> request > available - 16 || request == 16 * base
  {
    var most := base * PLAIN_MULTIPLIER_MAX;
    if available > base then
      var request := if available < most then available else most;
      FloorToHunk(base, request, most);
      request - request % HUNK
    else base
  }

  lemma FloorToHunk(base: nat, request: nat, most: nat)
    requires Whole(base) && Whole(most) && base <= request <= most
    ensures Whole(request - request % HUNK) && base <= request - request % HUNK <= most
    ensures request == most ==> request - request % HUNK == most
  {
    var q := request / 16;
    assert request - request % 16 == 16 * q;
  }

  /** Two samples to a word. */
  function RecordElements(triggers: nat, samplesPerTrigger: nat): (n: nat)
    ensures 2 * n <= triggers * samplesPerTrigger <= 2 * n + 1
  {
    triggers * samplesPerTrigger / 2
  }

  /** From `start` on all calls are for markers, each the base or what the reply before it left waiting. */
  ghost predicate PlainMarkerCalls(calls: seq<Call>, start: nat, n: nat)
    requires n > 0
  {
    && start <= |calls|
    && forall i :: start <= i < |calls| ==>
         calls[i].channel.Markers? && calls[i].request == PlainRequestAt(calls, start, i, n)
  }

  function PlainRequestAt(calls: seq<Call>, start: nat, i: nat, n: nat): nat
    requires start <= i <= |calls| && n > 0
  {
    WholeMultiple(n);
    NextRequest(n * HUNK, if i == start then 0 else calls[i - 1].available)
  }

  lemma OneMorePlainCall(calls: seq<Call>, start: nat, n: nat, c: Call)
    requires n > 0 && PlainMarkerCalls(calls, start, n)
    requires c.channel.Markers? && c.request == PlainRequestAt(calls, start, |calls|, n)
    ensures PlainMarkerCalls(calls + [c], start, n)
    ensures PlainRequestAt(calls + [c], start, |calls| + 1, n) == PlainRequestOf(c.available, n)
  {
    hide NextRequest;
    var more := calls + [c];
    forall i | start <= i < |more|
      ensures more[i].channel.Markers? && more[i].request == PlainRequestAt(more, start, i, n)
    {
      assert i < |calls| ==> more[i] == calls[i];
      assert i > start ==> more[i - 1] == calls[i - 1];
    }
  }

  function PlainRequestOf(available: nat, n: nat): nat
    requires n > 0
  {
    WholeMultiple(n);
    NextRequest(n * HUNK, available)
  }

  /** From `start` on all calls ask for the whole record. */
  ghost predicate RecordCalls(calls: seq<Call>, start: nat, elements: nat) {
    start <= |calls| && forall i :: start <= i < |calls| ==> calls[i].channel.Samples? && calls[i].request == elements
  }

  lemma NoRecordCalls(calls: seq<Call>, elements: nat)
    ensures RecordCalls(calls, |calls|, elements)
  {
  }

  lemma NoPlainCallsYet(calls: seq<Call>, n: nat)
    requires n > 0
    ensures PlainMarkerCalls(calls, |calls|, n)
    ensures PlainRequestAt(calls, |calls|, |calls|, n) == PlainRequestOf(0, n)
  {
  }

  /** A record can be asked for: the driver takes only strictly positive multiples of 16. */
  predicate Askable(elements: nat) {
    elements > 0 && Whole(elements)
  }

  /** A record's samples loop goes on while its replies bring fewer words than were asked for. */
  ghost predicate AllShort(replies: seq<Reply>, elements: nat) {
    forall i :: 0 <= i < |replies| ==> replies[i].actual < elements
  }

  /** It ends at the first that brings all of them. */
  ghost predicate EndsFull(replies: seq<Reply>, elements: nat) {
    && replies != [] && replies[|replies| - 1].actual == elements
    && AllShort(replies[..|replies| - 1], elements)
  }

  /** The words of all replies but the last: each reply overwrites the one before. */
  function Lost(replies: seq<Reply>): nat {
    if replies == [] then 0 else Total(replies[..|replies| - 1])
  }

  lemma OneMoreShort(replies: seq<Reply>, r: Reply, elements: nat)
    requires AllShort(replies, elements)
    ensures Lost(replies + [r]) == Total(replies) && Total(replies + [r]) == Total(replies) + r.actual
    ensures r.actual < elements ==> AllShort(replies + [r], elements)
    ensures r.actual == elements ==> EndsFull(replies + [r], elements)
  {
    OneMoreReply(replies, r);
    assert (replies + [r])[..|replies + [r]| - 1] == replies;
  }

  lemma NothingShort(elements: nat)
    ensures AllShort([], elements) && Total([]) == Lost([]) == 0
  {
  }

  /** Nothing is lost exactly when every reply before the last was empty. */
  lemma NothingLostExactly(replies: seq<Reply>)
    ensures Lost(replies) == 0 <==> forall i :: 0 <= i < |replies| - 1 ==> replies[i].actual == 0
  {
    if replies == [] {
      return;
    }
    var earlier := replies[..|replies| - 1];
    if Total(earlier) > 0 {
      SomeReplyHasWords(earlier);
      var i :| 0 <= i < |earlier| && earlier[i].actual > 0;
      assert replies[i].actual > 0;
    } else {
      forall i | 0 <= i < |earlier| ensures replies[i].actual == 0 {
        ReplyIsCounted(earlier, i);
      }
    }
  }

  lemma {:induction false} ReplyIsCounted(replies: seq<Reply>, i: nat)
    requires i < |replies|
    ensures replies[i].actual <= Total(replies)
  {
    if i == |replies| - 1 {
    } else {
      ReplyIsCounted(replies[..|replies| - 1], i);
    }
  }

  /**
    One short reply: of a record of 32 words the first 16 come alone, and the record made of the
    next reply starts 16 words late.
   */
  lemma ShortReplyLosesWords()
    ensures var samples: seq<Word> := seq(48, i => i);
            var replies := [Reply(0, 16), Reply(0, 32)];
            && Askable(32) && EndsFull(replies, 32) && Lost(replies) == 16
            && samples[Lost(replies)..Lost(replies) + 32] != samples[..32]
  {
    var samples: seq<Word> := seq(48, i => i);
    var replies := [Reply(0, 16), Reply(0, 32)];
    assert replies[..|replies| - 1] == [] + [Reply(0, 16)];
    NoReplies();
    OneMoreReply([], Reply(0, 16));
    assert samples[16..48][0] == 16 && samples[..32][0] == 0;
  }

  class Context {
    const digitizer: Digitizer
    const maxTriggers: nat
    const samplesPerTrigger: nat

    constructor (digitizer: Digitizer, maxTriggers: nat, samplesPerTrigger: nat)
      ensures this.digitizer == digitizer
    {
      this.digitizer, this.maxTriggers, this.samplesPerTrigger := digitizer, maxTriggers, samplesPerTrigger;
    }

    /** One reply's hunks, until enough triggers are found; the rest of the reply is dropped. */
    method Scan(n: nat, words: seq<Word>, ghost s: seq<Word>, ghost a: nat, ghost p0: nat, stamps0: seq<TriggerData>)
      returns (stamps: seq<TriggerData>, ghost p: nat)
      requires Scanned(s, a, p0, stamps0) && |stamps0| < n
      requires Whole(|words|) && p0 + |words| <= |s| && words == s[p0..p0 + |words|]
      ensures Scanned(s, a, p, stamps) && p <= p0 + |words| && |stamps| <= n
      ensures if |stamps| < n then p == p0 + |words| else p >= a + HUNK && TriggerAt(s, p - HUNK)
    {
      hide Scanned, KindOf, PlainTimestamp;
      stamps, p := stamps0, p0;
      var hunk := 0;
      while hunk < |words| / HUNK
        invariant 0 <= hunk <= |words| / HUNK && p == p0 + hunk * HUNK
        invariant Scanned(s, a, p, stamps) && |stamps| < n
      {
        var seg := words[hunk * HUNK..hunk * HUNK + HUNK];
        assert seg == s[p..p + HUNK];
        ScanStep(s, a, p, stamps);
        ScannedIsAfter(s, a, p, stamps);
        p := p + HUNK;
        hunk := hunk + 1;
        if !KindOf(seg).Trigger? {
          assert stamps + [] == stamps;
          continue;
        }
        stamps := stamps + [TriggerData(PlainTimestamp(seg), AboveLow(seg[0]), [])];
        if |stamps| >= n {
          return;
        }
      }
    }

    /** The markers loop: the first `n` triggers that come, in however many replies. */
    method CollectTriggers(n: nat, limit: Limit)
      returns (error: Error, ok: bool, stamps: seq<TriggerData>, ghost p: nat)
      requires digitizer.Valid()
      requires !limit.Passed(digitizer.markersAt)
      modifies digitizer
      ensures digitizer.Valid() && digitizer.samplesRead == old(digitizer.samplesRead)
      ensures ok ==> |stamps| == n && Scanned(digitizer.markers, old(digitizer.markersRead), p, stamps)
      ensures ok ==> p <= digitizer.markersRead
      ensures ok && n > 0 ==> p >= old(digitizer.markersRead) + HUNK && TriggerAt(digitizer.markers, p - HUNK)
      ensures |old(digitizer.calls)| <= |digitizer.calls|
      ensures n > 0 ==> PlainMarkerCalls(digitizer.calls, |old(digitizer.calls)|, n)
      ensures n == 0 ==> digitizer.calls == old(digitizer.calls)
      ensures digitizer.samplesAt == old(digitizer.samplesAt)
      ensures !ok ==> n > 0 && error in {DriverError, Timeout}
      ensures !ok && error == Timeout <==> limit.Passed(digitizer.markersAt)
      ensures digitizer.refused == old(digitizer.refused) + if !ok && error == DriverError then 1 else 0
    {
      hide Scanned, TriggerAt, Whole, PlainMarkerCalls, PlainRequestAt;
      error, ok := DriverError, false;
      var base := n * HUNK;
      var markersBuffer := new Word[base * PLAIN_MULTIPLIER_MAX + 15](_ => 0);
      var available: nat := 0;
      ghost var s, a := digitizer.markers, digitizer.markersRead;
      stamps, p := [], a;
      ScanStarts(s, a);
      WholeMultiple(n);
      ghost var firstCall := |digitizer.calls|;
      if n > 0 {
        NoPlainCallsYet(digitizer.calls, n);
      }
      while |stamps| < n
        invariant digitizer.Valid() && digitizer.samplesRead == old(digitizer.samplesRead)
        invariant digitizer.refused == old(digitizer.refused) && digitizer.samplesAt == old(digitizer.samplesAt)
        invariant !limit.Passed(digitizer.markersAt)
        invariant firstCall <= |digitizer.calls| && (n == 0 ==> digitizer.calls == old(digitizer.calls))
        invariant n > 0 ==>
                    && PlainMarkerCalls(digitizer.calls, firstCall, n)
                    && PlainRequestAt(digitizer.calls, firstCall, |digitizer.calls|, n) == PlainRequestOf(available, n)
        invariant Scanned(s, a, p, stamps) && |stamps| <= n && p <= digitizer.markersRead
        invariant if |stamps| < n then p == digitizer.markersRead else n > 0 ==> p >= a + HUNK && TriggerAt(s, p - HUNK)
        decreases digitizer.replies
      {
        var request := NextRequest(base, available);
        ghost var calls := digitizer.calls;
        var answered, actual, first;
        answered, available, actual, first :=
          digitizer.StreamFetchData(Markers, request, markersBuffer.Length, markersBuffer, 0);
        if !answered {
          assert digitizer.calls == calls;
          return;
        }
        OneMorePlainCall(calls, firstCall, n, Call(Markers, request, available, actual));
        stamps, p := Scan(n, markersBuffer[first..first + actual], s, a, p, stamps);
        if limit.Passed(digitizer.now) {
          error := Timeout;
          return;
        }
      }
      ok := true;
    }

    /**
      The samples loop asks for everything each time and into the same place, so the words of a
      short reply are overwritten by the next.
     */
    method FetchRecord(samplesBuffer: Buffer, elements: nat, limit: Limit)
      returns (error: Error, ok: bool, ghost replies: seq<Reply>)
      requires digitizer.Valid() && samplesBuffer.Valid()
      requires samplesBuffer.acquiredIndex == samplesBuffer.processedIndex == samplesBuffer.offset == 0
      requires !limit.Passed(digitizer.samplesAt)
      modifies samplesBuffer, samplesBuffer.data, digitizer
      ensures digitizer.Valid() && samplesBuffer.Valid() && digitizer.markersRead == old(digitizer.markersRead)
      ensures ok ==> EndsFull(replies, elements) && |samplesBuffer.Unread()| == elements
      ensures ok ==> digitizer.samplesRead == old(digitizer.samplesRead) + Lost(replies) + elements
      ensures ok ==>
                samplesBuffer.Unread() == digitizer.samples[digitizer.samplesRead - elements..digitizer.samplesRead]
      ensures !ok && error == Misaligned <==> !Askable(elements)
      ensures !Askable(elements) ==> digitizer.samplesRead == old(digitizer.samplesRead)
      ensures RecordCalls(digitizer.calls, |old(digitizer.calls)|, elements)
      ensures |digitizer.calls| == |old(digitizer.calls)| + |replies| && old(digitizer.calls) <= digitizer.calls
      ensures digitizer.markersAt == old(digitizer.markersAt)
      ensures !ok ==> error in {Misaligned, DriverError, Timeout}
      ensures !ok && error == Timeout <==> limit.Passed(digitizer.samplesAt)
      ensures digitizer.refused == old(digitizer.refused) + if !ok && error == DriverError then 1 else 0
    {
      hide Whole, Total, Lost, AllShort, EndsFull;
      error, ok, replies := DriverError, false, [];
      if elements <= 0 || !Whole(elements) {
        error := Misaligned;
        return;
      }
      NothingShort(elements);
      var actual: nat, first: nat, asked := 0, 0, false;
      while !asked || actual < elements
        invariant digitizer.Valid() && digitizer.markersRead == old(digitizer.markersRead)
        invariant digitizer.refused == old(digitizer.refused) && digitizer.markersAt == old(digitizer.markersAt)
        invariant !limit.Passed(digitizer.samplesAt)
        invariant RecordCalls(digitizer.calls, |old(digitizer.calls)|, elements)
        invariant |digitizer.calls| == |old(digitizer.calls)| + |replies| && old(digitizer.calls) <= digitizer.calls
        invariant samplesBuffer.acquiredIndex == samplesBuffer.processedIndex == samplesBuffer.offset == 0
        invariant digitizer.samplesRead == old(digitizer.samplesRead) + Total(replies)
        invariant Total(replies) == Lost(replies) + actual
        invariant if !asked || actual < elements then AllShort(replies, elements) else EndsFull(replies, elements)
        invariant actual <= elements && first + actual <= samplesBuffer.data.Length
        invariant samplesBuffer.data[first..first + actual]
               == digitizer.samples[digitizer.samplesRead - actual..digitizer.samplesRead]
        decreases digitizer.replies, !asked
      {
        var answered, available;
        answered, available, actual, first := digitizer.StreamFetchData(Samples, elements, samplesBuffer.data.Length,
          samplesBuffer.data, samplesBuffer.RawUnacquired());
        if !answered {
          return;
        }
        asked := true;
        OneMoreShort(replies, Reply(first, actual), elements);
        replies := replies + [Reply(first, actual)];
        if limit.Passed(digitizer.now) {
          error := Timeout;
          return;
        }
      }
      samplesBuffer.AdvanceReply(first, actual);
      ok := true;
    }

    /**
      The first `n` triggers of what is left of the marker stream, however it is chunked and
      whatever else it holds, and one record of samples for each. The samples begin where the
      stream stood but for the words of the replies that were short.
     */
    method Acquire(n: nat, timeoutMs: nat)
      returns (r: Result<AcquiredData>, ghost p: nat, ghost replies: seq<Reply>)
      requires digitizer.Valid()
      modifies digitizer
      ensures digitizer.Valid()
      ensures r.Ok? ==>
                && |r.value.stamps| == n > 0
                && Scanned(digitizer.markers, old(digitizer.markersRead), p, r.value.stamps)
                && old(digitizer.markersRead) + HUNK <= p <= digitizer.markersRead
                && TriggerAt(digitizer.markers, p - HUNK)
      ensures var elements := RecordElements(n, samplesPerTrigger);
              r.Ok? ==>
                && fresh(r.value.samplesBuffer) && r.value.samplesBuffer.Valid()
                && Askable(elements) && EndsFull(replies, elements)
                && 2 * |r.value.samplesBuffer.Unread()| <= n * samplesPerTrigger
                && n * samplesPerTrigger <= 2 * |r.value.samplesBuffer.Unread()| + 1
                && digitizer.samplesRead == old(digitizer.samplesRead) + Lost(replies) + elements
                && r.value.samplesBuffer.Unread()
                   == digitizer.samples[old(digitizer.samplesRead) + Lost(replies)..digitizer.samplesRead]
      ensures r.Err? ==> r.error in {Misaligned, DriverError, Timeout}
      ensures !Askable(RecordElements(n, samplesPerTrigger)) ==>
                r.Err? && digitizer.samplesRead == old(digitizer.samplesRead)
      ensures r == Err(Misaligned) ==> !Askable(RecordElements(n, samplesPerTrigger))
      ensures var finish := old(digitizer.now) + timeoutMs;
              r == Err(Timeout) <==> timeoutMs > 0 && (digitizer.markersAt > finish || digitizer.samplesAt > finish)
      ensures digitizer.refused == old(digitizer.refused) + if r == Err(DriverError) then 1 else 0
      // what is asked of the card: markers by the backlog, then the whole record each time
      ensures |old(digitizer.calls)| + |replies| <= |digitizer.calls|
      ensures var split := |digitizer.calls| - |replies|;
              && (n > 0 ==> PlainMarkerCalls(digitizer.calls[..split], |old(digitizer.calls)|, n))
              && RecordCalls(digitizer.calls, split, RecordElements(n, samplesPerTrigger))
      ensures n == 0 ==> r == Err(Misaligned)
    {
      hide Scanned, TriggerAt, Whole, RecordElements, EndsFull, Lost, PoolSize, PlainMarkerCalls, RecordCalls;
      NothingIsWhole();
      var limit := LimitOf(timeoutMs, digitizer.now);
      var error, ok, stamps;
      error, ok, stamps, p := CollectTriggers(n, limit);
      ghost var collected := digitizer.calls;
      assert digitizer.calls[..|collected|] == collected;
      if !ok {
        NoRecordCalls(digitizer.calls, RecordElements(n, samplesPerTrigger));
        return Err(error), p, [];
      }
      var samplesBuffer := new Buffer(PoolSize(maxTriggers, samplesPerTrigger), samplesPerTrigger);
      error, ok, replies := FetchRecord(samplesBuffer, RecordElements(n, samplesPerTrigger), limit);
      assert digitizer.calls[..|collected|] == collected;
      if !ok {
        return Err(error), p, replies;
      }
      return Ok(AcquiredData(stamps, samplesBuffer, samplesPerTrigger)), p, replies;
    }
  }

  lemma ScannedIsAfter(s: seq<Word>, a: nat, p: nat, ts: seq<TriggerData>)
    requires Scanned(s, a, p, ts)
    ensures a <= p <= |s|
  {
  }

  lemma WholeMultiple(n: nat)
    ensures Whole(n * HUNK)
  {
  }
}
