/** `CstZs1Context`: reading triggers, and the samples of their gates, from two streams in step. */
module CstZs1Context {
  import opened MachineWords
  import opened MarkerStream
  import opened AcquisitionBuffer

  const MULTIPLIER_MAX := 8

  datatype Error = NotWholeHunks | DriverError | Timeout | MarkersReplayed | DummyGate | UnexpectedHeader | Misaligned

  datatype Result<+T> = Ok(value: T) | Err(error: Error)

  datatype TriggerSeen = NotSeen | Seen(timestamp: nat, index: nat)

  datatype AcquiredData = AcquiredData(stamps: seq<TriggerData>, samplesBuffer: Buffer, samplesCount: nat)

  /** `seen` holds the greatest of the timestamps. */
  ghost predicate IsLatest(seen: TriggerSeen, noted: seq<nat>) {
    match seen
    case NotSeen => noted == []
    case Seen(t, _) => t in noted && forall u :: u in noted ==> u <= t
  }

  /** Timestamp `k` is there and is later than every one before it. */
  ghost predicate FirstIsLater(noted: seq<nat>, k: nat) {
    k < |noted| && forall i :: 0 <= i < k ==> noted[i] < noted[k]
  }

  lemma LatestOfMore(seen: TriggerSeen, noted: seq<nat>, timestamp: nat, index: nat)
    requires IsLatest(seen, noted)
    ensures IsLatest(if seen.NotSeen? || timestamp > seen.timestamp then Seen(timestamp, index) else seen,
                     noted + [timestamp])
  {
    assert timestamp == (noted + [timestamp])[|noted|];
    if seen.Seen? {
      var i :| 0 <= i < |noted| && noted[i] == seen.timestamp;
      assert (noted + [timestamp])[i] == seen.timestamp;
    }
  }

  /** A timestamp past the latest of the first `|noted|` is later than all of them, and stays so. */
  lemma LaterThanLatest(seen: TriggerSeen, noted: seq<nat>, timestamp: nat)
    requires IsLatest(seen, noted) && (seen.NotSeen? || timestamp > seen.timestamp)
    ensures FirstIsLater(noted + [timestamp], |noted|)
  {
    forall i | 0 <= i < |noted| ensures noted[i] < timestamp {
      assert noted[i] in noted;
    }
  }

  function Timestamps(ts: seq<TriggerData>): (r: seq<nat>)
    ensures |r| == |ts|
  {
    if ts == [] then [] else Timestamps(ts[..|ts| - 1]) + [ts[|ts| - 1].timestamp]
  }

  /** One reply of the samples fetch loop. */
  datatype Reply = Reply(first: nat, actual: nat)

  /** No reply but those before the first words starts part way into its space. */
  ghost predicate InStep(replies: seq<Reply>) {
    forall i, j :: 0 <= i < j < |replies| && replies[i].actual > 0 ==> replies[j].first == 0
  }

  function Total(replies: seq<Reply>): nat {
    if replies == [] then 0 else Total(replies[..|replies| - 1]) + replies[|replies| - 1].actual
  }

  lemma {:induction false} SomeReplyHasWords(replies: seq<Reply>)
    requires Total(replies) > 0
    ensures exists i :: 0 <= i < |replies| && replies[i].actual > 0
  {
    if replies[|replies| - 1].actual == 0 {
      SomeReplyHasWords(replies[..|replies| - 1]);
      var i :| 0 <= i < |replies| - 1 && replies[..|replies| - 1][i].actual > 0;
      assert replies[i].actual > 0;
    }
  }

  lemma NoReplies()
    ensures Total([]) == 0
  {
  }

  lemma OneMoreReply(replies: seq<Reply>, r: Reply)
    ensures Total(replies + [r]) == Total(replies) + r.actual
    ensures InStep(replies + [r]) ==> InStep(replies) && (Total(replies) == 0 || r.first == 0)
  {
    var more := replies + [r];
    assert more[..|more| - 1] == replies;
    if InStep(more) {
      assert forall i :: 0 <= i < |replies| ==> more[i] == replies[i];
      if Total(replies) > 0 {
        SomeReplyHasWords(replies);
        var i :| 0 <= i < |replies| && replies[i].actual > 0;
        assert more[i].actual > 0 && more[|replies|] == r;
      }
    }
  }

  // ----- how much is asked for

  /** The marker request after `c`: a trigger's hunks more for each when a reply leaves a backlog, up to eightfold. */
  function RequestAfter(c: Call, n: nat): nat {
    if c.actual > 0 && c.available > c.request && c.request < 8 * (16 * n) then c.request + 16 * n else c.request
  }

  function RequestAt(calls: seq<Call>, start: nat, i: nat, n: nat): nat
    requires start <= i <= |calls|
  {
    if i == start then 16 * n else RequestAfter(calls[i - 1], n)
  }

  /** From `start` on all calls are for markers, each as large as the one before makes it. */
  ghost predicate MarkerCalls(calls: seq<Call>, start: nat, n: nat) {
    && start <= |calls|
    && forall i :: start <= i < |calls| ==>
         calls[i].channel.Markers? && calls[i].request == RequestAt(calls, start, i, n)
  }

  lemma OneMoreMarkerCall(calls: seq<Call>, start: nat, n: nat, c: Call)
    requires MarkerCalls(calls, start, n)
    requires c.channel.Markers? && c.request == RequestAt(calls, start, |calls|, n)
    ensures MarkerCalls(calls + [c], start, n)
    ensures RequestAt(calls + [c], start, |calls| + 1, n) == RequestAfter(c, n)
  {
    var more := calls + [c];
    forall i | start <= i < |more|
      ensures more[i].channel.Markers? && more[i].request == RequestAt(more, start, i, n)
    {
      assert i < |calls| ==> more[i] == calls[i] && RequestAt(more, start, i, n) == RequestAt(calls, start, i, n);
    }
  }

  /** What the calls from `start` up to `i` have brought. */
  function Brought(calls: seq<Call>, start: nat, i: nat): nat
    requires start <= i <= |calls|
  {
    if i == start then 0 else Brought(calls, start, i - 1) + calls[i - 1].actual
  }

  /** From `start` on all calls are for samples, each for all that is outstanding. */
  ghost predicate SampleCalls(calls: seq<Call>, start: nat, toAcquire: nat) {
    && start <= |calls|
    && forall i :: start <= i < |calls| ==>
         calls[i].channel.Samples? && calls[i].request == toAcquire - Brought(calls, start, i)
  }

  lemma {:induction false} BroughtStays(calls: seq<Call>, c: Call, start: nat, i: nat)
    requires start <= i <= |calls|
    ensures Brought(calls + [c], start, i) == Brought(calls, start, i)
  {
    if i == start {
    } else {
      BroughtStays(calls, c, start, i - 1);
    }
  }

  lemma OneMoreSampleCall(calls: seq<Call>, start: nat, toAcquire: nat, c: Call)
    requires SampleCalls(calls, start, toAcquire)
    requires c.channel.Samples? && c.request == toAcquire - Brought(calls, start, |calls|)
    ensures SampleCalls(calls + [c], start, toAcquire)
    ensures Brought(calls + [c], start, |calls| + 1) == Brought(calls, start, |calls|) + c.actual
  {
    var more := calls + [c];
    BroughtStays(calls, c, start, |calls|);
    forall i | start <= i < |more|
      ensures more[i].channel.Samples? && more[i].request == toAcquire - Brought(more, start, i)
    {
      if i < |calls| {
        BroughtStays(calls, c, start, i);
        assert more[i] == calls[i];
      }
    }
  }

  lemma NoCallsYet(calls: seq<Call>, n: nat, toAcquire: nat)
    ensures MarkerCalls(calls, |calls|, n) && RequestAt(calls, |calls|, |calls|, n) == 16 * n
    ensures SampleCalls(calls, |calls|, toAcquire) && Brought(calls, |calls|, |calls|) == 0
  {
  }

  lemma GrowthByHunks(n: nat, multiplier: nat)
    requires n > 0 && 1 <= multiplier
    ensures n * HUNK * multiplier < 8 * (16 * n) <==> multiplier < 8
    ensures n * HUNK * (multiplier + 1) == n * HUNK * multiplier + 16 * n
  {
    Regroup(n, multiplier);
    Regroup(n, multiplier + 1);
    if multiplier < 8 {
      TimesGrows(multiplier + 1, 8, n);
    } else {
      TimesGrows(8, multiplier, n);
    }
  }

  /** A marker request is positive, a multiple of 16, and with the driver's slack fits the buffer. */
  lemma RequestFits(triggers: nat, multiplier: nat, maxTriggers: nat)
    requires 1 <= triggers <= maxTriggers && 1 <= multiplier <= MULTIPLIER_MAX
    ensures var request := triggers * HUNK * multiplier;
            request > 0 && Whole(request) && request + 15 <= maxTriggers * HUNK * MULTIPLIER_MAX + 15
  {
    hide Whole;
    var hunks := triggers * multiplier;
    Regroup(triggers, multiplier);
    WholeTimes(hunks);
    TimesGrows(1, multiplier, triggers);
    TimesGrows(multiplier, MULTIPLIER_MAX, triggers);
    assert hunks <= triggers * MULTIPLIER_MAX <= maxTriggers * MULTIPLIER_MAX;
  }

  lemma Regroup(a: nat, b: nat)
    ensures a * HUNK * b == HUNK * (a * b)
  {
  }

  lemma WholeTimes(n: nat)
    ensures Whole(HUNK * n)
  {
  }

  lemma TimesGrows(a: nat, b: nat, c: nat)
    requires a <= b
    ensures c * a <= c * b
  {
    assert c * (b - a) >= 0;
  }

  /** How far a walk from `a` has come: what it has collected is the parse of what it passed. */
  ghost predicate Progress(s: seq<Word>, a: nat, p: nat, stamps: seq<TriggerData>, toAcquire: nat) {
    && a <= p <= |s| && Whole(p - a)
    && stamps == Parse(s[a..p]) && Clean(s[a..p])
    && toAcquire == U64(FetchTotal(s[a..p]))
  }

  lemma ProgressStarts(s: seq<Word>, a: nat)
    requires a <= |s|
    ensures Progress(s, a, a, [], 0)
  {
    assert s[a..a] == [];
  }

  lemma ProgressAtTrigger(s: seq<Word>, a: nat, p: nat, stamps: seq<TriggerData>, toAcquire: nat)
    requires Progress(s, a, p, stamps, toAcquire) && TriggerAt(s, p)
    ensures Progress(s, a, p + HUNK, stamps + [NewTrigger(s[p..p + HUNK])], toAcquire)
    ensures Timestamps(stamps + [NewTrigger(s[p..p + HUNK])]) == Timestamps(stamps) + [Timestamp(s[p..p + HUNK])]
  {
    hide Parse, Clean, FetchTotal;
    ParseStep(s, a, p);
    var more := stamps + [NewTrigger(s[p..p + HUNK])];
    assert more[..|more| - 1] == stamps;
  }

  lemma ProgressAtGates(s: seq<Word>, a: nat, p: nat, stamps: seq<TriggerData>, toAcquire: nat)
    requires Progress(s, a, p, stamps, toAcquire)
    requires p + HUNK <= |s| && KindOf(s[p..p + HUNK]).Gates?
    ensures var hunk := s[p..p + HUNK];
            && Progress(s, a, p + HUNK, AddGates(stamps, GatesOf(hunk, 4)),
                        if stamps == [] then toAcquire else U64(toAcquire + FetchOf(hunk, 4)))
            && Timestamps(AddGates(stamps, GatesOf(hunk, 4))) == Timestamps(stamps)
  {
    hide Parse, Clean, FetchTotal, GatesOf, FetchOf;
    ParseStep(s, a, p);
    var hunk := s[p..p + HUNK];
    WrapTwice(FetchTotal(s[a..p]), FetchOf(hunk, 4));
    if stamps != [] {
      var more := AddGates(stamps, GatesOf(hunk, 4));
      assert more[..|more| - 1] == stamps[..|stamps| - 1];
    }
  }

  lemma WalkedAligned(s: seq<Word>, a: nat, p: nat, stamps: seq<TriggerData>, toAcquire: nat)
    requires Progress(s, a, p, stamps, toAcquire)
    ensures Whole(toAcquire)
    ensures TriggerAt(s, p) ==> EndsWalk(s, a, p, |stamps|)
    ensures stamps == Parse(s[a..p]) && toAcquire == U64(FetchTotal(s[a..p]))
    ensures stamps == [] ==> toAcquire == 0
    ensures a <= p <= |s| && Whole(p - a)
  {
    FetchTotalAligned(s[a..p]);
    WrapAligned(FetchTotal(s[a..p]));
    if stamps == [] {
      NothingToFetch(s[a..p]);
    }
  }

  lemma WrapAligned(n: nat)
    requires Whole(n)
    ensures Whole(U64(n))
  {
    assert n == n / TWO64 * TWO64 + U64(n);
  }

  lemma {:induction false} NothingToFetch(s: seq<Word>)
    requires Whole(|s|) && Parse(s) == []
    ensures FetchTotal(s) == 0
  {
    if s == [] {
    } else {
      ExtendSize(Parse(s[..|s| - HUNK]), s[|s| - HUNK..]);
      assert |Parse(s[..|s| - HUNK])| == 0;
      NothingToFetch(s[..|s| - HUNK]);
    }
  }

  lemma NoTimestamps()
    ensures Timestamps([]) == []
  {
  }

  /** Words of a buffer of the pool. */
  function PoolSize(triggers: nat, samplesPerTrigger: nat): nat {
    triggers * samplesPerTrigger
  }

  datatype WalkStatus = Onward | Full | Failed(error: Error)

  class Context {
    const digitizer: Digitizer
    const maxTriggers: nat
    const samplesPerTrigger: nat
    const markersBuffer: Buffer
    var lastTrigger: TriggerSeen
    var frameLastTrigger: TriggerSeen
    var frameFirstTriggerChecked: bool

    ghost var noted: seq<nat>     // every timestamp noted since construction
    ghost var frameNoted: nat     // how many of them before this frame
    ghost var frameSamples: nat   // samples read before this frame
    ghost var damaged: bool       // this frame's first trigger was refused

    constructor (digitizer: Digitizer, maxTriggers: nat, samplesPerTrigger: nat)
      requires digitizer.Valid()
      ensures Valid() && Noting() && InFrame() && !damaged && this.digitizer == digitizer
      ensures this.maxTriggers == maxTriggers && this.samplesPerTrigger == samplesPerTrigger
      ensures fresh(markersBuffer) && fresh(markersBuffer.data)
      ensures noted == [] && Walked() == digitizer.markersRead
    {
      this.digitizer, this.maxTriggers, this.samplesPerTrigger := digitizer, maxTriggers, samplesPerTrigger;
      markersBuffer := new Buffer(maxTriggers * HUNK * MULTIPLIER_MAX + 15, 0);
      lastTrigger, frameLastTrigger, frameFirstTriggerChecked := NotSeen, NotSeen, false;
      noted, frameNoted, frameSamples, damaged := [], 0, digitizer.samplesRead, false;
    }

    /** The buffer holds the last words read from the marker stream that were not walked. */
    ghost predicate Valid()
      reads this, digitizer, markersBuffer, markersBuffer.data
    {
      && digitizer.Valid() && markersBuffer.Valid()
      && markersBuffer.data.Length == maxTriggers * HUNK * MULTIPLIER_MAX + 15
      && Whole(|markersBuffer.Unread()|)
      && |markersBuffer.Unread()| <= digitizer.markersRead
      && markersBuffer.Unread()
         == digitizer.markers[digitizer.markersRead - |markersBuffer.Unread()|..digitizer.markersRead]
    }

    /** Where in the marker stream the walk stands. */
    ghost function Walked(): nat
      requires Valid()
      reads this, digitizer, markersBuffer, markersBuffer.data
    {
      digitizer.markersRead - |markersBuffer.Unread()|
    }

    /** The trigger seen last is the latest of all noted, across frames. */
    ghost predicate Noting()
      reads this
    {
      && IsLatest(lastTrigger, noted)
      && frameNoted <= |noted| && IsLatest(frameLastTrigger, noted[..frameNoted])
    }

    /**
      What a frame keeps: its first trigger is later than all earlier frames' triggers, samples
      are read only after it, and a refused first trigger means that none are.
     */
    ghost predicate InFrame()
      reads this, digitizer
    {
      && frameNoted <= |noted| && frameSamples <= digitizer.samplesRead
      && (|noted| > frameNoted ==> FirstIsLater(noted, frameNoted))
      && (digitizer.samplesRead > frameSamples ==> |noted| > frameNoted)
      && (if damaged then |noted| == frameNoted else frameFirstTriggerChecked <==> |noted| > frameNoted)
    }

    /** The base class's start and stop reach the card and are not part of the model. */
    method Start()
      requires Valid() && Noting()
      modifies this
      ensures Valid() && Noting() && InFrame() && !damaged
      ensures noted == old(noted) == noted[..frameNoted] && frameNoted == |noted|
      ensures lastTrigger == frameLastTrigger == old(lastTrigger) && !frameFirstTriggerChecked
      ensures frameSamples == digitizer.samplesRead && Walked() == old(Walked())
    {
      hide IsLatest, FirstIsLater, Whole;
      frameLastTrigger := lastTrigger;
      frameFirstTriggerChecked := false;
      frameNoted, frameSamples, damaged := |noted|, digitizer.samplesRead, false;
      assert noted[..frameNoted] == noted;
    }

    /** Markers fetched and not walked are dropped. */
    method Stop()
      requires Valid()
      modifies markersBuffer
      ensures Valid() && Walked() == digitizer.markersRead
    {
      markersBuffer.Reset();
    }

    /** False when this is the frame's first trigger and not past the previous frames' last. */
    method NoteTrigger(timestamp: nat, index: nat) returns (ok: bool)
      requires Noting()
      modifies this
      ensures Noting() && frameNoted == old(frameNoted) && frameSamples == old(frameSamples)
      ensures frameFirstTriggerChecked && frameLastTrigger == old(frameLastTrigger)
      ensures ok ==> noted == old(noted) + [timestamp] && damaged == old(damaged)
      ensures ok ==> lastTrigger == if old(lastTrigger).NotSeen? || timestamp > old(lastTrigger).timestamp
                                    then Seen(timestamp, index) else old(lastTrigger)
      ensures !ok ==> noted == old(noted) && lastTrigger == old(lastTrigger)
      ensures !ok ==> damaged && !old(frameFirstTriggerChecked)
      ensures !ok ==> exists u :: u in noted[..frameNoted] && timestamp <= u
      ensures old(InFrame()) && !old(damaged) ==> InFrame()
    {
      if !frameFirstTriggerChecked {
        frameFirstTriggerChecked := true;
        if frameLastTrigger.Seen? && timestamp <= frameLastTrigger.timestamp {
          damaged := true;
          return false;
        }
        if |noted| == frameNoted {
          assert noted[..frameNoted] == noted;
          LaterThanLatest(frameLastTrigger, noted, timestamp);
        }
      }
      LatestOfMore(lastTrigger, noted, timestamp, index);
      if lastTrigger.NotSeen? || timestamp > lastTrigger.timestamp {
        lastTrigger := Seen(timestamp, index);
      }
      noted := noted + [timestamp];
      assert noted[..frameNoted] == old(noted)[..frameNoted];
      return true;
    }

    /** The four quarters of a gate hunk; without a trigger they are passed over. */
    method ReadGates(hunk: seq<Word>, stamps0: seq<TriggerData>, toAcquire0: nat)
      returns (stamps: seq<TriggerData>, toAcquire: nat)
      requires |hunk| == HUNK && toAcquire0 < TWO64
      ensures stamps == AddGates(stamps0, GatesOf(hunk, 4))
      ensures toAcquire == if stamps0 == [] then toAcquire0 else U64(toAcquire0 + FetchOf(hunk, 4))
    {
      hide Gate, GateFetch, LowOctet, U64;
      stamps, toAcquire := stamps0, toAcquire0;
      AddNoGates(stamps0);
      WrapOnce(toAcquire0);
      for i := 0 to 4
        invariant stamps == AddGates(stamps0, GatesOf(hunk, i))
        invariant toAcquire == if stamps0 == [] then toAcquire0 else U64(toAcquire0 + FetchOf(hunk, i))
      {
        if LowOctet(hunk[i * 4]) == 0x04 {
          AddMoreGates(stamps0, GatesOf(hunk, i), [Gate(hunk, i * 4)]);
          if |stamps| == 0 {
            continue;
          }
          var last := stamps[|stamps| - 1];
          stamps := stamps[|stamps| - 1 := last.(gates := last.gates + [Gate(hunk, i * 4)])];
          WrapTwice(toAcquire0 + FetchOf(hunk, i), GateFetch(hunk, i * 4));
          toAcquire := U64(toAcquire + GateFetch(hunk, i * 4));
        } else {
          assert GatesOf(hunk, i + 1) == GatesOf(hunk, i);
        }
      }
    }

    /** A walk that began at `start`, when `before` were noted. */
    ghost predicate Walking(start: nat, before: seq<nat>, stamps: seq<TriggerData>, toAcquire: nat)
      reads this, digitizer, markersBuffer, markersBuffer.data
    {
      && Valid() && Noting()
      && Progress(digitizer.markers, start, Walked(), stamps, toAcquire)
      && noted == before + Timestamps(stamps)
    }

    /** Why a walk stopped: the hunk it stands at. */
    ghost predicate Explains(status: WalkStatus)
      requires Valid()
      reads this, digitizer, markersBuffer, markersBuffer.data
    {
      var s, p := digitizer.markers, Walked();
      match status
      case Onward => true
      case Full => TriggerAt(s, p)
      case Failed(MarkersReplayed) =>
        && TriggerAt(s, p) && frameNoted <= |noted|
        && exists u :: u in noted[..frameNoted] && Timestamp(s[p..p + HUNK]) <= u
      case Failed(DummyGate) => p + HUNK <= |s| && KindOf(s[p..p + HUNK]).Dummy?
      case Failed(UnexpectedHeader) => p + HUNK <= |s| && KindOf(s[p..p + HUNK]).Unexpected?
      case Failed(_) => false
    }

    /** What walking leaves alone, and what it keeps of the frame. */
    twostate predicate WalkKeeps(status: WalkStatus)
      reads this, digitizer
    {
      && frameNoted == old(frameNoted) && frameSamples == old(frameSamples) && old(noted) <= noted
      && (damaged <==> old(damaged) || status == Failed(MarkersReplayed))
      && (old(InFrame()) && !old(damaged) ==> InFrame())
    }

    /** The first unread hunk is the one of the stream where the walk stands. */
    lemma HunkAtWalk()
      requires Valid() && markersBuffer.Unread() != []
      ensures var at := markersBuffer.RawUnprocessed();
              && at + HUNK <= markersBuffer.data.Length && Walked() + HUNK <= |digitizer.markers|
              && markersBuffer.data[at..at + HUNK] == digitizer.markers[Walked()..Walked() + HUNK]
    {
      var at := markersBuffer.RawUnprocessed();
      WholeLess(|markersBuffer.Unread()|);
      assert markersBuffer.Unread()[..HUNK] == markersBuffer.data[at..at + HUNK];
      assert markersBuffer.Unread()[..HUNK] == digitizer.markers[Walked()..Walked() + HUNK];
    }

    /** Processing one hunk moves the walk by one hunk. */
    method PassHunk()
      requires Valid() && markersBuffer.Unread() != []
      modifies markersBuffer`processedIndex
      ensures Valid() && Walked() == old(Walked()) + HUNK
      ensures |markersBuffer.Unread()| == |old(markersBuffer.Unread())| - HUNK
    {
      hide Whole;
      WholeLess(|markersBuffer.Unread()|);
      ghost var walked := Walked();
      markersBuffer.AdvanceProcessed(HUNK);
      assert markersBuffer.Unread() == digitizer.markers[walked + HUNK..digitizer.markersRead];
    }

    /** A trigger hunk with room for it: noted, kept and passed, unless it is refused. */
    method TakeTrigger(seg: seq<Word>, stamps0: seq<TriggerData>, ghost toAcquire: nat, ghost start: nat,
                       ghost before: seq<nat>)
      returns (ok: bool, stamps: seq<TriggerData>)
      requires Walking(start, before, stamps0, toAcquire) && markersBuffer.Unread() != []
      requires TriggerAt(digitizer.markers, Walked()) && seg == digitizer.markers[Walked()..Walked() + HUNK]
      modifies this, markersBuffer`processedIndex
      ensures Valid() && Noting() && WalkKeeps(if ok then Onward else Failed(MarkersReplayed))
      ensures ok ==> Walking(start, before, stamps, toAcquire) && |stamps| == |stamps0| + 1
      ensures ok ==> |markersBuffer.Unread()| == |old(markersBuffer.Unread())| - HUNK
      ensures !ok ==> Explains(Failed(MarkersReplayed))
    {
      hide Parse, Clean, FetchTotal, Progress, Timestamp, Timestamps, IsLatest, FirstIsLater, KindOf;
      ProgressAtTrigger(digitizer.markers, start, Walked(), stamps0, toAcquire);
      stamps := stamps0 + [NewTrigger(seg)];
      ok := NoteTrigger(Timestamp(seg), AboveLow(seg[0]));
      if ok {
        PassHunk();
      }
    }

    method WalkHunk(n: nat, trigCount0: nat, stamps0: seq<TriggerData>, toAcquire0: nat,
                    ghost start: nat, ghost before: seq<nat>)
      returns (status: WalkStatus, trigCount: nat, stamps: seq<TriggerData>, toAcquire: nat)
      requires Walking(start, before, stamps0, toAcquire0) && trigCount0 == |stamps0| <= n && toAcquire0 < TWO64
      requires markersBuffer.Unread() != []
      modifies this, markersBuffer`processedIndex
      ensures Valid() && Noting() && Explains(status) && WalkKeeps(status)
      ensures status.Failed? ==> status.error in {MarkersReplayed, DummyGate, UnexpectedHeader}
      ensures status.Onward? ==>
                && Walking(start, before, stamps, toAcquire) && trigCount == |stamps| <= n && toAcquire < TWO64
                && |markersBuffer.Unread()| == |old(markersBuffer.Unread())| - HUNK
      ensures status.Full? ==>
                && Walking(start, before, stamps, toAcquire) && trigCount == n + 1 && |stamps| == n
                && toAcquire < TWO64 && Walked() == old(Walked())
    {
      hide Parse, Clean, FetchTotal, GatesOf, FetchOf, Progress, Timestamp, Timestamps, IsLatest, FirstIsLater,
           KindOf, AddGates;
      status, trigCount, stamps, toAcquire := Onward, trigCount0, stamps0, toAcquire0;
      HunkAtWalk();
      var at := markersBuffer.RawUnprocessed();
      var seg := markersBuffer.data[at..at + HUNK];
      match KindOf(seg)
      case Trigger =>
        trigCount := trigCount + 1;
        if trigCount >= n + 1 {
          return Full, trigCount, stamps, toAcquire;
        }
        var ok;
        ok, stamps := TakeTrigger(seg, stamps, toAcquire, start, before);
        status := if ok then Onward else Failed(MarkersReplayed);
      case Gates =>
        ProgressAtGates(digitizer.markers, start, Walked(), stamps, toAcquire);
        stamps, toAcquire := ReadGates(seg, stamps, toAcquire);
        PassHunk();
      case Dummy =>
        status := Failed(DummyGate);
      case Unexpected =>
        status := Failed(UnexpectedHeader);
    }

    /** The inner loop: every hunk in the buffer, or up to the trigger after the n-th. */
    method Walk(n: nat, trigCount0: nat, stamps0: seq<TriggerData>, toAcquire0: nat,
                ghost start: nat, ghost before: seq<nat>)
      returns (status: WalkStatus, trigCount: nat, stamps: seq<TriggerData>, toAcquire: nat)
      requires Walking(start, before, stamps0, toAcquire0) && trigCount0 == |stamps0| <= n && toAcquire0 < TWO64
      modifies this, markersBuffer`processedIndex
      ensures Valid() && Noting() && Explains(status) && WalkKeeps(status)
      ensures status.Failed? ==> status.error in {MarkersReplayed, DummyGate, UnexpectedHeader}
      ensures status.Onward? ==>
                && Walking(start, before, stamps, toAcquire) && trigCount == |stamps| <= n && toAcquire < TWO64
                && markersBuffer.Unread() == []
      ensures status.Full? ==> TriggerAt(digitizer.markers, Walked())
      ensures status.Full? ==>
                && Walking(start, before, stamps, toAcquire) && trigCount == n + 1 && |stamps| == n && toAcquire < TWO64
    {
      hide Parse, Clean, FetchTotal, Progress, Timestamp, Timestamps, IsLatest, FirstIsLater, KindOf;
      status, trigCount, stamps, toAcquire := Onward, trigCount0, stamps0, toAcquire0;
      var i, hunks := 0, markersBuffer.Unprocessed() / HUNK;
      while i < hunks
        invariant Walking(start, before, stamps, toAcquire) && trigCount == |stamps| <= n && toAcquire < TWO64
        invariant 0 <= i <= hunks && |markersBuffer.Unread()| == (hunks - i) * HUNK
        invariant status.Onward? && WalkKeeps(Onward)
      {
        status, trigCount, stamps, toAcquire := WalkHunk(n, trigCount, stamps, toAcquire, start, before);
        if !status.Onward? {
          return;
        }
        i := i + 1;
      }
    }

    /** One reply of markers into the empty buffer; the cursors move only when it brought some. */
    method AskMarkers(request: nat) returns (answered: bool, available: nat, actual: nat)
      requires Valid() && request > 0 && Whole(request) && request + 15 <= markersBuffer.data.Length
      requires markersBuffer.acquiredIndex == markersBuffer.processedIndex == markersBuffer.offset == 0
      modifies markersBuffer, markersBuffer.data, digitizer
      ensures digitizer.calls == old(digitizer.calls)
                                 + if answered then [Call(Markers, request, available, actual)] else []
      ensures markersBuffer.Valid()
      ensures digitizer.markersAt == if answered then digitizer.now else old(digitizer.markersAt)
      ensures Valid() && Walked() == old(Walked()) && digitizer.samplesRead == old(digitizer.samplesRead)
      ensures digitizer.replies <= old(digitizer.replies)
      ensures answered ==> digitizer.replies < old(digitizer.replies)
      ensures digitizer.refused == old(digitizer.refused) + if answered then 0 else 1
      ensures answered ==> |markersBuffer.Unread()| == actual
      ensures !answered || actual == 0 ==>
                markersBuffer.acquiredIndex == markersBuffer.processedIndex == markersBuffer.offset == 0
    {
      hide Whole;
      var first;
      NothingIsWhole();
      answered, available, actual, first := digitizer.StreamFetchData(Markers, request, markersBuffer.data.Length,
        markersBuffer.data, markersBuffer.RawUnacquired());
      if answered && actual > 0 {
        markersBuffer.AdvanceReply(first, actual);
        assert markersBuffer.Unread() == digitizer.markers[old(digitizer.markersRead)..digitizer.markersRead];
      } else {
        assert markersBuffer.Unread() == [];
      }
    }

    /** The buffer without its markers, which have been walked or come too late. */
    method EmptyBuffer()
      requires Valid()
      modifies markersBuffer
      ensures Valid() && markersBuffer.Valid() && |markersBuffer.Unread()| == 0
      ensures old(|markersBuffer.Unread()|) == 0 ==> Walked() == old(Walked())
      ensures markersBuffer.acquiredIndex == markersBuffer.processedIndex == markersBuffer.offset == 0
    {
      markersBuffer.Reset();
    }

    /** Asks for markers until some come; everything before has been walked. */
    method FetchMarkers(request: nat, limit: Limit, ghost start: nat, ghost n: nat)
      returns (error: Error, ok: bool, available: nat)
      requires Valid() && markersBuffer.Unread() == []
      requires request > 0 ==> Whole(request) && request + 15 <= markersBuffer.data.Length
      requires !limit.Passed(digitizer.markersAt)
      requires MarkerCalls(digitizer.calls, start, n) && start <= |digitizer.calls|
      requires request == RequestAt(digitizer.calls, start, |digitizer.calls|, n)
      modifies markersBuffer, markersBuffer.data, digitizer
      ensures Valid() && digitizer.samplesRead == old(digitizer.samplesRead)
      ensures MarkerCalls(digitizer.calls, start, n) && start <= |digitizer.calls|
      ensures ok ==> RequestAt(digitizer.calls, start, |digitizer.calls|, n)
                     == if available > request && request < 8 * (16 * n) then request + 16 * n else request
      // a reply that comes too late is lost with its markers
      ensures Walked() == old(Walked()) || (!ok && error == Timeout)
      ensures digitizer.replies <= old(digitizer.replies)
      ensures ok ==> markersBuffer.Unread() != [] && digitizer.replies < old(digitizer.replies)
      ensures !ok ==> error in {Misaligned, DriverError, Timeout}
      ensures !ok && error == Timeout <==> limit.Passed(digitizer.markersAt)
      ensures !ok && error == Misaligned <==> request == 0
      ensures digitizer.refused == old(digitizer.refused) + if !ok && error == DriverError then 1 else 0
    {
      hide Whole, Valid, Walked, Buffer.Unread, Buffer.Valid, MarkerCalls, RequestAt;
      NothingIsWhole();
      error, ok, available := DriverError, false, 0;
      EmptyBuffer();
      var actual: nat, asked := 0, false;
      while !asked || actual == 0
        invariant Valid() && Walked() == old(Walked()) && digitizer.samplesRead == old(digitizer.samplesRead)
        invariant markersBuffer.Valid()
        invariant MarkerCalls(digitizer.calls, start, n) && start <= |digitizer.calls|
        invariant RequestAt(digitizer.calls, start, |digitizer.calls|, n)
               == if actual > 0 && available > request && request < 8 * (16 * n) then request + 16 * n else request
        invariant digitizer.replies <= old(digitizer.replies) && digitizer.refused == old(digitizer.refused)
        invariant !limit.Passed(digitizer.markersAt)
        invariant if asked then request > 0 && digitizer.replies < old(digitizer.replies) else actual == 0
        invariant |markersBuffer.Unread()| == actual
        invariant actual == 0 ==>
                    markersBuffer.acquiredIndex == markersBuffer.processedIndex == markersBuffer.offset == 0
        decreases digitizer.replies, !asked
      {
        if request <= 0 || !Whole(request) {
          error := Misaligned;
          return;
        }
        ghost var calls := digitizer.calls;
        var answered;
        answered, available, actual := AskMarkers(request);
        if !answered {
          assert digitizer.calls == calls;
          return;
        }
        OneMoreMarkerCall(calls, start, n, Call(Markers, request, available, actual));
        asked := true;
        if limit.Passed(digitizer.now) {
          EmptyBuffer();
          error := Timeout;
          return;
        }
      }
      ok := true;
    }

    /** The refill: the next request grows with the backlog, up to what the buffer was sized for. */
    method Refill(n: nat, request: nat, multiplier0: nat, limit: Limit, ghost start: nat)
      returns (error: Error, ok: bool, next: nat, multiplier: nat, available: nat)
      requires Valid() && markersBuffer.Unread() == [] && n <= maxTriggers
      requires 1 <= multiplier0 <= MULTIPLIER_MAX && request == n * HUNK * multiplier0
      requires !limit.Passed(digitizer.markersAt)
      requires MarkerCalls(digitizer.calls, start, n) && start <= |digitizer.calls|
      requires request == RequestAt(digitizer.calls, start, |digitizer.calls|, n)
      modifies markersBuffer, markersBuffer.data, digitizer
      ensures Valid() && digitizer.samplesRead == old(digitizer.samplesRead)
      ensures digitizer.replies <= old(digitizer.replies)
      ensures MarkerCalls(digitizer.calls, start, n) && start <= |digitizer.calls|
      ensures ok ==> next == RequestAt(digitizer.calls, start, |digitizer.calls|, n)
      ensures Walked() == old(Walked()) || (!ok && error == Timeout)
      ensures ok ==> markersBuffer.Unread() != [] && digitizer.replies < old(digitizer.replies)
      ensures ok ==>
                multiplier == multiplier0 + if available > request && multiplier0 < 8 then 1 else 0
      ensures ok ==> next == n * HUNK * multiplier
      ensures !ok ==> error in {Misaligned, DriverError, Timeout}
      ensures !ok && error == Timeout <==> limit.Passed(digitizer.markersAt)
      ensures !ok && error == Misaligned <==> n == 0
      ensures digitizer.refused == old(digitizer.refused) + if !ok && error == DriverError then 1 else 0
    {
      hide Whole, MarkerCalls, RequestAt;
      next, multiplier := request, multiplier0;
      RequestIsZero(n, multiplier0, maxTriggers);
      if n > 0 {
        GrowthByHunks(n, multiplier0);
      }
      error, ok, available := FetchMarkers(request, limit, start, n);
      if ok && available > request && multiplier < MULTIPLIER_MAX {
        multiplier := multiplier + 1;
        next := n * HUNK * multiplier;
      }
    }

    /** One reply of samples, added to the buffer. */
    method AskSamples(samplesBuffer: Buffer, request: nat) returns (answered: bool, reply: Reply, available: nat)
      requires digitizer.Valid() && samplesBuffer.Valid() && request > 0 && Whole(request)
      requires samplesBuffer.processedIndex == 0
      modifies samplesBuffer, samplesBuffer.data, digitizer
      ensures digitizer.Valid() && samplesBuffer.Valid() && samplesBuffer.processedIndex == 0
      ensures digitizer.markersAt == old(digitizer.markersAt)
      ensures digitizer.markersRead == old(digitizer.markersRead)
      ensures !answered ==> digitizer.samplesRead == old(digitizer.samplesRead)
      ensures digitizer.calls == old(digitizer.calls)
                                 + if answered then [Call(Samples, request, available, reply.actual)] else []
      ensures answered ==> digitizer.replies < old(digitizer.replies)
      ensures digitizer.refused == old(digitizer.refused) + if answered then 0 else 1
      ensures answered ==> digitizer.samplesRead == old(digitizer.samplesRead) + reply.actual
      ensures answered ==> reply.actual <= request && Whole(reply.actual) && reply.first <= 15
      ensures answered ==> |samplesBuffer.Unread()| == |old(samplesBuffer.Unread())| + reply.actual
      ensures answered && (old(samplesBuffer.Unread()) == [] || reply.first == 0) ==>
                samplesBuffer.Unread() == old(samplesBuffer.Unread())
                                          + digitizer.samples[old(digitizer.samplesRead)..digitizer.samplesRead]
    {
      hide Whole;
      var actual, first;
      ghost var unread := samplesBuffer.Unread();
      answered, available, actual, first := digitizer.StreamFetchData(Samples, request, samplesBuffer.Available(),
        samplesBuffer.data, samplesBuffer.RawUnacquired());
      reply := Reply(first, actual);
      if answered {
        assert samplesBuffer.Unread() == unread;
        samplesBuffer.AdvanceReply(first, actual);
      }
    }

    /**
      The samples loop: until as many words as the gates need have come. Each request is what is
      outstanding, read as a signed 64-bit count.
     */
    method FetchSamples(samplesBuffer: Buffer, toAcquire: nat)
      returns (error: Error, ok: bool, ghost replies: seq<Reply>)
      requires digitizer.Valid() && samplesBuffer.Valid() && toAcquire < TWO64 && Whole(toAcquire)
      requires samplesBuffer.processedIndex == 0 && samplesBuffer.Unread() == []
      modifies samplesBuffer, samplesBuffer.data, digitizer
      ensures digitizer.Valid() && samplesBuffer.Valid() && samplesBuffer.processedIndex == 0
      ensures digitizer.markersAt == old(digitizer.markersAt)
      ensures digitizer.markersRead == old(digitizer.markersRead) && digitizer.samplesRead >= old(digitizer.samplesRead)
      ensures SampleCalls(digitizer.calls, |old(digitizer.calls)|, toAcquire)
      ensures |digitizer.calls| == |old(digitizer.calls)| + |replies| && old(digitizer.calls) <= digitizer.calls
      ensures toAcquire == 0 ==> digitizer.samplesRead == old(digitizer.samplesRead)
      ensures ok ==> digitizer.samplesRead == old(digitizer.samplesRead) + toAcquire
      ensures ok ==> |samplesBuffer.Unread()| == toAcquire
      ensures ok && InStep(replies) ==>
                samplesBuffer.Unread() == digitizer.samples[old(digitizer.samplesRead)..digitizer.samplesRead]
      ensures !ok ==> error in {Misaligned, DriverError} && (error == Misaligned ==> toAcquire >= TWO63)
      ensures digitizer.refused == old(digitizer.refused) + if !ok && error == DriverError then 1 else 0
    {
      hide Total, InStep, S64, Whole, Buffer.Valid, Buffer.Unread, SampleCalls, Brought;
      NothingIsWhole();
      error, ok, replies := DriverError, false, [];
      NoReplies();
      var fetched: nat := 0;
      ghost var from, start := digitizer.samplesRead, |digitizer.calls|;
      NoCallsYet(digitizer.calls, 0, toAcquire);
      while fetched < toAcquire
        invariant digitizer.Valid() && samplesBuffer.Valid() && samplesBuffer.processedIndex == 0
        invariant fetched <= toAcquire && Whole(fetched) && |samplesBuffer.Unread()| == fetched
        invariant digitizer.markersAt == old(digitizer.markersAt)
        invariant digitizer.markersRead == old(digitizer.markersRead) && digitizer.samplesRead == from + fetched
        invariant fetched == Total(replies) && digitizer.refused == old(digitizer.refused)
        invariant SampleCalls(digitizer.calls, start, toAcquire) && old(digitizer.calls) <= digitizer.calls
        invariant start <= |digitizer.calls| == start + |replies|
        invariant Brought(digitizer.calls, start, |digitizer.calls|) == fetched
        invariant InStep(replies) ==> samplesBuffer.Unread() == digitizer.samples[from..from + fetched]
        decreases digitizer.replies
      {
        SignedView(toAcquire - fetched);
        WholeSum(toAcquire, fetched);
        var outstanding := S64(toAcquire - fetched);
        if outstanding <= 0 || !Whole(outstanding) {
          error := Misaligned;
          return;
        }
        ghost var done := fetched;
        ghost var calls := digitizer.calls;
        var answered, reply, available := AskSamples(samplesBuffer, outstanding);
        if !answered {
          assert digitizer.calls == calls;
          return;
        }
        OneMoreSampleCall(calls, start, toAcquire, Call(Samples, outstanding, available, reply.actual));
        OneMoreReply(replies, reply);
        replies := replies + [reply];
        fetched := fetched + reply.actual;
        WholeSum(done, reply.actual);
        Consecutive(digitizer.samples, from, from + done, from + fetched);
      }
      ok := true;
    }

    /** A reset buffer that nobody else holds, filled with the samples of the gates just walked. */
    method FetchInto(toAcquire: nat)
      returns (error: Error, ok: bool, samplesBuffer: Buffer, ghost replies: seq<Reply>)
      requires Valid() && toAcquire < TWO64 && Whole(toAcquire)
      modifies digitizer
      ensures digitizer.markersAt == old(digitizer.markersAt)
      ensures Valid() && Walked() == old(Walked())
      ensures digitizer.samplesRead >= old(digitizer.samplesRead)
      ensures SampleCalls(digitizer.calls, |old(digitizer.calls)|, toAcquire)
      ensures |digitizer.calls| == |old(digitizer.calls)| + |replies| && old(digitizer.calls) <= digitizer.calls
      ensures toAcquire == 0 ==> digitizer.samplesRead == old(digitizer.samplesRead)
      ensures fresh(samplesBuffer) && fresh(samplesBuffer.data)
      ensures samplesBuffer.Valid() && samplesBuffer.processedIndex == 0
      ensures ok ==> |samplesBuffer.Unread()| == toAcquire
      ensures ok ==> digitizer.samplesRead == old(digitizer.samplesRead) + toAcquire
      ensures ok && InStep(replies) ==>
                samplesBuffer.Unread() == digitizer.samples[old(digitizer.samplesRead)..digitizer.samplesRead]
      ensures !ok ==> error in {Misaligned, DriverError} && (error == Misaligned ==> toAcquire >= TWO63)
      ensures digitizer.refused == old(digitizer.refused) + if !ok && error == DriverError then 1 else 0
    {
      hide Whole, InStep, PoolSize, SampleCalls;
      samplesBuffer := new Buffer(PoolSize(maxTriggers, samplesPerTrigger), samplesPerTrigger);
      error, ok, replies := FetchSamples(samplesBuffer, toAcquire);
    }

    lemma WalkStarts()
      requires Valid() && Noting()
      ensures Walking(Walked(), noted, [], 0) && Whole(markersBuffer.Unprocessed())
    {
      ProgressStarts(digitizer.markers, Walked());
      NoTimestamps();
      assert noted + [] == noted;
    }

    /** The outer loop: walk and refill until the trigger after the n-th is reached. */
    method WalkTriggers(n: nat, limit: Limit) returns (r: Result<(seq<TriggerData>, nat)>)
      requires Valid() && Noting() && n <= maxTriggers && !limit.Passed(digitizer.markersAt)
      modifies this, markersBuffer, markersBuffer.data, digitizer
      ensures Valid() && Noting() && digitizer.samplesRead == old(digitizer.samplesRead)
      ensures |old(digitizer.calls)| <= |digitizer.calls| && MarkerCalls(digitizer.calls, |old(digitizer.calls)|, n)
      ensures WalkKeeps(if r == Err(MarkersReplayed) then Failed(MarkersReplayed) else Onward)
      ensures r.Ok? ==>
                && Walking(old(Walked()), old(noted), r.value.0, r.value.1) && r.value.1 < TWO64
                && |r.value.0| == n && TriggerAt(digitizer.markers, Walked())
      ensures r.Err? && r.error in {MarkersReplayed, DummyGate, UnexpectedHeader} ==> Explains(Failed(r.error))
      ensures digitizer.refused == old(digitizer.refused) + if r == Err(DriverError) then 1 else 0
      ensures r.Err? ==> r.error != NotWholeHunks
      ensures r == Err(Timeout) <==> limit.Passed(digitizer.markersAt)
      ensures r == Err(Misaligned) ==> n == 0
    {
      hide Parse, Clean, FetchTotal, Progress, Timestamp, Timestamps, IsLatest, FirstIsLater, KindOf, Whole,
           MarkerCalls, RequestAt, Valid, Noting, Explains;
      var request: nat, multiplier: nat := n * HUNK, 1;
      var trigCount: nat, stamps, toAcquire: nat := 0, [], 0;
      ghost var start, before, firstCall := Walked(), noted, |digitizer.calls|;
      NoCallsYet(digitizer.calls, n, 0);
      WalkStarts();
      if !Whole(markersBuffer.Unprocessed()) {
        return Err(NotWholeHunks);
      }
      while trigCount <= n
        invariant Walking(start, before, stamps, toAcquire) && toAcquire < TWO64 && trigCount == |stamps| <= n
        invariant 1 <= multiplier <= MULTIPLIER_MAX && request == n * HUNK * multiplier
        invariant digitizer.samplesRead == old(digitizer.samplesRead) && digitizer.refused == old(digitizer.refused)
        invariant MarkerCalls(digitizer.calls, firstCall, n) && firstCall <= |digitizer.calls|
        invariant request == RequestAt(digitizer.calls, firstCall, |digitizer.calls|, n)
        invariant WalkKeeps(Onward) && !limit.Passed(digitizer.markersAt)
        decreases digitizer.replies
      {
        var status;
        status, trigCount, stamps, toAcquire := Walk(n, trigCount, stamps, toAcquire, start, before);
        match status
        case Failed(error) =>
          return Err(error);
        case Full =>
          return Ok((stamps, toAcquire));
        case Onward =>
          var error, ok, available;
          error, ok, request, multiplier, available := Refill(n, request, multiplier, limit, firstCall);
          if !ok {
            return Err(error);
          }
      }
      assert false;
    }

    lemma NothingIsLate(timeoutMs: nat)
      requires Valid()
      ensures !LimitOf(timeoutMs, digitizer.now).Passed(digitizer.markersAt)
    {
    }

    /**
      Reads `n` triggers and the samples of their gates. On success the result is decided by the
      marker stream alone: it is the one-pass parse from where the walk stood up to the trigger
      after the n-th, which stays unread and will be the first of the next call.
     */
    method Acquire(n: nat, timeoutMs: nat) returns (r: Result<AcquiredData>, ghost replies: seq<Reply>)
      requires Valid() && Noting() && n <= maxTriggers
      modifies this, markersBuffer, markersBuffer.data, digitizer
      ensures Valid() && Noting() && frameNoted == old(frameNoted) && frameSamples == old(frameSamples)
      ensures old(noted) <= noted && digitizer.samplesRead >= old(digitizer.samplesRead)
      ensures r.Ok? ==>
                && EndsWalk(digitizer.markers, old(Walked()), Walked(), n)
                && r.value.stamps == Parse(digitizer.markers[old(Walked())..Walked()])
                && noted == old(noted) + Timestamps(r.value.stamps)
                && fresh(r.value.samplesBuffer) && fresh(r.value.samplesBuffer.data)
                && r.value.samplesBuffer.Valid() && r.value.samplesBuffer.processedIndex == 0
                && r.value.samplesCount == samplesPerTrigger
      ensures r.Ok? ==>
                && digitizer.samplesRead == old(digitizer.samplesRead) + |r.value.samplesBuffer.Unread()|
                && |r.value.samplesBuffer.Unread()| == U64(FetchTotal(digitizer.markers[old(Walked())..Walked()]))
      ensures r.Ok? && InStep(replies) ==>
                r.value.samplesBuffer.Unread() == digitizer.samples[old(digitizer.samplesRead)..digitizer.samplesRead]
      ensures old(InFrame()) && !old(damaged) ==> InFrame()
      ensures damaged <==> old(damaged) || r == Err(MarkersReplayed)
      ensures r.Err? && r.error in {MarkersReplayed, DummyGate, UnexpectedHeader} ==>
                Explains(Failed(r.error)) && digitizer.samplesRead == old(digitizer.samplesRead)
      // what is asked of the card: marker requests that grow with the backlog, then all the samples outstanding
      ensures |old(digitizer.calls)| + |replies| <= |digitizer.calls|
      ensures var split := |digitizer.calls| - |replies|;
              && MarkerCalls(digitizer.calls[..split], |old(digitizer.calls)|, n)
              && (r.Ok? ==> SampleCalls(digitizer.calls, split, |r.value.samplesBuffer.Unread()|))
      // the other errors have their causes
      ensures digitizer.refused == old(digitizer.refused) + if r == Err(DriverError) then 1 else 0
      ensures r.Err? ==> r.error != NotWholeHunks
      ensures r == Err(Timeout) <==> timeoutMs > 0 && digitizer.markersAt > old(digitizer.now) + timeoutMs
      ensures r == Err(Misaligned) && n > 0 ==>
                && old(Walked()) <= Walked() <= |digitizer.markers| && Whole(Walked() - old(Walked()))
                && U64(FetchTotal(digitizer.markers[old(Walked())..Walked()])) >= TWO63
    {
      hide Parse, Clean, FetchTotal, Progress, Timestamp, Timestamps, IsLatest, FirstIsLater, KindOf, Whole, EndsWalk,
           U64, InStep, MarkerCalls, SampleCalls, RequestAt, Valid, Noting, Explains;
      replies := [];
      NothingIsLate(timeoutMs);
      var walked := WalkTriggers(n, LimitOf(timeoutMs, digitizer.now));
      ghost var walkedCalls := digitizer.calls;
      assert digitizer.calls[..|walkedCalls|] == walkedCalls;
      if walked.Err? {
        return Err(walked.error), replies;
      }
      var (stamps, toAcquire) := walked.value;
      WalkedAligned(digitizer.markers, old(Walked()), Walked(), stamps, toAcquire);
      NoTimestamps();
      var error, ok, samplesBuffer;
      error, ok, samplesBuffer, replies := FetchInto(toAcquire);
      assert digitizer.calls[..|walkedCalls|] == walkedCalls;
      if !ok {
        return Err(error), replies;
      }
      return Ok(AcquiredData(stamps, samplesBuffer, samplesPerTrigger)), replies;
    }
  }

  lemma RequestIsZero(triggers: nat, multiplier: nat, maxTriggers: nat)
    requires triggers <= maxTriggers && 1 <= multiplier <= MULTIPLIER_MAX
    ensures triggers == 0 ==> triggers * HUNK * multiplier == 0
    ensures triggers > 0 ==> var request := triggers * HUNK * multiplier;
                             request > 0 && Whole(request) && request + 15 <= maxTriggers * HUNK * MULTIPLIER_MAX + 15
  {
    if triggers > 0 {
      RequestFits(triggers, multiplier, maxTriggers);
    }
  }

  lemma NothingIsWhole()
    ensures Whole(0)
  {
  }

  lemma Consecutive(s: seq<Word>, a: nat, b: nat, c: nat)
    requires a <= b <= c <= |s|
    ensures s[a..b] + s[b..c] == s[a..c]
  {
  }

  /** Read as a signed count, what is outstanding is positive exactly when it is below 2^63. */
  lemma SignedView(n: nat)
    requires 0 < n < TWO64
    ensures if n < TWO63 then S64(n) == n else S64(n) < 0
  {
  }

  lemma WrapOnce(a: nat)
    requires a < TWO64
    ensures U64(a) == a
  {
  }

  lemma WrapTwice(a: nat, b: nat)
    ensures U64(U64(a) + b) == U64(a + b)
  {
    var q := a / TWO64;
    assert a == q * TWO64 + U64(a);
    assert a + b == q * TWO64 + (U64(a) + b);
  }
}
