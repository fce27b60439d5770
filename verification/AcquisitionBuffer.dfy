/** The cursor algebra over a fixed array, and the driver that fills it. */
module AcquisitionBuffer {
  import opened MachineWords

  /**
    Words land at `offset + acquiredIndex`; the unprocessed ones start at `offset + processedIndex`.
    A driver's reply may start a few words into the space it was given, which moves `offset`.
   */
  class Buffer {
    const data: array<Word>
    const samplesPerTrigger: nat
    var acquiredIndex: nat
    var processedIndex: nat
    var offset: nat

    ghost predicate Valid()
      reads this
    {
      processedIndex <= acquiredIndex && offset + acquiredIndex <= data.Length
    }

    /** What a reader of the buffer sees as acquired and not yet processed. */
    ghost function Unread(): (s: seq<Word>)
      requires Valid()
      reads this, data
      ensures |s| == acquiredIndex - processedIndex
    {
      data[offset + processedIndex..offset + acquiredIndex]
    }

    constructor (size: nat, samplesPerTrigger: nat)
      ensures Valid() && fresh(data) && data.Length == size && this.samplesPerTrigger == samplesPerTrigger
      ensures acquiredIndex == processedIndex == offset == 0
    {
      data := new Word[size](_ => 0);
      this.samplesPerTrigger := samplesPerTrigger;
      acquiredIndex, processedIndex, offset := 0, 0, 0;
    }

    function Available(): int
      reads this
    {
      data.Length - acquiredIndex - offset
    }

    function Unprocessed(): int
      reads this
    {
      acquiredIndex - processedIndex
    }

    /** Index of the first unprocessed word; and of the place for the next acquired one. */
    function RawUnprocessed(): nat
      reads this
    {
      processedIndex + offset
    }

    function RawUnacquired(): nat
      reads this
    {
      acquiredIndex + offset
    }

    /** Dropping the front of the unread words is all that processing does. */
    method AdvanceProcessed(num: nat)
      requires Valid() && processedIndex + num <= acquiredIndex
      modifies this`processedIndex
      ensures Valid() && Unread() == old(Unread())[num..]
      ensures processedIndex == old(processedIndex) + num
    {
      processedIndex := processedIndex + num;
    }

    /**
      Taking in a reply of `num` words that starts `first` words into the free space. The words
      already unread keep their places in the array but the view of them moves by `first`.
     */
    method AdvanceReply(first: nat, num: nat)
      requires Valid() && first + num <= Available()
      modifies this`offset, this`acquiredIndex
      ensures Valid() && offset == old(offset) + first && acquiredIndex == old(acquiredIndex) + num
      ensures first == 0 || old(acquiredIndex) == old(processedIndex) ==>
                Unread() == old(Unread()) + data[old(RawUnacquired()) + first..old(RawUnacquired()) + first + num]
      ensures first <= |old(Unread())| ==>
                Unread() == old(Unread())[first..] + data[old(RawUnacquired())..old(RawUnacquired()) + first + num]
    {
      offset := offset + first;
      acquiredIndex := acquiredIndex + num;
    }

    method Reset()
      modifies this`offset, this`acquiredIndex, this`processedIndex
      ensures Valid() && acquiredIndex == processedIndex == offset == 0
    {
      processedIndex := 0;
      acquiredIndex := 0;
      offset := 0;
    }
  }

  datatype Channel = Markers | Samples

  /** A fetch the card has answered: what was asked for, what it said was there, and how much came. */
  datatype Call = Call(channel: Channel, request: nat, available: nat, actual: nat)

  /** What a call's timeout makes of it: none, or the time by which it has to be done. */
  datatype Limit = NoLimit | Until(finish: nat)
  {
    predicate Passed(now: nat) {
      Until? && now > finish
    }
  }

  /** A timeout of 0 milliseconds is none. */
  function LimitOf(timeoutMs: nat, now: nat): Limit {
    if timeoutMs == 0 then NoLimit else Until(now + timeoutMs)
  }

  /**
    The card, as two streams and how far each has been read. Which multiple of 16 it returns, and
    how far into the space given the first word lies, is its choice. It answers finitely often;
    the last answer is an error, which stands for every way a real call can fail.
   */
  class Digitizer {
    const markers: seq<Word>
    const samples: seq<Word>
    var markersRead: nat
    var samplesRead: nat
    var replies: nat
    var now: nat              // the host's clock, which no call turns back
    ghost var refused: nat    // calls that ended in an error
    ghost var markersAt: nat  // when the last reply of each stream came
    ghost var samplesAt: nat
    ghost var calls: seq<Call>

    constructor (markers: seq<Word>, samples: seq<Word>, replies: nat)
      ensures Valid() && this.markers == markers && this.samples == samples
      ensures markersRead == samplesRead == 0
    {
      this.markers, this.samples, this.replies := markers, samples, replies;
      markersRead, samplesRead, now, refused, markersAt, samplesAt := 0, 0, 0, 0, 0, 0;
      calls := [];
    }

    ghost predicate Valid()
      reads this
    {
      markersRead <= |markers| && samplesRead <= |samples| && markersAt <= now && samplesAt <= now
    }

    /** The card writes `count` words into the host's buffer. */
    static method Transfer(stream: seq<Word>, read: nat, count: nat, buffer: array<Word>, at: nat)
      requires read + count <= |stream| && at + count <= buffer.Length
      modifies buffer
      ensures buffer[at..at + count] == stream[read..read + count]
      ensures forall i :: 0 <= i < at ==> buffer[i] == old(buffer[i])
    {
      forall i | at <= i < at + count {
        buffer[i] := stream[read + (i - at)];
      }
    }

    method StreamFetchData(channel: Channel, request: nat, bufferSize: nat, buffer: array<Word>, at: nat)
      returns (ok: bool, available: nat, actual: nat, first: nat)
      // what the driver demands: a strictly positive multiple of 16, and for markers the slack
      requires request > 0 && Whole(request) && (channel.Markers? ==> request + 15 <= bufferSize)
      requires Valid() && at + bufferSize <= buffer.Length
      modifies this, buffer
      ensures Valid() && replies <= old(replies) && now >= old(now)
      ensures if ok && channel.Markers? then markersAt == now else markersAt == old(markersAt)
      ensures if ok && channel.Samples? then samplesAt == now else samplesAt == old(samplesAt)
      ensures ok ==> replies < old(replies)
      ensures calls == old(calls) + if ok then [Call(channel, request, available, actual)] else []
      ensures refused == old(refused) + if ok then 0 else 1
      ensures !ok ==> markersRead == old(markersRead) && samplesRead == old(samplesRead)
      ensures !ok ==> buffer[..] == old(buffer[..])
      ensures ok ==> actual <= request && Whole(actual) && first <= 15 && first + actual <= bufferSize
      ensures ok && channel.Markers? ==>
                && samplesRead == old(samplesRead) && markersRead == old(markersRead) + actual
                && buffer[at + first..at + first + actual] == markers[old(markersRead)..markersRead]
      ensures ok && channel.Samples? ==>
                && markersRead == old(markersRead) && samplesRead == old(samplesRead) + actual
                && buffer[at + first..at + first + actual] == samples[old(samplesRead)..samplesRead]
      ensures forall i :: 0 <= i < at ==> buffer[i] == old(buffer[i])
    {
      var answers: bool, passed: nat := *, *;
      now := now + passed;
      if replies == 0 || !answers {
        refused := refused + 1;
        return false, 0, 0, 0;
      }
      replies := replies - 1;
      var stream := if channel.Markers? then markers else samples;
      var read := if channel.Markers? then markersRead else samplesRead;
      available := *;
      actual, first := 0, 0;
      var a: nat, f: nat := *, *;
      if a <= request && Whole(a) && f <= 15 && f + a <= bufferSize && read + a <= |stream| {
        actual, first := a, f;
      }
      Transfer(stream, read, actual, buffer, at + first);
      if channel.Markers? {
        markersRead, markersAt := markersRead + actual, now;
      } else {
        samplesRead, samplesAt := samplesRead + actual, now;
      }
      calls := calls + [Call(channel, request, available, actual)];
      ok := true;
    }
  }
}
