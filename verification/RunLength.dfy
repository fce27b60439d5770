/**
  The signed run-length vector as its readers see it: a negative entry skips that many bins, any
  other entry is stored in the next bin.
 */
module RunLength {

  function Advance(v: int): (n: nat)
    ensures n > 0
  {
    if v < 0 then -v else 1
  }

  /** The bin after everything in `enc`. */
  function Cursor(enc: seq<int>): nat {
    if enc == [] then 0 else Cursor(enc[..|enc| - 1]) + Advance(enc[|enc| - 1])
  }

  /** What `enc` stores in bin `b`. */
  function Value(enc: seq<int>, b: int): int {
    if enc == [] then 0
    else
      var front, last := enc[..|enc| - 1], enc[|enc| - 1];
      Value(front, b) + if last >= 0 && Cursor(front) == b then last else 0
  }

  function StoredSum(enc: seq<int>): int {
    if enc == [] then 0
    else StoredSum(enc[..|enc| - 1]) + if enc[|enc| - 1] >= 0 then enc[|enc| - 1] else 0
  }

  function StoredCount(enc: seq<int>): nat {
    if enc == [] then 0 else StoredCount(enc[..|enc| - 1]) + if enc[|enc| - 1] >= 0 then 1 else 0
  }

  /**
    `peak` is the greatest stored value, and `at` the bin of its first occurrence; both are 0 when
    nothing above 0 is stored.
   */
  ghost predicate IsPeak(enc: seq<int>, peak: int, at: int) {
    && peak >= 0
    && (forall i :: 0 <= i < |enc| ==> enc[i] <= peak)
    && (peak == 0 ==> at == 0)
    && (peak > 0 ==> exists i :: PeakAt(enc, peak, at, i))
  }

  ghost predicate PeakAt(enc: seq<int>, peak: int, at: int, i: int) {
    0 <= i < |enc| && enc[i] == peak && Cursor(enc[..i]) == at && forall j :: 0 <= j < i ==> enc[j] < peak
  }

  /** One more entry. */
  lemma Push(enc: seq<int>, v: int)
    ensures Cursor(enc + [v]) == Cursor(enc) + Advance(v)
    ensures forall b :: Value(enc + [v], b) == Value(enc, b) + if v >= 0 && Cursor(enc) == b then v else 0
    ensures StoredSum(enc + [v]) == StoredSum(enc) + if v >= 0 then v else 0
    ensures StoredCount(enc + [v]) == StoredCount(enc) + if v >= 0 then 1 else 0
  {
    assert (enc + [v])[..|enc + [v]| - 1] == enc;
  }

  /** A stored value that is no greater leaves the peak; a greater one becomes it. */
  lemma PushPeak(enc: seq<int>, peak: int, at: int, v: int)
    requires IsPeak(enc, peak, at)
    ensures v <= peak ==> IsPeak(enc + [v], peak, at)
    ensures v > peak ==> IsPeak(enc + [v], v, Cursor(enc))
  {
    hide Cursor;
    var more := enc + [v];
    if v > peak {
      assert more[..|enc|] == enc;
      assert PeakAt(more, v, Cursor(enc), |enc|);
    } else if peak > 0 {
      var i :| PeakAt(enc, peak, at, i);
      assert more[..i] == enc[..i];
      assert PeakAt(more, peak, at, i);
    }
  }

  /** A run of stored values fills consecutive bins. */
  lemma {:induction false} StoreRun(enc: seq<int>, run: seq<int>, b: int)
    requires forall i :: 0 <= i < |run| ==> run[i] >= 0
    ensures Cursor(enc + run) == Cursor(enc) + |run|
    ensures Value(enc + run, b)
         == Value(enc, b) + if Cursor(enc) <= b < Cursor(enc) + |run| then run[b - Cursor(enc)] else 0
    decreases |run|
  {
    hide Cursor, Value;
    if run == [] {
      assert enc + run == enc;
    } else {
      var front, last := run[..|run| - 1], run[|run| - 1];
      StoreRun(enc, front, b);
      Push(enc + front, last);
      assert enc + run == enc + front + [last];
    }
  }

  function Sum(run: seq<int>): int {
    if run == [] then 0 else Sum(run[..|run| - 1]) + run[|run| - 1]
  }

  /** And is counted and summed whole. */
  lemma {:induction false} StoreRunTotals(enc: seq<int>, run: seq<int>)
    requires forall i :: 0 <= i < |run| ==> run[i] >= 0
    ensures StoredCount(enc + run) == StoredCount(enc) + |run| && StoredSum(enc + run) == StoredSum(enc) + Sum(run)
    decreases |run|
  {
    hide StoredCount, StoredSum;
    if run == [] {
      assert enc + run == enc;
    } else {
      var front, last := run[..|run| - 1], run[|run| - 1];
      StoreRunTotals(enc, front);
      Push(enc + front, last);
      assert enc + run == enc + front + [last];
    }
  }

  // ----- another reader

  /** A reader that takes a 0 after a skip of 32768 for padding, and does not advance on it. */
  function PaddedCursor(enc: seq<int>): nat {
    if enc == [] then 0
    else
      var front, last := enc[..|enc| - 1], enc[|enc| - 1];
      PaddedCursor(front) + if last == 0 && front != [] && front[|front| - 1] == -32768 then 0 else Advance(last)
  }

  lemma {:induction false} ReadersAgree(enc: seq<int>)
    requires -32768 !in enc
    ensures PaddedCursor(enc) == Cursor(enc)
  {
    if enc == [] {
    } else {
      var front := enc[..|enc| - 1];
      assert forall v :: v in front ==> v in enc;
      ReadersAgree(front);
      if front != [] {
        assert front[|front| - 1] in enc;
      }
    }
  }

  // ----- fitting a vector of `size` bins

  /** No skip leaves the vector. */
  ghost predicate SkipsFit(enc: seq<int>, size: nat) {
    forall i :: 0 <= i < |enc| && enc[i] < 0 ==> Cursor(enc[..i + 1]) < size
  }

  /** Nothing is stored outside it before a skip would have left it. */
  ghost predicate StoresFit(enc: seq<int>, size: nat) {
    forall i :: 0 <= i < |enc| && enc[i] >= 0 && SkipsFit(enc[..i], size) ==> Cursor(enc[..i]) < size
  }

  /** One more entry. */
  lemma SkipsFitOne(enc: seq<int>, v: int, size: nat)
    ensures SkipsFit(enc + [v], size) <==> SkipsFit(enc, size) && (v < 0 ==> Cursor(enc) + -v < size)
  {
    hide Cursor;
    Push(enc, v);
    var more := enc + [v];
    assert more[..|enc| + 1] == more;
    forall i | 0 <= i < |enc| ensures more[i] == enc[i] && more[..i + 1] == enc[..i + 1] {
    }
    if SkipsFit(more, size) {
      assert more[|enc|] == v;
      forall i | 0 <= i < |enc| && enc[i] < 0 ensures Cursor(enc[..i + 1]) < size {
        assert more[i] < 0;
      }
    }
  }

  lemma StoresFitOne(enc: seq<int>, v: int, size: nat)
    ensures StoresFit(enc + [v], size)
       <==> StoresFit(enc, size) && (v >= 0 && SkipsFit(enc, size) ==> Cursor(enc) < size)
  {
    hide Cursor, SkipsFit;
    var more := enc + [v];
    assert more[..|enc|] == enc && more[|enc|] == v;
    forall i | 0 <= i < |enc| ensures more[i] == enc[i] && more[..i] == enc[..i] {
    }
    if StoresFit(more, size) {
      forall i | 0 <= i < |enc| && enc[i] >= 0 && SkipsFit(enc[..i], size) ensures Cursor(enc[..i]) < size {
        assert more[i] >= 0;
      }
    }
  }

  /** A run of stored values: no skip, and the last of them is the one that may not fit. */
  lemma {:induction false} FitOfRun(enc: seq<int>, run: seq<int>, size: nat)
    requires run != [] && forall i :: 0 <= i < |run| ==> run[i] >= 0
    ensures SkipsFit(enc + run, size) <==> SkipsFit(enc, size)
    ensures StoresFit(enc + run, size)
       <==> StoresFit(enc, size) && (SkipsFit(enc, size) ==> Cursor(enc) + |run| <= size)
    decreases |run|
  {
    hide SkipsFit, StoresFit, Cursor;
    var front, last := run[..|run| - 1], run[|run| - 1];
    assert enc + run == enc + front + [last];
    SkipsFitOne(enc + front, last, size);
    StoresFitOne(enc + front, last, size);
    StoreRun(enc, front, 0);
    if front == [] {
      assert enc + front == enc;
    } else {
      FitOfRun(enc, front, size);
    }
  }

  lemma NothingFits(size: nat)
    ensures SkipsFit([], size) && StoresFit([], size)
  {
  }

  function SumBins(enc: seq<int>, size: nat): int {
    if size == 0 then 0 else SumBins(enc, size - 1) + Value(enc, size - 1)
  }

  lemma {:induction false} SumBinsPush(enc: seq<int>, v: int, size: nat)
    ensures SumBins(enc + [v], size) == SumBins(enc, size) + if v >= 0 && Cursor(enc) < size then v else 0
  {
    hide Cursor, Value;
    if size == 0 {
    } else {
      SumBinsPush(enc, v, size - 1);
      Push(enc, v);
    }
  }

  lemma {:induction false} SumBinsEmpty(size: nat)
    ensures SumBins([], size) == 0
  {
    if size == 0 {
    } else {
      SumBinsEmpty(size - 1);
    }
  }

  lemma SkipsFitPrefix(enc: seq<int>, size: nat, k: nat)
    requires SkipsFit(enc, size) && k <= |enc|
    ensures SkipsFit(enc[..k], size)
  {
    forall i | 0 <= i < k && enc[..k][i] < 0 ensures Cursor(enc[..k][..i + 1]) < size {
      assert enc[..k][..i + 1] == enc[..i + 1];
    }
  }

  lemma StoresFitPrefix(enc: seq<int>, size: nat, k: nat)
    requires StoresFit(enc, size) && k <= |enc|
    ensures StoresFit(enc[..k], size)
  {
    forall i | 0 <= i < k && enc[..k][i] >= 0 && SkipsFit(enc[..k][..i], size) ensures Cursor(enc[..k][..i]) < size {
      assert enc[..k][..i] == enc[..i];
    }
  }

  /** Conservation: all that is stored is found in the bins. */
  lemma {:induction false} BinsHoldAll(enc: seq<int>, size: nat)
    requires SkipsFit(enc, size) && StoresFit(enc, size)
    ensures SumBins(enc, size) == StoredSum(enc)
  {
    if enc == [] {
      SumBinsEmpty(size);
    } else {
      var n := |enc| - 1;
      SkipsFitPrefix(enc, size, n);
      StoresFitPrefix(enc, size, n);
      BinsHoldAll(enc[..n], size);
      assert enc == enc[..n] + [enc[n]];
      SumBinsPush(enc[..n], enc[n], size);
    }
  }

  // ----- openings

  /** A stored value that starts a run: the first entry, or one right after a skip. */
  predicate Opens(enc: seq<int>, i: nat)
    requires i < |enc|
  {
    enc[i] >= 0 && (i == 0 || enc[i - 1] < 0)
  }

  function Openings(enc: seq<int>): nat {
    if enc == [] then 0 else Openings(enc[..|enc| - 1]) + if Opens(enc, |enc| - 1) then 1 else 0
  }

  function OpeningsBelow(enc: seq<int>, floor: int): nat {
    if enc == [] then 0
    else OpeningsBelow(enc[..|enc| - 1], floor)
         + if Opens(enc, |enc| - 1) && enc[|enc| - 1] < floor then 1 else 0
  }

  lemma OpeningsPush(enc: seq<int>, v: int, floor: int)
    ensures var opens := v >= 0 && (enc == [] || enc[|enc| - 1] < 0);
            && Openings(enc + [v]) == Openings(enc) + (if opens then 1 else 0)
            && OpeningsBelow(enc + [v], floor) == OpeningsBelow(enc, floor) + if opens && v < floor then 1 else 0
  {
    assert (enc + [v])[..|enc + [v]| - 1] == enc;
  }

  /** A run opens at most once, at its first value. */
  lemma {:induction false} OpeningsRun(enc: seq<int>, run: seq<int>, floor: int)
    requires run != [] && forall i :: 0 <= i < |run| ==> run[i] >= 0
    ensures var opens := enc == [] || enc[|enc| - 1] < 0;
            && Openings(enc + run) == Openings(enc) + (if opens then 1 else 0)
            && OpeningsBelow(enc + run, floor) == OpeningsBelow(enc, floor) + if opens && run[0] < floor then 1 else 0
    decreases |run|
  {
    hide Openings, OpeningsBelow;
    var front, last := run[..|run| - 1], run[|run| - 1];
    assert enc + run == enc + front + [last];
    OpeningsPush(enc + front, last, floor);
    if front == [] {
      assert enc + front == enc;
    } else {
      OpeningsRun(enc, front, floor);
      assert (enc + front)[|enc + front| - 1] == front[|front| - 1];
    }
  }
}
