/** The pusher period, as the median of consecutive timestamp differences, and the record size. */
module TofTimingInformation {
  import opened MachineWords

  // ----- selection

  /** What `nth_element` promises: a rearrangement with the `k`-th smallest at `k`. */
  ghost predicate Selected(before: seq<nat>, after: seq<nat>, k: nat) {
    && multiset(after) == multiset(before) && k < |after|
    && (forall i :: 0 <= i < k ==> after[i] <= after[k])
    && (forall i :: k < i < |after| ==> after[k] <= after[i])
  }

  method SmallestFrom(a: array<nat>, i: nat) returns (m: nat)
    requires i < a.Length
    ensures i <= m < a.Length && forall q :: i <= q < a.Length ==> a[m] <= a[q]
  {
    m := i;
    for j := i + 1 to a.Length
      invariant i <= m < a.Length
      invariant forall q :: i <= q < j ==> a[m] <= a[q]
    {
      if a[j] < a[m] {
        m := j;
      }
    }
  }

  /** The first `i` places hold the `i` smallest values, in order. */
  ghost predicate SmallestFirst(s: seq<nat>, i: nat) {
    forall p, q :: 0 <= p < i && p < q < |s| ==> s[p] <= s[q]
  }

  lemma SwapKeepsSmallest(s: seq<nat>, i: nat, m: nat)
    requires i <= m < |s| && SmallestFirst(s, i) && forall q :: i <= q < |s| ==> s[m] <= s[q]
    ensures SmallestFirst(s[i := s[m]][m := s[i]], i + 1)
    ensures multiset(s[i := s[m]][m := s[i]]) == multiset(s)
  {
  }

  /** One way to keep that promise: put the smallest of the rest in place, up to `k`. */
  method NthElement(a: array<nat>, k: nat)
    requires k < a.Length
    modifies a
    ensures Selected(old(a[..]), a[..], k)
  {
    hide SmallestFirst;
    var i := 0;
    NothingSmallest(a[..]);
    while i <= k
      invariant i <= k + 1 && multiset(a[..]) == old(multiset(a[..]))
      invariant SmallestFirst(a[..], i)
    {
      var m := SmallestFrom(a, i);
      SwapKeepsSmallest(a[..], i, m);
      ghost var swapped := a[..][i := a[m]][m := a[i]];
      a[i], a[m] := a[m], a[i];
      assert a[..] == swapped;
      i := i + 1;
    }
    SmallestIsSelected(old(a[..]), a[..], k);
  }

  lemma NothingSmallest(s: seq<nat>)
    ensures SmallestFirst(s, 0)
  {
  }

  lemma SmallestIsSelected(before: seq<nat>, s: seq<nat>, k: nat)
    requires k < |s| && SmallestFirst(s, k + 1) && multiset(s) == multiset(before)
    ensures Selected(before, s, k)
  {
  }

  // ----- counting

  function CountBelow(s: seq<nat>, x: nat): nat {
    if s == [] then 0 else CountBelow(s[..|s| - 1], x) + if s[|s| - 1] < x then 1 else 0
  }

  function CountAbove(s: seq<nat>, x: nat): nat {
    if s == [] then 0 else CountAbove(s[..|s| - 1], x) + if s[|s| - 1] > x then 1 else 0
  }

  /** Fewer than half of the values lie below `lo` or above `hi`. */
  predicate MinorityOutside(d: seq<nat>, lo: nat, hi: nat) {
    2 * (CountBelow(d, lo) + CountAbove(d, hi)) < |d|
  }

  function Without(s: seq<nat>, i: nat): seq<nat>
    requires i < |s|
  {
    s[..i] + s[i + 1..]
  }

  lemma {:induction false} CountWithout(s: seq<nat>, i: nat, x: nat)
    requires i < |s|
    ensures CountBelow(s, x) == CountBelow(Without(s, i), x) + if s[i] < x then 1 else 0
    ensures CountAbove(s, x) == CountAbove(Without(s, i), x) + if s[i] > x then 1 else 0
    decreases |s|
  {
    var n := |s| - 1;
    if i == n {
      assert Without(s, i) == s[..n];
    } else {
      CountWithout(s[..n], i, x);
      assert Without(s, i)[..n - 1] == Without(s[..n], i);
    }
  }

  /** Rearranging does not change the counts. */
  lemma {:induction false} CountRearranged(s: seq<nat>, t: seq<nat>, x: nat)
    requires multiset(s) == multiset(t)
    ensures CountBelow(s, x) == CountBelow(t, x) && CountAbove(s, x) == CountAbove(t, x)
    decreases |s|
  {
    assert |s| == |multiset(s)| == |multiset(t)| == |t|;
    if s == [] {
    } else {
      var n := |s| - 1;
      var v := s[n];
      assert v in multiset(t);
      var i :| 0 <= i < |t| && t[i] == v;
      assert s == s[..n] + [v];
      assert t == t[..i] + [v] + t[i + 1..];
      assert multiset(s[..n]) == multiset(s) - multiset{v};
      assert multiset(Without(t, i)) == multiset(t) - multiset{v};
      CountRearranged(s[..n], Without(t, i), x);
      CountWithout(t, i, x);
    }
  }

  lemma {:induction false} AllBelow(s: seq<nat>, x: nat, k: nat)
    requires k <= |s| && forall i :: 0 <= i < k ==> s[i] < x
    ensures CountBelow(s, x) >= k
  {
    if k == 0 {
    } else {
      AllBelow(s[..|s| - 1], x, if k == |s| then k - 1 else k);
    }
  }

  lemma {:induction false} AllAbove(s: seq<nat>, x: nat, k: nat)
    requires k <= |s| && forall i :: k <= i < |s| ==> s[i] > x
    ensures CountAbove(s, x) >= |s| - k
  {
    if |s| == k {
    } else {
      AllAbove(s[..|s| - 1], x, k);
    }
  }

  /**
    Robustness, for every way of selecting: when strictly fewer than half of the values lie
    outside a band, the selected middle lies inside it.
   */
  lemma MiddleIsRobust(before: seq<nat>, after: seq<nat>, lo: nat, hi: nat)
    requires before != [] && Selected(before, after, |before| / 2)
    requires lo <= hi && MinorityOutside(before, lo, hi)
    ensures lo <= after[|before| / 2] <= hi
  {
    assert |after| == |multiset(after)| == |multiset(before)| == |before|;
    var k := |before| / 2;
    CountRearranged(before, after, lo);
    CountRearranged(before, after, hi);
    if after[k] < lo {
      AllBelow(after, lo, k + 1);
    }
    if after[k] > hi {
      AllAbove(after, hi, k);
    }
  }

  lemma OneValue(v: nat, x: nat)
    ensures CountBelow([v], x) == (if v < x then 1 else 0) && CountAbove([v], x) == if v > x then 1 else 0
  {
    assert [v][..|[v]| - 1] == [];
  }

  /** Half is too many: of two differences, one bad one above the band is returned. */
  lemma HalfIsTooMany(good: nat, bad: nat)
    requires good < bad
    ensures var before := [good, bad];
            && 2 * (CountBelow(before, good) + CountAbove(before, good)) == |before|
            && Selected(before, before, |before| / 2) && before[|before| / 2] == bad
  {
    var before := [good, bad];
    OneValue(good, good);
    assert before[..|before| - 1] == [good];
  }

  // ----- the measurement

  /** Subtraction of unsigned timestamps. */
  function Since(earlier: int, later: int): nat {
    U64(later - earlier)
  }

  /** Consecutive differences, wrapping below zero to about 2^64. */
  function Differences(ts: seq<nat>): (d: seq<nat>)
    requires |ts| >= 1
    ensures |d| == |ts| - 1 && forall i :: 0 <= i < |d| ==> d[i] == Since(ts[i], ts[i + 1])
  {
    if |ts| == 1 then []
    else Differences(ts[..|ts| - 1]) + [Since(ts[|ts| - 2], ts[|ts| - 1])]
  }

  /** For stamps that rise evenly every difference is the step. */
  lemma {:induction false} EvenStamps(ts: seq<nat>, step: nat)
    requires |ts| >= 1 && step < TWO64 && Rises(ts, step)
    ensures forall d :: d in Differences(ts) ==> d == step
  {
    forall i | 0 <= i < |ts| - 1 ensures Differences(ts)[i] == step {
      assert Differences(ts)[i] == Since(ts[i], ts[i + 1]);
    }
  }

  predicate Rises(ts: seq<nat>, step: nat) {
    forall i :: 0 <= i < |ts| - 1 ==> ts[i + 1] == ts[i] + step
  }

  /** `v` is the `k`-th smallest: no more than `k` values are below it, and no more than the rest above. */
  predicate IsKth(d: seq<nat>, k: nat, v: nat) {
    v in d && CountBelow(d, v) <= k && CountAbove(d, v) <= |d| - 1 - k
  }

  lemma {:induction false} FewBelow(s: seq<nat>, x: nat, k: nat)
    requires k <= |s| && forall i :: k <= i < |s| ==> s[i] >= x
    ensures CountBelow(s, x) <= k
  {
    if |s| == k {
      AtMostAll(s, x);
    } else {
      FewBelow(s[..|s| - 1], x, k);
    }
  }

  lemma {:induction false} FewAbove(s: seq<nat>, x: nat, k: nat)
    requires k <= |s| && forall i :: 0 <= i < k ==> s[i] <= x
    ensures CountAbove(s, x) <= |s| - k
  {
    if k == 0 {
      AtMostAll(s, x);
    } else {
      FewAbove(s[..|s| - 1], x, if k == |s| then k - 1 else k);
    }
  }

  lemma {:induction false} AtMostAll(s: seq<nat>, x: nat)
    ensures CountBelow(s, x) <= |s| && CountAbove(s, x) <= |s|
  {
    if s == [] {
    } else {
      AtMostAll(s[..|s| - 1], x);
    }
  }

  lemma SelectedIsKth(before: seq<nat>, after: seq<nat>, k: nat)
    requires k < |before| && Selected(before, after, k)
    ensures k < |after| && IsKth(before, k, after[k])
  {
    assert |after| == |multiset(after)| == |multiset(before)| == |before|;
    assert after[k] in multiset(after);
    CountRearranged(before, after, after[k]);
    FewBelow(after, after[k], k);
    FewAbove(after, after[k], k + 1);
  }

  datatype Measured = Period(samples: nat) | NotEnough(stamps: nat)

  method TriggerPeriodSamples(timestamps: seq<nat>) returns (r: Measured)
    ensures |timestamps| < 2 <==> r == NotEnough(|timestamps|)
    ensures |timestamps| >= 2 ==>
              r.Period? && IsKth(Differences(timestamps), |Differences(timestamps)| / 2, r.samples)
    ensures forall step: nat :: |timestamps| >= 2 && step < TWO64 && Rises(timestamps, step) ==> r == Period(step)
    ensures |timestamps| >= 2 ==>
              forall lo: nat, hi: nat ::
                lo <= hi && MinorityOutside(Differences(timestamps), lo, hi) ==> lo <= r.samples <= hi
  {
    if |timestamps| < 2 {
      return NotEnough(|timestamps|);
    }
    var differences := new nat[|timestamps| - 1](_ => 0);
    for i := 0 to |timestamps| - 1
      invariant forall j :: 0 <= j < i ==> differences[j] == Since(timestamps[j], timestamps[j + 1])
    {
      differences[i] := Since(timestamps[i], timestamps[i + 1]);
    }
    ghost var before := differences[..];
    ghost var d := Differences(timestamps);
    forall j | 0 <= j < |d| ensures before[j] == d[j] {
      assert before[j] == differences[j] == Since(timestamps[j], timestamps[j + 1]) == d[j];
    }
    assert before == d;
    var middle := differences.Length / 2;
    NthElement(differences, middle);
    ghost var after := differences[..];
    forall lo: nat, hi: nat | lo <= hi && MinorityOutside(before, lo, hi)
      ensures lo <= after[middle] <= hi
    {
      MiddleIsRobust(before, after, lo, hi);
    }
    SelectedIsKth(before, after, middle);
    forall step: nat | step < TWO64 && Rises(timestamps, step) ensures after[middle] == step {
      EvenStamps(timestamps, step);
    }
    return Period(differences[middle]);
  }

  // ----- the record size

  datatype Sizes = Sizes(delay: nat, record: nat, rearm: nat) | LeavesNoRecord

  function OptimalRecordSize(width: nat, delay: nat, rearm: nat): Sizes {
    if width <= delay + rearm then LeavesNoRecord
    else
      var record := width - delay - rearm;
      Sizes(delay, if record % 32 != 0 then record / 32 * 32 else record, rearm)
  }

  /**
    The record is the longest multiple of 32 that fits between delay and rearm. The guard does not
    promise a record: one of 1 to 31 samples passes it and is rounded down to none.
   */
  lemma RecordIsLongest(width: nat, delay: nat, rearm: nat)
    ensures var s := OptimalRecordSize(width, delay, rearm);
            && (s.LeavesNoRecord? <==> width <= delay + rearm)
            && (s.Sizes? ==> && s.record % 32 == 0
                             && s.delay + s.record + s.rearm <= width < s.delay + s.record + s.rearm + 32)
            && (s.Sizes? && s.record > 0 <==> width >= delay + rearm + 32)
  {
    if width > delay + rearm {
      var record := width - delay - rearm;
      assert record == record / 32 * 32 + record % 32;
    }
  }
}
