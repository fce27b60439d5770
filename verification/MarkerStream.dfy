/**
  The meaning of a zero-suppress marker stream, as a one-pass parse. A hunk is 16 words: either a
  trigger, or up to four gates that belong to the trigger before them. Gates before the first
  trigger belong to nobody and are dropped.
 */
module MarkerStream {
  import opened MachineWords

  const HUNK := 16

  datatype GateData = GateData(
    startBlock: nat, startPos: nat,  // first valid sample: block, position in the block
    stopBlock: nat, stopPos: nat,    // one past the last valid sample
    elementCount: nat                // words of the samples stream
  )

  datatype TriggerData = TriggerData(timestamp: nat, index: nat, gates: seq<GateData>)

  datatype Kind = Trigger | Gates | Dummy | Unexpected

  function KindOf(hunk: seq<Word>): Kind
    requires |hunk| == HUNK
  {
    match LowOctet(hunk[0])
    case 0x01 => Trigger
    case 0x04 => Gates
    case 0x0a => Gates
    case 0x08 => Dummy
    case _ => Unexpected
  }

  /** Word 2 is sign-extended before it is shifted into place. */
  function Timestamp(hunk: seq<Word>): (t: nat)
    requires |hunk| == HUNK
  {
    U64(hunk[2] * TWO24 + AboveLow(hunk[1]))
  }

  function NewTrigger(hunk: seq<Word>): TriggerData
    requires |hunk| == HUNK
  {
    TriggerData(Timestamp(hunk), AboveLow(hunk[0]), [])
  }

  /** The plain reader's timestamp, with both words taken as unsigned. */
  function PlainTimestamp(hunk: seq<Word>): (t: nat)
    requires |hunk| == HUNK
  {
    U32(hunk[2]) * TWO24 + AboveLow(hunk[1])
  }

  /** The two readers agree on a trigger's time exactly when the top bit of its high word is clear. */
  lemma TimestampsAgree(hunk: seq<Word>)
    requires |hunk| == HUNK
    ensures Timestamp(hunk) == PlainTimestamp(hunk) <==> hunk[2] >= 0
  {
    var h, low := hunk[2] as int, AboveLow(hunk[1]);
    assert -TWO31 * TWO24 <= h * TWO24 + low < TWO31 * TWO24;
    if h < 0 {
      assert U64(h * TWO24 + low) == h * TWO24 + low + TWO64;
      assert U32(h) == h + TWO32;
    }
  }

  // ----- gates

  /** A 32-bit block index is spread over two words. */
  function BlockIndex(lo: Word, hi: Word): (b: nat)
    ensures b < TWO32
  {
    Low24(hi) * 256 + TopOctet(lo)
  }

  /** Words to fetch for a gate: four per block, rounded up to 16, in 64 bits. */
  function FetchSize(startBlock: nat, stopBlock: nat): (n: nat)
    ensures n < TWO64 && n % 16 == 0
  {
    var n := U64((stopBlock - startBlock) * 4);
    if n % 16 != 0 then U64((n / 16 + 1) * 16) else n
  }

  /** The quarter of a hunk that starts at word `q`, as a gate and as a number of words to fetch. */
  function Gate(hunk: seq<Word>, q: nat): GateData
    requires |hunk| == HUNK && q <= 12
  {
    var start := BlockIndex(hunk[q], hunk[q + 1]);
    var stop := BlockIndex(hunk[q + 2], hunk[q + 3]);
    GateData(start, TopOctet(hunk[q + 1]),
             if stop < start then stop + TWO32 - 1 else stop, TopOctet(hunk[q + 3]),
             U32(FetchSize(start, stop)))
  }

  function GateFetch(hunk: seq<Word>, q: nat): (n: nat)
    requires |hunk| == HUNK && q <= 12
    ensures n < TWO64 && n % 16 == 0
  {
    FetchSize(BlockIndex(hunk[q], hunk[q + 1]), BlockIndex(hunk[q + 2], hunk[q + 3]))
  }

  /** The gates in the first `k` quarters of a hunk. */
  function GatesOf(hunk: seq<Word>, k: nat): seq<GateData>
    requires |hunk| == HUNK && k <= 4
  {
    if k == 0 then []
    else GatesOf(hunk, k - 1) + if LowOctet(hunk[4 * (k - 1)]) == 0x04 then [Gate(hunk, 4 * (k - 1))] else []
  }

  function FetchOf(hunk: seq<Word>, k: nat): nat
    requires |hunk| == HUNK && k <= 4
  {
    if k == 0 then 0
    else FetchOf(hunk, k - 1) + if LowOctet(hunk[4 * (k - 1)]) == 0x04 then GateFetch(hunk, 4 * (k - 1)) else 0
  }

  // ----- the one-pass parse

  function AddGates(ts: seq<TriggerData>, gates: seq<GateData>): (r: seq<TriggerData>)
    ensures |r| == |ts|
  {
    if ts == [] then []
    else
      var last := ts[|ts| - 1];
      ts[|ts| - 1 := last.(gates := last.gates + gates)]
  }

  function Extend(ts: seq<TriggerData>, hunk: seq<Word>): seq<TriggerData>
    requires |hunk| == HUNK
  {
    if KindOf(hunk).Trigger? then ts + [NewTrigger(hunk)] else AddGates(ts, GatesOf(hunk, 4))
  }

  /** The triggers of a stretch of the stream, each with the gates up to the next trigger. */
  function Parse(s: seq<Word>): seq<TriggerData>
    requires Whole(|s|)
  {
    if s == [] then [] else Extend(Parse(s[..|s| - HUNK]), s[|s| - HUNK..])
  }

  /** Words of the samples stream that belong to those triggers. */
  function FetchTotal(s: seq<Word>): nat
    requires Whole(|s|)
  {
    if s == [] then 0
    else
      var front, hunk := s[..|s| - HUNK], s[|s| - HUNK..];
      FetchTotal(front) + if KindOf(hunk).Trigger? || Parse(front) == [] then 0 else FetchOf(hunk, 4)
  }

  /** Every hunk is one the walker accepts. */
  predicate Clean(s: seq<Word>)
    requires Whole(|s|)
  {
    s == [] || (Clean(s[..|s| - HUNK]) && KindOf(s[|s| - HUNK..]) in {Trigger, Gates})
  }

  /** A trigger hunk starts at `p`. */
  predicate TriggerAt(s: seq<Word>, p: nat) {
    p + HUNK <= |s| && KindOf(s[p..p + HUNK]).Trigger?
  }

  /** `p` is where the walk for `n` triggers from `a` must end: at the trigger after the n-th. */
  predicate EndsWalk(s: seq<Word>, a: nat, p: nat, n: nat) {
    && a <= p <= |s| && Whole(p - a)
    && |Parse(s[a..p])| == n && Clean(s[a..p]) && TriggerAt(s, p)
  }

  // ----- properties

  /** One more hunk. */
  lemma ParseStep(s: seq<Word>, a: nat, p: nat)
    requires a <= p && p + HUNK <= |s| && Whole(p - a)
    ensures Parse(s[a..p + HUNK]) == Extend(Parse(s[a..p]), s[p..p + HUNK])
    ensures FetchTotal(s[a..p + HUNK])
         == FetchTotal(s[a..p])
            + if KindOf(s[p..p + HUNK]).Trigger? || Parse(s[a..p]) == [] then 0 else FetchOf(s[p..p + HUNK], 4)
    ensures Clean(s[a..p + HUNK]) <==> Clean(s[a..p]) && KindOf(s[p..p + HUNK]) in {Trigger, Gates}
  {
    var w := s[a..p + HUNK];
    assert w[..|w| - HUNK] == s[a..p];
    assert w[|w| - HUNK..] == s[p..p + HUNK];
  }

  /** Cutting the stream at a trigger cuts the parse: no gate changes owner. */
  lemma {:induction false} ParseSplitsAtTrigger(s: seq<Word>, a: nat, b: nat, c: nat)
    requires a <= b <= c <= |s| && Whole(b - a) && Whole(c - b)
    requires c > b ==> TriggerAt(s, b)
    ensures Whole(c - a)
    ensures Parse(s[a..c]) == Parse(s[a..b]) + Parse(s[b..c])
    ensures c > b ==> Parse(s[b..c]) != []
    ensures Clean(s[a..c]) <==> Clean(s[a..b]) && Clean(s[b..c])
    decreases c - b
  {
    hide Parse, Clean, FetchTotal, Extend, KindOf, Whole;
    WholeHunks(a, b, c);
    if c == b {
      assert s[b..c] == [];
      EmptyParse();
    } else {
      var d := c - HUNK;
      WholeHunks(a, b, d);
      ParseSplitsAtTrigger(s, a, b, d);
      ParseStep(s, a, d);
      ParseStep(s, b, d);
      if d == b {
        assert s[b..d] == [];
        EmptyParse();
        ExtendTrigger(Parse(s[a..b]), s[d..c]);
        ExtendTrigger([], s[d..c]);
      } else {
        ExtendSize(Parse(s[b..d]), s[d..c]);
        ExtendLater(Parse(s[a..b]), Parse(s[b..d]), s[d..d + HUNK]);
      }
    }
  }

  /** And it cuts the words to fetch. */
  lemma {:induction false} FetchSplitsAtTrigger(s: seq<Word>, a: nat, b: nat, c: nat)
    requires a <= b <= c <= |s| && Whole(b - a) && Whole(c - b)
    requires c > b ==> TriggerAt(s, b)
    ensures Whole(c - a)
    ensures FetchTotal(s[a..c]) == FetchTotal(s[a..b]) + FetchTotal(s[b..c])
    decreases c - b
  {
    hide Parse, Clean, FetchTotal, FetchOf, Extend, KindOf, Whole;
    WholeHunks(a, b, c);
    EmptyParse();
    assert s[b..b] == [];
    if c == b {
    } else {
      var d := c - HUNK;
      WholeHunks(a, b, d);
      FetchSplitsAtTrigger(s, a, b, d);
      ParseSplitsAtTrigger(s, a, b, d);
      ParseStep(s, a, d);
      ParseStep(s, b, d);
    }
  }

  lemma EmptyParse()
    ensures Parse([]) == [] && Clean([]) && FetchTotal([]) == 0
  {
  }

  lemma AddNoGates(ts: seq<TriggerData>)
    ensures AddGates(ts, []) == ts
  {
    if ts != [] {
      var last := ts[|ts| - 1];
      assert last.gates + [] == last.gates;
    }
  }

  lemma AddMoreGates(ts: seq<TriggerData>, a: seq<GateData>, b: seq<GateData>)
    ensures AddGates(AddGates(ts, a), b) == AddGates(ts, a + b)
  {
    if ts != [] {
      var last := ts[|ts| - 1];
      assert (last.gates + a) + b == last.gates + (a + b);
    }
  }

  lemma ExtendTrigger(ts: seq<TriggerData>, hunk: seq<Word>)
    requires |hunk| == HUNK && KindOf(hunk).Trigger?
    ensures Extend(ts, hunk) == ts + [NewTrigger(hunk)]
  {
  }

  /** A hunk only ever touches the last trigger. */
  lemma ExtendLater(front: seq<TriggerData>, back: seq<TriggerData>, hunk: seq<Word>)
    requires |hunk| == HUNK && back != []
    ensures Extend(front + back, hunk) == front + Extend(back, hunk)
  {
  }

  /** The parse never loses triggers as the stretch grows. */
  lemma {:induction false} ParseGrows(s: seq<Word>, a: nat, b: nat, c: nat)
    requires a <= b <= c <= |s| && Whole(b - a) && Whole(c - b)
    ensures Whole(c - a)
    ensures |Parse(s[a..b])| <= |Parse(s[a..c])|
    ensures TriggerAt(s, b) && b < c ==> |Parse(s[a..b])| < |Parse(s[a..c])|
    decreases c - b
  {
    hide Parse, Extend, KindOf, Whole;
    WholeHunks(a, b, c);
    if b == c {
    } else {
      var d := c - HUNK;
      WholeHunks(a, b, d);
      ParseGrows(s, a, b, d);
      ParseStep(s, a, d);
      ExtendSize(Parse(s[a..d]), s[d..c]);
    }
  }

  /** Counting in hunks from `a` and from `b`. */
  lemma WholeHunks(a: nat, b: nat, c: nat)
    requires a <= b && Whole(b - a) && Whole(c - b)
    ensures Whole(c - a)
    ensures b < c ==> b <= c - HUNK && Whole(c - HUNK - b)
  {
  }

  lemma ExtendSize(ts: seq<TriggerData>, hunk: seq<Word>)
    requires |hunk| == HUNK
    ensures |Extend(ts, hunk)| == |ts| + if KindOf(hunk).Trigger? then 1 else 0
  {
  }

  /** There is only one place a walk can end, so what it returns does not depend on how it got there. */
  lemma {:induction false} WalkEndIsUnique(s: seq<Word>, a: nat, p: nat, q: nat, n: nat)
    requires EndsWalk(s, a, p, n) && EndsWalk(s, a, q, n)
    ensures p == q
  {
    hide Parse, Clean, KindOf, Whole;
    WholeSum(q - a, p - a);
    WholeSum(p - a, q - a);
    if p < q {
      ParseGrows(s, a, p, q);
    } else if q < p {
      ParseGrows(s, a, q, p);
    }
  }

  /** Trigger k of a parse owns exactly the gates between its hunk and the next trigger. */
  lemma {:induction false} TriggerOwnsItsGates(s: seq<Word>, a: nat, p: nat, q: nat)
    requires a <= p < q <= |s| && Whole(p - a) && Whole(q - p)
    requires TriggerAt(s, p)
    requires forall r :: p < r < q && Whole(r - p) ==> !TriggerAt(s, r)
    ensures Whole(q - a)
    ensures Parse(s[a..q]) == Parse(s[a..p]) + [TriggerData(Timestamp(s[p..p + HUNK]), AboveLow(s[p]),
                                                            GatesBetween(s, p + HUNK, q))]
    decreases q - p
  {
    hide Parse, GatesOf, Whole;
    WholeHunks(a, p, q);
    var r := q - HUNK;
    WholeHunks(a, p, r);
    ParseStep(s, a, r);
    if r == p {
    } else {
      TriggerOwnsItsGates(s, a, p, r);
      assert !TriggerAt(s, r);
    }
  }

  /** All the gates of a stretch, in stream order. */
  function GatesBetween(s: seq<Word>, p: nat, q: nat): seq<GateData>
    requires p <= q <= |s| && Whole(q - p)
    decreases q
  {
    if p == q then [] else GatesBetween(s, p, q - HUNK) + GatesOf(s[q - HUNK..q], 4)
  }

  // ----- how many words belong to a gate

  /** With the stop block not before the start block, the size is four words a block, rounded up. */
  lemma FetchSizeOrdered(start: nat, stop: nat)
    requires start <= stop < TWO32
    ensures FetchSize(start, stop) == ((stop - start) * 4 + 15) / 16 * 16
    ensures FetchSize(start, stop) < TWO32 <==> stop - start <= TWO32 / 4 - 4
  {
    var n := (stop - start) * 4;
    var q, r := n / 16, n % 16;
    assert n == 16 * q + r;
    assert U64(n) == n;
    if r != 0 {
      assert (n + 15) / 16 == q + 1;
      assert (q + 1) * 16 < TWO64;
      assert U64((q + 1) * 16) == (q + 1) * 16;
    }
  }

  lemma {:induction false} FetchOfAligned(hunk: seq<Word>, k: nat)
    requires |hunk| == HUNK && k <= 4
    ensures Whole(FetchOf(hunk, k))
  {
    if k == 0 {
    } else {
      hide GateFetch;
      FetchOfAligned(hunk, k - 1);
      WholeSum(FetchOf(hunk, k - 1), if LowOctet(hunk[4 * (k - 1)]) == 0x04 then GateFetch(hunk, 4 * (k - 1)) else 0);
    }
  }

  /** Every samples request is a multiple of 16. */
  lemma {:induction false} FetchTotalAligned(s: seq<Word>)
    requires Whole(|s|)
    ensures Whole(FetchTotal(s))
  {
    if s == [] {
    } else {
      hide FetchOf, Parse;
      var front, hunk := s[..|s| - HUNK], s[|s| - HUNK..];
      FetchTotalAligned(front);
      FetchOfAligned(hunk, 4);
      WholeSum(FetchTotal(front), if KindOf(hunk).Trigger? || Parse(front) == [] then 0 else FetchOf(hunk, 4));
    }
  }

  /** The gate's own count is the number of words fetched for it unless that needs more than 32 bits. */
  lemma CountIsFetch(hunk: seq<Word>, q: nat)
    requires |hunk| == HUNK && q <= 12
    ensures Gate(hunk, q).elementCount == GateFetch(hunk, q) <==> GateFetch(hunk, q) < TWO32
  {
    var size := FetchSize(BlockIndex(hunk[q], hunk[q + 1]), BlockIndex(hunk[q + 2], hunk[q + 3]));
    hide FetchSize, BlockIndex, TopOctet;
    TruncationKeeps(size);
  }

  lemma TruncationKeeps(n: nat)
    ensures U32(n) == n <==> n < TWO32
  {
  }

  function Elements(gates: seq<GateData>): nat {
    if gates == [] then 0 else Elements(gates[..|gates| - 1]) + gates[|gates| - 1].elementCount
  }

  function TotalElements(ts: seq<TriggerData>): nat {
    if ts == [] then 0 else TotalElements(ts[..|ts| - 1]) + Elements(ts[|ts| - 1].gates)
  }

  /** No gate of the stretch needs a count above 32 bits. */
  predicate CountsFit(s: seq<Word>)
    requires Whole(|s|)
  {
    s == [] || (CountsFit(s[..|s| - HUNK]) && (KindOf(s[|s| - HUNK..]).Trigger? || HunkFits(s[|s| - HUNK..])))
  }

  predicate HunkFits(hunk: seq<Word>)
    requires |hunk| == HUNK
  {
    forall k :: 0 <= k < 4 && LowOctet(hunk[4 * k]) == 0x04 ==> GateFetch(hunk, 4 * k) < TWO32
  }

  lemma {:induction false} ElementsAppend(a: seq<GateData>, b: seq<GateData>)
    ensures Elements(a + b) == Elements(a) + Elements(b)
  {
    if b == [] {
      assert a + b == a;
    } else {
      ElementsAppend(a, b[..|b| - 1]);
      assert (a + b)[..|a + b| - 1] == a + b[..|b| - 1];
    }
  }

  lemma {:induction false} HunkElements(hunk: seq<Word>, k: nat)
    requires |hunk| == HUNK && k <= 4 && HunkFits(hunk)
    ensures Elements(GatesOf(hunk, k)) == FetchOf(hunk, k)
  {
    if k == 0 {
    } else {
      hide Gate, GateFetch;
      HunkElements(hunk, k - 1);
      if LowOctet(hunk[4 * (k - 1)]) == 0x04 {
        CountIsFetch(hunk, 4 * (k - 1));
        var g := Gate(hunk, 4 * (k - 1));
        ElementsAppend(GatesOf(hunk, k - 1), [g]);
        assert Elements([g]) == g.elementCount by {
          assert [g][..0] == [];
        }
      } else {
        assert GatesOf(hunk, k) == GatesOf(hunk, k - 1);
      }
    }
  }

  lemma TotalAfterExtend(ts: seq<TriggerData>, hunk: seq<Word>)
    requires |hunk| == HUNK && (KindOf(hunk).Trigger? || HunkFits(hunk))
    ensures TotalElements(Extend(ts, hunk))
         == TotalElements(ts) + if KindOf(hunk).Trigger? || ts == [] then 0 else FetchOf(hunk, 4)
  {
    hide GatesOf, FetchOf, KindOf, HunkFits;
    var r := Extend(ts, hunk);
    if KindOf(hunk).Trigger? {
      assert r[..|r| - 1] == ts;
    } else if ts != [] {
      assert r[..|r| - 1] == ts[..|ts| - 1];
      HunkElements(hunk, 4);
      ElementsAppend(ts[|ts| - 1].gates, GatesOf(hunk, 4));
    }
  }

  /** Over a stretch whose counts fit, the samples to fetch are the gates' own counts added up. */
  lemma {:induction false} FetchIsElements(s: seq<Word>)
    requires Whole(|s|) && CountsFit(s)
    ensures FetchTotal(s) == TotalElements(Parse(s))
  {
    if s == [] {
    } else {
      FetchIsElements(s[..|s| - HUNK]);
      TotalAfterExtend(Parse(s[..|s| - HUNK]), s[|s| - HUNK..]);
    }
  }
}
