/**
  How the card spells triggers and gates in marker hunks, octet by octet, as a printer; and that the
  one-pass parse is its inverse.
 */
module MarkerSpelling {
  import opened MachineWords
  import opened MarkerStream

  // ----- octets and words

  type Byte = x: int | 0 <= x < 256

  /** A word from its four octets, lowest first. */
  function WordOf(a: Byte, b: Byte, c: Byte, d: Byte): (w: Word) {
    var u := a + 256 * b + 65536 * c + 16777216 * d;
    if u < 0x8000_0000 then u else u - 0x1_0000_0000
  }

  lemma FieldsOfWord(a: Byte, b: Byte, c: Byte, d: Byte)
    ensures LowOctet(WordOf(a, b, c, d)) == a && TopOctet(WordOf(a, b, c, d)) == d
    ensures AboveLow(WordOf(a, b, c, d)) == b + 256 * c + 65536 * d
    ensures Low24(WordOf(a, b, c, d)) == a + 256 * b + 65536 * c
  {
    var v := b + 256 * c + 65536 * d;
    var l := a + 256 * b + 65536 * c;
    var w := WordOf(a, b, c, d);
    var borrow := if d < 128 then 0 else 1;
    QuotientAndRemainder(w, 256, v - 0x100_0000 * borrow, a);
    QuotientAndRemainder(w, 0x100_0000, d - 256 * borrow, l);
    assert (v - 0x100_0000 * borrow) % 0x100_0000 == v;
    assert (d - 256 * borrow) % 256 == d;
  }

  /** Octet `k` of a number, lowest first. */
  function Digit(n: nat, k: nat): Byte {
    if k == 0 then n % 256 else Digit(n / 256, k - 1)
  }

  lemma ThreeDigits(n: nat)
    requires n < 0x100_0000
    ensures Digit(n, 0) + 256 * Digit(n, 1) + 65536 * Digit(n, 2) == n
  {
    assert Digit(n, 2) == Digit(n / 256, 1) == Digit(n / 256 / 256, 0);
  }

  lemma FourDigits(n: nat)
    requires n < 0x1_0000_0000
    ensures Digit(n, 0) + 256 * (Digit(n, 1) + 256 * Digit(n, 2) + 65536 * Digit(n, 3)) == n
  {
    ThreeDigits(n / 256);
    assert Digit(n, 1) == Digit(n / 256, 0) && Digit(n, 2) == Digit(n / 256, 1) && Digit(n, 3) == Digit(n / 256, 2);
  }

  lemma SevenDigits(n: nat)
    requires n < 0x80_0000_0000_0000
    ensures var low := Digit(n, 0) + 256 * Digit(n, 1) + 65536 * Digit(n, 2);
            var high := WordOf(Digit(n, 3), Digit(n, 4), Digit(n, 5), Digit(n, 6));
            n == high * 0x100_0000 + low
  {
    var high := n / 0x100_0000;
    var d1 := n / 256;
    var d2 := d1 / 256;
    assert d2 / 256 == high;
    ThreeDigits(n % 0x100_0000);
    LowDigits(n);
    FourDigits(high);
    assert high < 0x8000_0000;
    assert Digit(n, 3) == Digit(d1, 2) == Digit(d2, 1) == Digit(high, 0);
    assert Digit(n, 4) == Digit(d1, 3) == Digit(d2, 2) == Digit(high, 1);
    assert Digit(n, 5) == Digit(d1, 4) == Digit(d2, 3) == Digit(high, 2);
    assert Digit(n, 6) == Digit(d1, 5) == Digit(d2, 4) == Digit(high, 3);
  }

  lemma LowDigits(n: nat)
    ensures Digit(n % 0x100_0000, 0) == Digit(n, 0)
    ensures Digit(n % 0x100_0000, 1) == Digit(n, 1)
    ensures Digit(n % 0x100_0000, 2) == Digit(n, 2)
  {
    var q, r := n / 0x100_0000, n % 0x100_0000;
    assert n == 0x100_0000 * q + r;
    QuotientAndRemainder(n, 256, 65536 * q + r / 256, r % 256);
    var n1, r1 := n / 256, r / 256;
    QuotientAndRemainder(n1, 256, 256 * q + r1 / 256, r1 % 256);
    var n2, r2 := n1 / 256, r1 / 256;
    QuotientAndRemainder(n2, 256, q + r2 / 256, r2 % 256);
    assert Digit(n, 2) == Digit(n1, 1) == Digit(n2, 0);
    assert Digit(r, 2) == Digit(r1, 1) == Digit(r2, 0);
  }

  // ----- hunks

  /** A quarter of a gate hunk: a gate, or four words that are none. */
  datatype Quarter =
    | Blocks(startBlock: nat, startPos: Byte, stopBlock: nat, stopPos: Byte)
    | Other(words: seq<Word>)
  {
    predicate Spellable() {
      match this
      case Blocks(startBlock, _, stopBlock, _) => startBlock < TWO32 && stopBlock < TWO32
      case Other(words) => |words| == 4 && LowOctet(words[0]) != 0x04
    }
  }

  /** A trigger, with whatever the card puts in the rest of its hunk; or up to four gates. */
  datatype Hunk =
    | Fired(index: nat, time: nat, fraction: Byte, rest: seq<Word>)
    | Gated(quarters: seq<Quarter>)
  {
    predicate Spellable() {
      match this
      case Fired(index, time, _, rest) => index < TWO24 && time < TWO63 / 256 && |rest| == 13
      case Gated(quarters) =>
        && |quarters| == 4 && (forall k :: 0 <= k < 4 ==> quarters[k].Spellable())
        // a first quarter that is no gate holds the samples before or after one
        && (quarters[0].Other? ==> LowOctet(quarters[0].words[0]) == 0x0a)
    }
  }

  function SpellQuarter(q: Quarter): (s: seq<Word>)
    requires q.Spellable()
    ensures |s| == 4
  {
    match q
    case Blocks(start, startPos, stop, stopPos) =>
      [WordOf(0x04, 0, 0, Digit(start, 0)), WordOf(Digit(start, 1), Digit(start, 2), Digit(start, 3), startPos),
       WordOf(0, 0, 0, Digit(stop, 0)), WordOf(Digit(stop, 1), Digit(stop, 2), Digit(stop, 3), stopPos)]
    case Other(words) => words
  }

  function Spell(h: Hunk): (s: seq<Word>)
    requires h.Spellable()
    ensures |s| == HUNK
  {
    match h
    case Fired(index, time, fraction, rest) =>
      [WordOf(0x01, Digit(index, 0), Digit(index, 1), Digit(index, 2)),
       WordOf(fraction, Digit(time, 0), Digit(time, 1), Digit(time, 2)),
       WordOf(Digit(time, 3), Digit(time, 4), Digit(time, 5), Digit(time, 6))] + rest
    case Gated(q) => SpellQuarter(q[0]) + SpellQuarter(q[1]) + SpellQuarter(q[2]) + SpellQuarter(q[3])
  }

  function SpellAll(hunks: seq<Hunk>): (s: seq<Word>)
    requires forall h :: h in hunks ==> h.Spellable()
    ensures |s| == HUNK * |hunks|
  {
    if hunks == [] then [] else SpellAll(hunks[..|hunks| - 1]) + Spell(hunks[|hunks| - 1])
  }

  // ----- what hunks mean

  /** Four words a block, in whole hunks of words, as a 32-bit count; a stop before the start wraps in 64 bits. */
  function CountOf(startBlock: nat, stopBlock: nat): nat {
    var words := if startBlock <= stopBlock then (stopBlock - startBlock) * 4
                 else TWO64 - (startBlock - stopBlock) * 4;
    (words + 15) / 16 * 16 % TWO32
  }

  function GateOf(q: Quarter): GateData
    requires q.Blocks?
  {
    GateData(q.startBlock, q.startPos, if q.stopBlock < q.startBlock then q.stopBlock + TWO32 - 1 else q.stopBlock,
             q.stopPos, CountOf(q.startBlock, q.stopBlock))
  }

  function GatesIn(quarters: seq<Quarter>): seq<GateData> {
    if quarters == [] then []
    else GatesIn(quarters[..|quarters| - 1])
         + if quarters[|quarters| - 1].Blocks? then [GateOf(quarters[|quarters| - 1])] else []
  }

  /** Gates belong to the trigger before them, and to nobody when there is none. */
  function Meaning(hunks: seq<Hunk>): seq<TriggerData> {
    if hunks == [] then []
    else
      var before := Meaning(hunks[..|hunks| - 1]);
      match hunks[|hunks| - 1]
      case Fired(index, time, _, _) => before + [TriggerData(time, index, [])]
      case Gated(quarters) =>
        if before == [] then []
        else
          var last := before[|before| - 1];
          before[..|before| - 1] + [TriggerData(last.timestamp, last.index, last.gates + GatesIn(quarters))]
  }

  // ----- parsing inverts spelling

  lemma BlockOfWords(block: nat, x: Byte, y: Byte, z: Byte, pos: Byte)
    requires block < TWO32
    ensures var lo := WordOf(x, y, z, Digit(block, 0));
            var hi := WordOf(Digit(block, 1), Digit(block, 2), Digit(block, 3), pos);
            BlockIndex(lo, hi) == block && TopOctet(hi) == pos
  {
    hide WordOf, Digit, Low24, TopOctet;
    FieldsOfWord(x, y, z, Digit(block, 0));
    FieldsOfWord(Digit(block, 1), Digit(block, 2), Digit(block, 3), pos);
    FourDigits(block);
  }

  lemma CountOfFetch(start: nat, stop: nat)
    requires start < TWO32 && stop < TWO32
    ensures U32(FetchSize(start, stop)) == CountOf(start, stop)
  {
    var words := if start <= stop then (stop - start) * 4 else TWO64 - (start - stop) * 4;
    WrapDown((stop - start) * 4, words);
    var q, r := words / 16, words % 16;
    assert words == 16 * q + r;
    if r == 0 {
      QuotientAndRemainder(words + 15, 16, q, 15);
      assert U64(words) == words;
    } else {
      QuotientAndRemainder(words + 15, 16, q + 1, r - 1);
      assert (q + 1) * 16 <= TWO64;
      Wrap32((q + 1) * 16);
    }
  }

  lemma WrapDown(n: int, m: nat)
    requires m < TWO64 && (m == n || m == n + TWO64)
    ensures U64(n) == m
  {
  }

  lemma Wrap32(n: nat)
    requires n <= TWO64
    ensures U32(U64(n)) == n % TWO32
  {
  }

  lemma GateOfQuarter(hunk: seq<Word>, at: nat, q: Quarter)
    requires |hunk| == HUNK && at <= 12 && q.Spellable() && hunk[at..at + 4] == SpellQuarter(q)
    ensures LowOctet(hunk[at]) == 0x04 <==> q.Blocks?
    ensures q.Blocks? ==> Gate(hunk, at) == GateOf(q)
  {
    var s := SpellQuarter(q);
    assert hunk[at] == s[0] && hunk[at + 1] == s[1] && hunk[at + 2] == s[2] && hunk[at + 3] == s[3];
    if q.Blocks? {
      FieldsOfWord(0x04, 0, 0, Digit(q.startBlock, 0));
      BlockOfWords(q.startBlock, 0x04, 0, 0, q.startPos);
      BlockOfWords(q.stopBlock, 0, 0, 0, q.stopPos);
      CountOfFetch(q.startBlock, q.stopBlock);
      hide WordOf, Digit, LowOctet, TopOctet, BlockIndex, FetchSize, CountOf, U32;
    }
  }

  /** Four words to a quarter. */
  lemma QuarterOfHunk(hunk: seq<Word>, quarters: seq<Quarter>, k: nat)
    requires |hunk| == HUNK && k < 4
    requires Gated(quarters).Spellable() && hunk == Spell(Gated(quarters))
    ensures quarters[k].Spellable() && hunk[4 * k..4 * k + 4] == SpellQuarter(quarters[k])
  {
    hide SpellQuarter;
    FourParts(SpellQuarter(quarters[0]), SpellQuarter(quarters[1]), SpellQuarter(quarters[2]),
              SpellQuarter(quarters[3]));
  }

  lemma FourParts(a: seq<Word>, b: seq<Word>, c: seq<Word>, d: seq<Word>)
    requires |a| == |b| == |c| == |d| == 4
    ensures (a + b + c + d)[0..4] == a && (a + b + c + d)[4..8] == b
    ensures (a + b + c + d)[8..12] == c && (a + b + c + d)[12..16] == d
  {
  }

  lemma {:induction false} GatesOfSpelled(quarters: seq<Quarter>, k: nat)
    requires Gated(quarters).Spellable() && k <= 4
    ensures GatesOf(Spell(Gated(quarters)), k) == GatesIn(quarters[..k])
  {
    hide Spell, SpellQuarter, Gate, GateOf, LowOctet;
    if k == 0 {
    } else {
      GatesOfSpelled(quarters, k - 1);
      QuarterOfHunk(Spell(Gated(quarters)), quarters, k - 1);
      GateOfQuarter(Spell(Gated(quarters)), 4 * (k - 1), quarters[k - 1]);
      assert quarters[..k][..k - 1] == quarters[..k - 1];
    }
  }

  /** The header octet decides what a hunk is, whatever the rest of it. */
  lemma HeaderDecides(hunk: seq<Word>, header: Byte, b: Byte, c: Byte, d: Byte)
    requires |hunk| == HUNK && hunk[0] == WordOf(header, b, c, d)
    ensures KindOf(hunk).Trigger? <==> header == 0x01
    ensures KindOf(hunk).Gates? <==> header == 0x04 || header == 0x0a
    ensures KindOf(hunk).Dummy? <==> header == 0x08
  {
    FieldsOfWord(header, b, c, d);
  }

  lemma TriggerOfSpelled(h: Hunk)
    requires h.Fired? && h.Spellable()
    ensures KindOf(Spell(h)).Trigger? && NewTrigger(Spell(h)) == TriggerData(h.time, h.index, [])
    ensures PlainTimestamp(Spell(h)) == h.time
  {
    var s := Spell(h);
    FieldsOfWord(0x01, Digit(h.index, 0), Digit(h.index, 1), Digit(h.index, 2));
    FieldsOfWord(h.fraction, Digit(h.time, 0), Digit(h.time, 1), Digit(h.time, 2));
    ThreeDigits(h.index);
    SevenDigits(h.time);
    hide WordOf, Digit, LowOctet, AboveLow, U64;
    WrapDown(h.time, h.time);
    assert s[2] >= 0;
    TimestampsAgree(s);
  }

  lemma HunkOfSpelled(h: Hunk, before: seq<TriggerData>)
    requires h.Spellable()
    ensures KindOf(Spell(h)).Trigger? <==> h.Fired?
    ensures KindOf(Spell(h)) in {Trigger, Gates}
    ensures h.Fired? ==> Extend(before, Spell(h)) == before + [TriggerData(h.time, h.index, [])]
    ensures h.Gated? ==> Extend(before, Spell(h)) == AddGates(before, GatesIn(h.quarters))
  {
    match h
    case Fired(_, _, _, _) =>
      TriggerOfSpelled(h);
    case Gated(quarters) =>
      var s := Spell(h);
      QuarterOfHunk(s, quarters, 0);
      GateOfQuarter(s, 0, quarters[0]);
      assert s[0] == s[0..4][0];
      assert LowOctet(s[0]) == 0x04 || LowOctet(s[0]) == 0x0a;
      hide Spell, SpellQuarter, GatesOf, GatesIn, LowOctet;
      GatesOfSpelled(quarters, 4);
      assert quarters[..4] == quarters;
  }

  /** The parse of any spelled stream is what the hunks mean, whatever lies in the words that say nothing. */
  lemma {:induction false} ParseOfSpelled(hunks: seq<Hunk>)
    requires forall h :: h in hunks ==> h.Spellable()
    ensures Whole(|SpellAll(hunks)|) && Clean(SpellAll(hunks))
    ensures Parse(SpellAll(hunks)) == Meaning(hunks)
  {
    hide Spell, Extend, KindOf, GatesIn;
    if hunks == [] {
    } else {
      var front, h := hunks[..|hunks| - 1], hunks[|hunks| - 1];
      ParseOfSpelled(front);
      var s := SpellAll(hunks);
      assert s[..|s| - HUNK] == SpellAll(front) && s[|s| - HUNK..] == Spell(h);
      HunkOfSpelled(h, Meaning(front));
    }
  }

  // ----- printing a list of triggers

  /** A gate the card can describe, with its blocks in order and the count that belongs to them. */
  predicate PrintableGate(g: GateData) {
    && g.startBlock <= g.stopBlock < TWO32 && g.startPos < 256 && g.stopPos < 256
    && g.elementCount == CountOf(g.startBlock, g.stopBlock)
  }

  predicate Printable(ts: seq<TriggerData>) {
    forall t :: t in ts ==>
      t.index < TWO24 && t.timestamp < TWO63 / 256 && forall g :: g in t.gates ==> PrintableGate(g)
  }

  function Nothing(n: nat): (s: seq<Word>)
    ensures |s| == n && forall i :: 0 <= i < n ==> s[i] == 0
  {
    seq(n, i => 0)
  }

  function QuarterOf(gates: seq<GateData>, k: nat): (q: Quarter)
    requires forall g :: g in gates ==> PrintableGate(g)
    ensures q.Spellable() && (q.Blocks? <==> k < |gates|)
  {
    if k < |gates| then
      assert PrintableGate(gates[k]);
      Blocks(gates[k].startBlock, gates[k].startPos, gates[k].stopBlock, gates[k].stopPos)
    else Other(Nothing(4))
  }

  /** Four gates to a hunk, and the quarters of the last one that are left over say nothing. */
  function HunksOfGates(gates: seq<GateData>): (hunks: seq<Hunk>)
    requires forall g :: g in gates ==> PrintableGate(g)
    ensures forall h :: h in hunks ==> h.Spellable()
    decreases |gates|
  {
    if gates == [] then []
    else
      var quarters := [QuarterOf(gates, 0), QuarterOf(gates, 1), QuarterOf(gates, 2), QuarterOf(gates, 3)];
      [Gated(quarters)] + HunksOfGates(if |gates| <= 4 then [] else gates[4..])
  }

  function HunksOf(ts: seq<TriggerData>): (hunks: seq<Hunk>)
    requires Printable(ts)
    ensures forall h :: h in hunks ==> h.Spellable()
  {
    if ts == [] then []
    else
      var t := ts[|ts| - 1];
      HunksOf(ts[..|ts| - 1]) + [Fired(t.index, t.timestamp, 0, Nothing(13))] + HunksOfGates(t.gates)
  }

  lemma FourGates(gates: seq<GateData>)
    requires gates != [] && forall g :: g in gates ==> PrintableGate(g)
    ensures GatesIn([QuarterOf(gates, 0), QuarterOf(gates, 1), QuarterOf(gates, 2), QuarterOf(gates, 3)])
         == if |gates| <= 4 then gates else gates[..4]
  {
    var q0, q1, q2, q3 := QuarterOf(gates, 0), QuarterOf(gates, 1), QuarterOf(gates, 2), QuarterOf(gates, 3);
    hide CountOf;
    assert [q0][..0] == [] && [q0, q1][..1] == [q0] && [q0, q1, q2][..2] == [q0, q1];
    assert [q0, q1, q2, q3][..3] == [q0, q1, q2];
    forall k | 0 <= k < 4 && k < |gates| ensures GateOf(QuarterOf(gates, k)) == gates[k] {
      assert gates[k] in gates;
    }
    hide GateOf, QuarterOf;
    assert GatesIn([]) == [];
    assert GatesIn([q0]) == if q0.Blocks? then [GateOf(q0)] else [];
    assert GatesIn([q0, q1]) == GatesIn([q0]) + if q1.Blocks? then [GateOf(q1)] else [];
    assert GatesIn([q0, q1, q2]) == GatesIn([q0, q1]) + if q2.Blocks? then [GateOf(q2)] else [];
  }

  lemma MeaningPush(hunks: seq<Hunk>, h: Hunk)
    ensures h.Fired? ==> Meaning(hunks + [h]) == Meaning(hunks) + [TriggerData(h.time, h.index, [])]
    ensures h.Gated? ==> Meaning(hunks + [h]) == AddGates(Meaning(hunks), GatesIn(h.quarters))
  {
    hide GatesIn;
    assert (hunks + [h])[..|hunks + [h]| - 1] == hunks;
  }

  lemma {:induction false} MeaningOfGates(hunks: seq<Hunk>, gates: seq<GateData>)
    requires Meaning(hunks) != [] && forall g :: g in gates ==> PrintableGate(g)
    ensures Meaning(hunks + HunksOfGates(gates)) == AddGates(Meaning(hunks), gates)
    decreases |gates|
  {
    hide Meaning, GatesIn, PrintableGate, AddGates, QuarterOf;
    if gates == [] {
      AddNoGates(Meaning(hunks));
      assert hunks + HunksOfGates(gates) == hunks;
    } else {
      var first, rest := if |gates| <= 4 then gates else gates[..4], if |gates| <= 4 then [] else gates[4..];
      var h := HunksOfGates(gates)[0];
      FourGates(gates);
      MeaningPush(hunks, h);
      MeaningOfGates(hunks + [h], rest);
      AddMoreGates(Meaning(hunks), first, rest);
      assert first + rest == gates;
      assert hunks + HunksOfGates(gates) == hunks + [h] + HunksOfGates(rest);
    }
  }

  lemma {:induction false} MeaningOfHunks(ts: seq<TriggerData>)
    requires Printable(ts)
    ensures Meaning(HunksOf(ts)) == ts
  {
    hide Meaning, HunksOfGates, PrintableGate;
    if ts == [] {
      NothingMeant();
    } else {
      var front, t := ts[..|ts| - 1], ts[|ts| - 1];
      MeaningOfHunks(front);
      var fired := Fired(t.index, t.timestamp, 0, Nothing(13));
      MeaningPush(HunksOf(front), fired);
      MeaningOfGates(HunksOf(front) + [fired], t.gates);
      assert [] + t.gates == t.gates;
    }
  }

  lemma NothingMeant()
    ensures Meaning([]) == []
  {
  }

  /** Printing and parsing: every list of triggers the card can describe comes back. */
  lemma ParseOfPrinted(ts: seq<TriggerData>)
    requires Printable(ts)
    ensures Whole(|SpellAll(HunksOf(ts))|) && Parse(SpellAll(HunksOf(ts))) == ts
  {
    ParseOfSpelled(HunksOf(ts));
    MeaningOfHunks(ts);
  }

  /** The stream spells these hunks from `a` on, and a trigger hunk comes after them. */
  predicate SpelledAt(s: seq<Word>, a: nat, hunks: seq<Hunk>, next: Hunk)
    requires (forall h :: h in hunks ==> h.Spellable()) && next.Spellable() && next.Fired?
  {
    SpellAll(hunks) + Spell(next) <= s[if a < |s| then a else |s|..]
  }

  /** A walk over such a stretch ends behind it, and what it returns is what the hunks mean. */
  lemma WalkReadsSpelled(s: seq<Word>, a: nat, p: nat, n: nat, hunks: seq<Hunk>, next: Hunk)
    requires (forall h :: h in hunks ==> h.Spellable()) && next.Spellable() && next.Fired?
    requires SpelledAt(s, a, hunks, next) && |Meaning(hunks)| == n && EndsWalk(s, a, p, n)
    ensures p == a + |SpellAll(hunks)| && Parse(s[a..p]) == Meaning(hunks)
  {
    hide SpellAll, Spell, Meaning, Parse, Clean, KindOf, Whole;
    var q := a + |SpellAll(hunks)|;
    var code := SpellAll(hunks) + Spell(next);
    assert s[a..][..|code|] == code;
    assert s[a..q] == code[..|SpellAll(hunks)|] == SpellAll(hunks);
    assert s[q..q + HUNK] == code[|SpellAll(hunks)|..] == Spell(next);
    ParseOfSpelled(hunks);
    HunkOfSpelled(next, []);
    WalkEndIsUnique(s, a, p, q, n);
  }
}
