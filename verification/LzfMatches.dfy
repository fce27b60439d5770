/**
  Which matches the compressor takes, as a property of the tokens it writes: a position is written
  as a literal only when the latest position entered with the same hash is no match, and a reference
  goes to that position and is as long as it can be.
 */
module LzfMatches {
  import opened LzfFormat

  // ----- hashing three octets

  function Three(input: seq<Octet>, p: nat): nat
    requires p + 2 < |input|
  {
    input[p] as int * 65536 + input[p + 1] as int * 256 + input[p + 2] as int
  }

  /** The hash function looks at the last three octets read only. */
  ghost predicate OfThree(index: nat -> nat) {
    forall h: nat :: LooksAtThree(index, h)
  }

  predicate LooksAtThree(index: nat -> nat, h: nat) {
    index(h) == index(h % 0x100_0000)
  }

  function Slot(index: nat -> nat, input: seq<Octet>, p: nat): nat
    requires p + 2 < |input|
  {
    index(Three(input, p))
  }

  // ----- which positions enter the table

  /** All positions of a run, and of a match its first and its last two. */
  function Marks(t: Token): (marks: seq<bool>)
    ensures |marks| == t.Size()
    ensures forall i :: 0 <= i < |marks| ==> (marks[i] <==> t.Literal? || i == 0 || i >= t.Size() - 2)
  {
    seq(t.Size(), i => t.Literal? || i == 0 || i >= t.Size() - 2)
  }

  function AllMarks(ts: seq<Token>): seq<bool> {
    if ts == [] then [] else AllMarks(ts[..|ts| - 1]) + Marks(ts[|ts| - 1])
  }

  function Trues(n: nat): (marks: seq<bool>)
    ensures |marks| == n && forall i :: 0 <= i < n ==> marks[i]
  {
    seq(n, i => true)
  }

  /** The latest marked position in `slot`; 0 when there is none, or it is the very first. */
  function Latest(index: nat -> nat, input: seq<Octet>, marks: seq<bool>, slot: nat): (p: nat)
    requires |marks| + 2 <= |input|
    ensures p < |marks| || p == 0
  {
    if marks == [] then 0
    else
      var p := |marks| - 1;
      if marks[p] && Slot(index, input, p) == slot then p else Latest(index, input, marks[..p], slot)
  }

  /** That is what it is. */
  lemma {:induction false} LatestIsLatest(index: nat -> nat, input: seq<Octet>, marks: seq<bool>, slot: nat, q: nat)
    requires |marks| + 2 <= |input| && q < |marks| && marks[q] && Slot(index, input, q) == slot
    ensures var p := Latest(index, input, marks, slot);
            q <= p < |marks| && (p > 0 ==> marks[p] && Slot(index, input, p) == slot)
  {
    var n := |marks| - 1;
    if marks[n] && Slot(index, input, n) == slot {
    } else {
      LatestIsLatest(index, input, marks[..n], slot, q);
    }
  }

  lemma LatestOfMore(index: nat -> nat, input: seq<Octet>, marks: seq<bool>, mark: bool, slot: nat)
    requires |marks| + 3 <= |input|
    ensures Latest(index, input, marks + [mark], slot)
         == if mark && Slot(index, input, |marks|) == slot then |marks| else Latest(index, input, marks, slot)
  {
    assert (marks + [mark])[..|marks|] == marks;
  }

  lemma {:induction false} LatestOfInside(index: nat -> nat, input: seq<Octet>, marks: seq<bool>, n: nat, slot: nat)
    requires |marks| + n + 2 <= |input|
    ensures Latest(index, input, marks + Falses(n), slot) == Latest(index, input, marks, slot)
  {
    hide Latest;
    if n == 0 {
      assert marks + Falses(n) == marks;
    } else {
      LatestOfInside(index, input, marks, n - 1, slot);
      LatestOfMore(index, input, marks + Falses(n - 1), false, slot);
      assert marks + Falses(n) == marks + Falses(n - 1) + [false];
    }
  }

  function Falses(n: nat): (marks: seq<bool>)
    ensures |marks| == n && forall i :: 0 <= i < n ==> !marks[i]
  {
    seq(n, i => false)
  }

  // ----- the choice at each position

  predicate SameOctets(input: seq<Octet>, c: nat, p: nat)
    requires c <= p && p + 2 < |input|
  {
    input[c] == input[p] && input[c + 1] == input[p + 1] && input[c + 2] == input[p + 2]
  }

  /** Where the match at the next position would have to be. */
  function Candidate(index: nat -> nat, input: seq<Octet>, marks: seq<bool>): (c: nat)
    requires |marks| + 2 < |input|
    ensures c < |marks| || c == 0
  {
    Latest(index, input, marks, Slot(index, input, |marks|))
  }

  /** It is none: never at the start of the input, nor too far back, and all three octets must agree. */
  predicate Declined(index: nat -> nat, input: seq<Octet>, marks: seq<bool>)
    requires |marks| + 2 < |input|
  {
    var p, c := |marks|, Candidate(index, input, marks);
    c == 0 || p - c > MAX_OFF || !SameOctets(input, c, p)
  }

  /** It is one, and the reference is as long as the limits let it be. */
  predicate Taken(index: nat -> nat, input: seq<Octet>, marks: seq<bool>, distance: nat, length: nat) {
    var p := |marks|;
    && p + 2 < |input| && !Declined(index, input, marks)
    && distance == p - Candidate(index, input, marks)
    && 3 <= length <= MAX_REF && p + length <= |input|
    && (length < MAX_REF && p + length + 2 < |input| ==> input[p + length] != input[p + length - distance])
  }

  /** The literals of a run that begins after `marks`; the last two positions of the input are never hashed. */
  predicate RunDeclined(index: nat -> nat, input: seq<Octet>, marks: seq<bool>, n: nat) {
    forall i :: 0 <= i < n && |marks| + i + 2 < |input| ==> Declined(index, input, marks + Trues(i))
  }

  /** A run follows another only when that one is full. */
  predicate MayRun(ts: seq<Token>) {
    ts != [] && ts[|ts| - 1].Literal? ==> |ts[|ts| - 1].run| == MAX_LIT
  }

  /** `t` is what the table dictates after `ts`. */
  predicate Chooses(index: nat -> nat, input: seq<Octet>, ts: seq<Token>, t: Token) {
    if t.Literal? then RunDeclined(index, input, AllMarks(ts), |t.run|) && MayRun(ts)
    else Taken(index, input, AllMarks(ts), t.distance, t.length)
  }

  /** Every choice in a token list is the one the table dictates, and runs are as long as they can be. */
  predicate Greedy(index: nat -> nat, input: seq<Octet>, ts: seq<Token>) {
    ts == [] || (Greedy(index, input, ts[..|ts| - 1]) && Chooses(index, input, ts[..|ts| - 1], ts[|ts| - 1]))
  }

  // ----- the same while the compressor is at work

  /** `lit` literals are open after `tokens`, and `ip` octets are dealt with. */
  ghost predicate Chosen(index: nat -> nat, input: seq<Octet>, tokens: seq<Token>, ip: nat, lit: nat) {
    && Greedy(index, input, tokens) && MayRun(tokens)
    && lit <= ip && |AllMarks(tokens)| == ip - lit
    && RunDeclined(index, input, AllMarks(tokens), lit)
  }

  function MarksSoFar(tokens: seq<Token>, lit: nat): seq<bool> {
    AllMarks(tokens) + Trues(lit)
  }

  lemma NothingChosen(index: nat -> nat, input: seq<Octet>)
    ensures Chosen(index, input, [], 0, 0) && MarksSoFar([], 0) == []
  {
  }

  lemma MarksPush(ts: seq<Token>, t: Token)
    ensures AllMarks(ts + [t]) == AllMarks(ts) + Marks(t)
  {
    assert (ts + [t])[..|ts + [t]| - 1] == ts;
  }

  lemma GreedyPush(index: nat -> nat, input: seq<Octet>, ts: seq<Token>, t: Token)
    ensures Greedy(index, input, ts + [t]) <==> Greedy(index, input, ts) && Chooses(index, input, ts, t)
  {
    assert (ts + [t])[..|ts + [t]| - 1] == ts;
  }

  /** Stopping the open run. */
  lemma ChosenRun(index: nat -> nat, input: seq<Octet>, tokens: seq<Token>, ip: nat, run: seq<Octet>)
    requires Chosen(index, input, tokens, ip, |run|) && run != []
    ensures Greedy(index, input, tokens + [Literal(run)])
    ensures AllMarks(tokens + [Literal(run)]) == MarksSoFar(tokens, |run|)
  {
    hide Greedy, RunDeclined;
    GreedyPush(index, input, tokens, Literal(run));
    MarksPush(tokens, Literal(run));
    assert Marks(Literal(run)) == Trues(|run|);
  }

  /** One more literal. */
  lemma ChosenLiteral(index: nat -> nat, input: seq<Octet>, tokens: seq<Token>, ip: nat, lit: nat)
    requires Chosen(index, input, tokens, ip, lit)
    requires ip + 2 < |input| ==> Declined(index, input, MarksSoFar(tokens, lit))
    ensures Chosen(index, input, tokens, ip + 1, lit + 1)
    ensures MarksSoFar(tokens, lit + 1) == MarksSoFar(tokens, lit) + [true]
  {
    hide Greedy, Declined, AllMarks;
    assert Trues(lit + 1) == Trues(lit) + [true];
  }

  /** A full run is stopped and the next one is empty. */
  lemma ChosenFull(index: nat -> nat, input: seq<Octet>, tokens: seq<Token>, ip: nat, run: seq<Octet>)
    requires Chosen(index, input, tokens, ip, |run|) && |run| == MAX_LIT
    ensures Chosen(index, input, tokens + [Literal(run)], ip, 0)
    ensures MarksSoFar(tokens + [Literal(run)], 0) == MarksSoFar(tokens, |run|)
  {
    hide Greedy, Declined;
    ChosenRun(index, input, tokens, ip, run);
  }

  /** A match after the run is stopped. */
  lemma ChosenMatch(index: nat -> nat, input: seq<Octet>, tokens: seq<Token>, ip: nat, distance: nat, length: nat)
    requires Greedy(index, input, tokens) && |AllMarks(tokens)| == ip
    requires Taken(index, input, AllMarks(tokens), distance, length)
    ensures Chosen(index, input, tokens + [Reference(distance, length)], ip + length, 0)
    ensures MarksSoFar(tokens + [Reference(distance, length)], 0)
         == AllMarks(tokens) + [true] + Falses(length - 3) + [true] + [true]
  {
    hide Greedy, Declined, Taken;
    var t := Reference(distance, length);
    TakenLength(index, input, AllMarks(tokens), distance, length);
    GreedyPush(index, input, tokens, t);
    MarksPush(tokens, t);
    assert Marks(t) == [true] + Falses(length - 3) + [true] + [true];
    assert Trues(0) == [];
  }

  lemma TakenLength(index: nat -> nat, input: seq<Octet>, marks: seq<bool>, distance: nat, length: nat)
    requires Taken(index, input, marks, distance, length)
    ensures 3 <= length <= MAX_REF
  {
  }

  // ----- the table

  /** The table holds the latest position entered in every slot. */
  ghost predicate TableIs(index: nat -> nat, input: seq<Octet>, marks: seq<bool>, table: seq<nat>) {
    |marks| + 2 <= |input| && forall h :: 0 <= h < |table| ==> table[h] == Latest(index, input, marks, h)
  }

  lemma EmptyTable(index: nat -> nat, input: seq<Octet>, table: seq<nat>)
    requires |input| >= 2 && forall h :: 0 <= h < |table| ==> table[h] == 0
    ensures TableIs(index, input, [], table)
  {
  }

  lemma TableEnter(index: nat -> nat, input: seq<Octet>, marks: seq<bool>, table: seq<nat>)
    requires TableIs(index, input, marks, table) && |marks| + 2 < |input|
    requires Slot(index, input, |marks|) < |table|
    ensures TableIs(index, input, marks + [true], table[Slot(index, input, |marks|) := |marks|])
  {
    hide Latest, Slot;
    var after := table[Slot(index, input, |marks|) := |marks|];
    forall h | 0 <= h < |after| ensures after[h] == Latest(index, input, marks + [true], h) {
      LatestOfMore(index, input, marks, true, h);
    }
  }

  lemma TablePass(index: nat -> nat, input: seq<Octet>, marks: seq<bool>, table: seq<nat>, n: nat)
    requires TableIs(index, input, marks, table) && |marks| + n + 2 <= |input|
    ensures TableIs(index, input, marks + Falses(n), table)
  {
    hide Latest;
    forall h | 0 <= h < |table| ensures table[h] == Latest(index, input, marks + Falses(n), h) {
      LatestOfInside(index, input, marks, n, h);
    }
  }

  // ----- what it is good for: a run of equal octets

  predicate AllEqual(input: seq<Octet>) {
    forall i :: 0 <= i < |input| ==> input[i] == input[0]
  }

  /** From the third position on there is always a match, one octet back. */
  lemma EqualIsNotDeclined(index: nat -> nat, input: seq<Octet>, marks: seq<bool>)
    requires AllEqual(input) && 2 <= |marks| && |marks| + 2 < |input| && marks[|marks| - 1]
    ensures Candidate(index, input, marks) == |marks| - 1 && !Declined(index, input, marks)
  {
    var p := |marks|;
    assert input[p - 1] == input[p] == input[p + 1] == input[p + 2] == input[0];
    assert Three(input, p - 1) == Three(input, p);
  }

  lemma LastIsMarked(ts: seq<Token>)
    requires ts != [] && ts[|ts| - 1].WellFormed()
    ensures AllMarks(ts) != [] && AllMarks(ts)[|AllMarks(ts)| - 1]
  {
  }

  lemma NoRunInside(index: nat -> nat, input: seq<Octet>, ts: seq<Token>, n: nat)
    requires AllEqual(input) && ts != [] && ts[|ts| - 1].WellFormed() && n > 0
    requires RunDeclined(index, input, AllMarks(ts), n) && |AllMarks(ts)| >= 2
    ensures |AllMarks(ts)| + 2 >= |input|
  {
    hide Declined, AllMarks;
    LastIsMarked(ts);
    if |AllMarks(ts)| + 2 < |input| {
      assert AllMarks(ts) + Trues(0) == AllMarks(ts);
      EqualIsNotDeclined(index, input, AllMarks(ts));
    }
  }

  lemma FirstRun(index: nat -> nat, input: seq<Octet>, n: nat)
    requires AllEqual(input) && RunDeclined(index, input, [], n) && |input| >= 5
    ensures n <= 2
  {
    hide Declined;
    if n > 2 {
      assert [] + Trues(2) == Trues(2);
      EqualIsNotDeclined(index, input, Trues(2));
    }
  }

  /** A reference in a run of equal octets starts at the third at the earliest, and takes all it can. */
  lemma EqualReference(index: nat -> nat, input: seq<Octet>, marks: seq<bool>, distance: nat, length: nat)
    requires AllEqual(input) && Taken(index, input, marks, distance, length)
    ensures |marks| >= 2 && |marks| + 2 < |input| && (length == MAX_REF || |marks| + length + 2 >= |input|)
  {
  }

  /** The spelling so far, when `r` references have been written. */
  ghost predicate EqualCost(n: nat, ts: seq<Token>, p: nat, r: nat)
    requires Expansion(ts).Some?
  {
    var cost := |EncodeAll(ts)|;
    if r == 0 then
      && |ts| <= 1 && (p <= 2 || n <= 4)
      && if ts == [] then p == cost == 0 else ts[0].Literal? && cost == p + 1
    else
      && MAX_REF * (r - 1) + 4 < n && ts != []
      && if ts[|ts| - 1].Reference? then cost <= 3 + 3 * r && (p == 2 + MAX_REF * r || p + 2 >= n)
         else cost <= 6 + 3 * r && |ts[|ts| - 1].run| <= 2 && p + 2 >= n
  }

  lemma {:induction false} CostOfEqual(index: nat -> nat, input: seq<Octet>, ts: seq<Token>, p: nat) returns (r: nat)
    requires AllEqual(input) && Greedy(index, input, ts)
    requires p <= |input| && Expansion(ts) == Some(input[..p])
    ensures |AllMarks(ts)| == p && EqualCost(|input|, ts, p, r)
  {
    hide AllEqual, RunDeclined, Taken;
    if ts == [] {
      r := 0;
    } else {
      var front, last := ts[..|ts| - 1], ts[|ts| - 1];
      var before := Expansion(front).value;
      ApplyGrows(before, last);
      var q := |before|;
      assert before == input[..q];
      r := CostOfEqual(index, input, front, q);
      match last
      case Literal(run) =>
        if front == [] {
          if |input| >= 5 {
            FirstRun(index, input, |run|);
          }
        } else if r > 0 {
          NoRunInside(index, input, front, |run|);
        }
      case Reference(distance, length) =>
        EqualReference(index, input, AllMarks(front), distance, length);
        r := r + 1;
    }
  }

  lemma ApplyGrows(out: seq<Octet>, t: Token)
    requires t.WellFormed() && Apply(out, t).Some?
    ensures out <= Apply(out, t).value && |Apply(out, t).value| == |out| + t.Size()
  {
    match t
    case Literal(_) =>
    case Reference(distance, length) => CopyBackRepeats(out, distance, length);
  }

  /** Equal octets take three octets for every 264 and nine at most besides. */
  lemma EqualOctetsAreShort(index: nat -> nat, input: seq<Octet>, ts: seq<Token>)
    requires AllEqual(input) && Greedy(index, input, ts) && Expansion(ts) == Some(input)
    ensures |EncodeAll(ts)| <= 3 * (|input| / MAX_REF) + 9
  {
    hide Greedy, AllEqual, Expansion, EncodeAll;
    assert input[..|input|] == input;
    var r := CostOfEqual(index, input, ts, |input|);
  }
}
