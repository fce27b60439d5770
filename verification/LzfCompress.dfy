/**
  `lzf_compress` in its built configuration: 16 hash bits, VERY_FAST, the table cleared first and
  holding offsets from the start of the input. The hash function is a parameter, because the table
  only proposes candidates; `LzfIndex` is the one that is built.
 */
module LzfCompress {
  import opened LzfFormat
  import opened LzfMatches
  import opened MachineWords

  const HSIZE := 0x1_0000

  /** FRST and NEXT: the last octets read, in 32 bits. */
  function First(input: seq<Octet>, ip: nat): nat
    requires ip + 1 < |input|
  {
    input[ip] as int * 256 + input[ip + 1] as int
  }

  function Shift(hval: nat, input: seq<Octet>, ip: nat): nat
    requires ip + 2 < |input|
  {
    hval * 256 % 0x1_0000_0000 + input[ip + 2] as int
  }

  /** IDX for VERY_FAST; the subtraction wraps, and the mask keeps the low 16 bits. */
  function LzfIndex(hval: nat): (i: nat)
    ensures i < HSIZE
  {
    (hval / 256 - hval * 5) % HSIZE
  }

  /**
    The state between two steps: `tokens` are written and end where the header of the open run is
    reserved, `lit` octets of that run are in place, and what is written has paid for itself.
   */
  ghost predicate Emitted(out: seq<Octet>, input: seq<Octet>, tokens: seq<Token>, op: int, ip: int, lit: int) {
    && 0 <= lit <= ip <= |input|
    && 0 <= op - lit - 1 <= |out|
    && Expansion(tokens) == Some(input[..ip - lit])
    && EncodeAll(tokens) == out[..op - lit - 1]
    && (lit > 0 ==> op <= |out| && out[op - lit..op] == input[ip - lit..ip])
    && 32 * (op - lit - 1) <= 33 * (ip - lit)
  }

  /** A closed stream: everything up to `op` spells `tokens`, which expand to the input up to `ip`. */
  ghost predicate Closed(out: seq<Octet>, input: seq<Octet>, tokens: seq<Token>, op: int, ip: int) {
    && 0 <= op <= |out| && 0 <= ip <= |input|
    && Expansion(tokens) == Some(input[..ip])
    && EncodeAll(tokens) == out[..op]
  }

  /** The tokens once the open run is stopped. */
  ghost function Stopped(tokens: seq<Token>, input: seq<Octet>, ip: nat, lit: nat): seq<Token>
    requires lit <= ip <= |input|
  {
    if lit == 0 then tokens else tokens + [Literal(input[ip - lit..ip])]
  }

  lemma NothingIsEmitted(out: seq<Octet>, input: seq<Octet>)
    requires out != []
    ensures Emitted(out, input, [], 1, 0, 0)
  {
  }

  /** At the end of the input the whole of it is spelled, in at least one octet. */
  lemma AllIsSpelled(out: seq<Octet>, input: seq<Octet>, tokens: seq<Token>, op: int)
    requires input != [] && Closed(out, input, tokens, op, |input|)
    ensures 0 < op <= |out| && Expansion(tokens) == Some(input) && EncodeAll(tokens) == out[..op]
  {
    assert input[..|input|] == input;
  }

  lemma RunIsSpelled(out: seq<Octet>, base: nat, run: seq<Octet>)
    requires 1 <= |run| <= MAX_LIT && base + 1 + |run| <= |out|
    requires out[base + 1..base + 1 + |run|] == run
    ensures out[base := |run| - 1][..base + 1 + |run|] == out[..base] + Encode(Literal(run))
  {
  }

  lemma SlicesJoin(s: seq<Octet>, mid: nat, hi: nat)
    requires mid <= hi <= |s|
    ensures s[..mid] + s[mid..hi] == s[..hi]
  {
  }

  lemma RunExtends(tokens: seq<Token>, run: seq<Octet>, out: seq<Octet>, code: seq<Octet>)
    requires 1 <= |run| <= MAX_LIT && Expansion(tokens) == Some(out) && EncodeAll(tokens) == code
    ensures Expansion(tokens + [Literal(run)]) == Some(out + run)
    ensures EncodeAll(tokens + [Literal(run)]) == code + Encode(Literal(run))
  {
    EncodeAppend(tokens, Literal(run));
  }

  lemma RunIsStopped(out: seq<Octet>, op: nat, lit: nat, input: seq<Octet>, ip: nat, tokens: seq<Token>)
    requires lit <= MAX_LIT && op - lit - 1 < |out|
    requires Emitted(out, input, tokens, op, ip, lit)
    ensures Closed(out[op - lit - 1 := (lit - 1) % 256], input, Stopped(tokens, input, ip, lit),
                   if lit == 0 then op - 1 else op, ip)
  {
    hide Expansion, EncodeAll, Encode;
    var base := op - lit - 1;
    if lit == 0 {
      assert out[base := 255][..base] == out[..base];
    } else {
      var run := input[ip - lit..ip];
      assert out[base + 1..base + 1 + |run|] == run;
      RunIsSpelled(out, base, run);
      RunExtends(tokens, run, input[..ip - lit], out[..base]);
      SlicesJoin(input, ip - lit, ip);
    }
  }

  /** Writes the header of the open run, or gives its place back when the run is empty. */
  method StopRun(output: array<Octet>, op: nat, lit: nat, input: seq<Octet>, ip: nat, ghost tokens: seq<Token>)
    returns (op': nat)
    requires lit <= MAX_LIT && op - lit - 1 < output.Length
    requires Emitted(output[..], input, tokens, op, ip, lit)
    modifies output
    ensures op' == if lit == 0 then op - 1 else op
    ensures Closed(output[..], input, Stopped(tokens, input, ip, lit), op', ip)
  {
    hide Expansion, EncodeAll;
    RunIsStopped(output[..], op, lit, input, ip, tokens);
    ghost var after := output[..][op - lit - 1 := (lit - 1) % 256];
    output[op - lit - 1] := (lit - 1) % 256;
    op' := if lit == 0 then op - 1 else op;
    assert output[..] == after;
  }

  /** Opens the next run just after a closed stream. */
  lemma StartRun(out: seq<Octet>, input: seq<Octet>, tokens: seq<Token>, op: int, ip: int)
    requires Closed(out, input, tokens, op, ip) && 32 * op <= 33 * ip
    ensures Emitted(out, input, tokens, op + 1, ip, 0)
  {
  }

  lemma LiteralIsEmitted(out: seq<Octet>, op: nat, lit: nat, input: seq<Octet>, ip: nat, tokens: seq<Token>)
    requires op < |out| && ip < |input|
    requires Emitted(out, input, tokens, op, ip, lit)
    ensures Emitted(out[op := input[ip]], input, tokens, op + 1, ip + 1, lit + 1)
  {
    hide Expansion, EncodeAll;
    var base := op - lit - 1;
    var after := out[op := input[ip]];
    assert after[..base] == out[..base];
    assert after[op - lit..op + 1] == out[op - lit..op] + [input[ip]];
    assert input[ip - lit..ip + 1] == input[ip - lit..ip] + [input[ip]];
  }

  /** One more literal octet; a run of 32 is stopped and a new one started. */
  method PutLiteral(output: array<Octet>, op: nat, lit: nat, input: seq<Octet>, ip: nat, ghost tokens: seq<Token>)
    returns (op': nat, lit': nat, ghost tokens': seq<Token>)
    requires lit < MAX_LIT && op < output.Length && ip < |input|
    requires Emitted(output[..], input, tokens, op, ip, lit)
    modifies output
    ensures Emitted(output[..], input, tokens', op', ip + 1, lit')
    ensures if lit + 1 == MAX_LIT then op' == op + 2 && lit' == 0 else op' == op + 1 && lit' == lit + 1
    ensures tokens' == if lit + 1 == MAX_LIT then Stopped(tokens, input, ip + 1, MAX_LIT) else tokens
  {
    hide Expansion, EncodeAll;
    LiteralIsEmitted(output[..], op, lit, input, ip, tokens);
    ghost var after := output[..][op := input[ip]];
    output[op] := input[ip];
    op', lit', tokens' := op + 1, lit + 1, tokens;
    assert output[..] == after;
    if lit' == MAX_LIT {
      tokens' := Stopped(tokens, input, ip + 1, lit');
      op' := StopRun(output, op', lit', input, ip + 1, tokens);
      StartRun(output[..], input, tokens', op', ip + 1);
      op', lit' := op' + 1, 0;
    }
  }

  /** The `len` octets at `ref` are those at `ip`. */
  ghost predicate Same(input: seq<Octet>, ref: nat, ip: nat, len: nat)
  {
    ref <= ip && ip + len <= |input| && input[ref..ref + len] == input[ip..ip + len]
  }

  lemma SameStep(input: seq<Octet>, ref: nat, ip: nat, len: nat)
    requires Same(input, ref, ip, len) && ip + len < |input| && input[ref + len] == input[ip + len]
    ensures Same(input, ref, ip, len + 1)
  {
    assert input[ref..ref + len + 1] == input[ref..ref + len] + [input[ref + len]];
    assert input[ip..ip + len + 1] == input[ip..ip + len] + [input[ip + len]];
  }

  lemma SameThree(input: seq<Octet>, ref: nat, ip: nat)
    requires ref < ip && ip + 2 < |input| && SameOctets(input, ref, ip)
    ensures Same(input, ref, ip, 3)
  {
  }

  /** The unrolled compares: sixteen octets after the third, or up to the first that differs. */
  method CompareSixteen(input: seq<Octet>, ref: nat, ip: nat) returns (len: nat, differs: bool)
    requires Same(input, ref, ip, 3) && ip + 18 < |input|
    ensures 3 <= len <= 18 && Same(input, ref, ip, len)
    ensures differs ==> input[ref + len] != input[ip + len]
    ensures !differs ==> len == 18 && Same(input, ref, ip, 19)
  {
    hide Same;
    len := 2;
    var unrolled := 0;
    while unrolled < 16
      invariant 0 <= unrolled <= 16 && len == 2 + unrolled
      invariant Same(input, ref, ip, len + 1)
      invariant len > 2 ==> Same(input, ref, ip, len)
    {
      len := len + 1;
      SameIsInside(input, ref, ip, len);
      if input[ref + len] != input[ip + len] {
        return len, true;
      }
      SameStep(input, ref, ip, len);
      unrolled := unrolled + 1;
    }
    return len, false;
  }

  lemma SameIsInside(input: seq<Octet>, ref: nat, ip: nat, len: nat)
    requires Same(input, ref, ip, len)
    ensures ref <= ip && ip + len <= |input|
  {
  }

  /**
    The length of the match at `ip`, given its first three octets: sixteen compares without
    testing the limit when more than 16 are allowed, then one by one. Never past the input, and
    as long as the limit lets it be.
   */
  method ExtendMatch(input: seq<Octet>, ref: nat, ip: nat) returns (len: nat)
    requires Same(input, ref, ip, 3)
    ensures 3 <= len <= MAX_REF && ip + len <= |input|
    ensures Same(input, ref, ip, len)
    ensures len < MAX_REF && ip + len + 2 < |input| ==> input[ref + len] != input[ip + len]
  {
    SameIsInside(input, ref, ip, 3);
    hide Same;
    len := 2;
    var maxlen := |input| - ip - len;
    maxlen := if maxlen > MAX_REF then MAX_REF else maxlen;
    if maxlen > 16 {
      var differs;
      len, differs := CompareSixteen(input, ref, ip);
      if differs {
        return;
      }
    }
    len := len + 1;
    while len < maxlen && input[ref + len] == input[ip + len]
      invariant 3 <= len <= MAX_REF && ip + len <= |input|
      invariant Same(input, ref, ip, len)
    {
      SameStep(input, ref, ip, len);
      len := len + 1;
    }
  }

  /** A match of `len` octets that the limits do not let be longer. */
  predicate IsLongest(input: seq<Octet>, ref: nat, ip: nat, len: nat) {
    && 3 <= len <= MAX_REF && ref <= ip && ip + len <= |input|
    && (len < MAX_REF && ip + len + 2 < |input| ==> input[ref + len] != input[ip + len])
  }

  /** The input up to the end of a match is what copying back produces. */
  lemma MatchIsCopy(input: seq<Octet>, ref: nat, ip: nat, len: nat)
    requires ref < ip && ip + len <= |input|
    requires Same(input, ref, ip, len)
    ensures CopyBack(input[..ip], ip - ref, len) == input[..ip + len]
  {
    assert input[..ip + len][..ip] == input[..ip];
    forall k | ip <= k < ip + len ensures input[k] == input[k - (ip - ref)] {
      assert input[ip..ip + len][k - ip] == input[ref..ref + len][k - ip];
    }
    CopyBackIsUnique(input[..ip], ip - ref, len, input[..ip + len]);
  }

  lemma ReferenceIsClosed(before: seq<Octet>, after: seq<Octet>, op: nat, off: nat, len: nat,
                          input: seq<Octet>, ip: nat, tokens: seq<Token>)
    requires off < MAX_OFF && 3 <= len <= MAX_REF && off < ip && ip + len <= |input|
    requires Same(input, ip - (off + 1), ip, len)
    requires Closed(before, input, tokens, op, ip)
    requires op + |Encode(Reference(off + 1, len))| <= |after| && after[..op] == before[..op]
    requires after[op..op + |Encode(Reference(off + 1, len))|] == Encode(Reference(off + 1, len))
    ensures Closed(after, input, tokens + [Reference(off + 1, len)], op + |Encode(Reference(off + 1, len))|, ip + len)
  {
    hide Expansion, EncodeAll;
    var t := Reference(off + 1, len);
    MatchIsCopy(input, ip - (off + 1), ip, len);
    EncodeAppend(tokens, t);
    var next := op + |Encode(t)|;
    assert after[..next] == after[..op] + after[op..next];
  }

  /** The two or three octets of a back reference; the source's `len` is by then two less. */
  method WriteReference(output: array<Octet>, op: nat, off: nat, len: nat)
    requires off < MAX_OFF && 3 <= len <= MAX_REF && op + 3 < output.Length
    modifies output
    ensures var code := Encode(Reference(off + 1, len));
            && output[..op] == old(output[..op])
            && output[op..op + |code|] == code
            && output[op + |code|..] == old(output[op + |code|..])
  {
    var o, count := op, len - 2;
    if count < 7 {
      output[o] := off / 256 + count * 32;
      o := o + 1;
    } else {
      output[o] := off / 256 + 7 * 32;
      o := o + 1;
      output[o] := count - 7;
      o := o + 1;
    }
    output[o] := off % 256;
  }

  /** Writes a back reference of `len` octets, `off + 1` octets back, after a closed stream. */
  method PutReference(output: array<Octet>, op: nat, off: nat, len: nat,
                      input: seq<Octet>, ip: nat, ghost tokens: seq<Token>)
    returns (op': nat)
    requires off < MAX_OFF && 3 <= len <= MAX_REF && off < ip && ip + len <= |input| && op + 3 < output.Length
    requires Same(input, ip - (off + 1), ip, len)
    requires Closed(output[..], input, tokens, op, ip)
    modifies output
    ensures op' == if len < 9 then op + 2 else op + 3
    ensures Closed(output[..], input, tokens + [Reference(off + 1, len)], op', ip + len)
  {
    hide Expansion, EncodeAll;
    ghost var before := output[..];
    WriteReference(output, op, off, len);
    op' := if len < 9 then op + 2 else op + 3;
    ReferenceIsClosed(before, output[..], op, off, len, input, ip, tokens);
  }

  /**
    Ends the open run with a match of at least three octets at `ref`, and starts the next run.
    `ok` is false, and nothing is written, when fewer than four octets would be left.
   */
  method PutMatch(output: array<Octet>, op: nat, lit: nat, input: seq<Octet>, ip: nat, ref: nat,
                  ghost tokens: seq<Token>)
    returns (ok: bool, op': nat, ip': nat, ghost tokens': seq<Token>)
    requires lit < MAX_LIT && ref < ip && ip - ref - 1 < MAX_OFF && ip + 2 < |input|
    requires Same(input, ref, ip, 3)
    requires Emitted(output[..], input, tokens, op, ip, lit)
    modifies output
    ensures ok <==> (if lit == 0 then op - 1 else op) + 4 < output.Length
    ensures !ok ==> op' == op && ip' == ip
    ensures ok ==> Emitted(output[..], input, tokens', op', ip', 0) && ip + 3 <= ip' <= |input|
    ensures ok ==> tokens' == Stopped(tokens, input, ip, lit) + [Reference(ip - ref, ip' - ip)]
    ensures ok ==> IsLongest(input, ref, ip, ip' - ip)
  {
    hide Expansion, EncodeAll, Same;
    var off := ip - ref - 1;
    op', ip', tokens' := op, ip, tokens;
    if op' + 3 + 1 >= output.Length {
      if (if lit == 0 then op' - 1 else op') + 3 + 1 >= output.Length {
        return false, op', ip', tokens';
      }
    }
    op' := StopRun(output, op', lit, input, ip, tokens);
    tokens' := Stopped(tokens, input, ip, lit);
    var len := ExtendMatch(input, ref, ip);
    op' := PutReference(output, op', off, len, input, ip, tokens');
    tokens' := tokens' + [Reference(off + 1, len)];
    ip' := ip + len;
    StartRun(output[..], input, tokens', op', ip');
    return true, op' + 1, ip', tokens';
  }

  /** The last two octets at most, which no match can cover, and the end of the last run. */
  method PutTail(output: array<Octet>, op0: nat, lit0: nat, input: seq<Octet>, start: nat, ghost tokens0: seq<Token>,
                 ghost index: nat -> nat)
    returns (op: nat, ghost tokens: seq<Token>)
    requires lit0 < MAX_LIT && |input| - 2 <= start && op0 + 3 <= output.Length
    requires Emitted(output[..], input, tokens0, op0, start, lit0)
    modifies output
    ensures Closed(output[..], input, tokens, op, |input|)
    ensures 32 * op <= 33 * |input| + 31
    ensures Chosen(index, input, tokens0, start, lit0) ==> Greedy(index, input, tokens)
  {
    hide Expansion, EncodeAll, Chosen, Greedy, Stopped;
    var lit, ip := lit0, start;
    op, tokens := op0, tokens0;
    while ip < |input|
      invariant start <= ip <= |input| && 0 <= lit < MAX_LIT
      // a run can be stopped at most once here, and then it leaves a short one
      invariant op <= output.Length - 3 + (ip - start) + (if lit < ip - start then 1 else 0)
      invariant Emitted(output[..], input, tokens, op, ip, lit)
      invariant Chosen(index, input, tokens0, start, lit0) ==> Chosen(index, input, tokens, ip, lit)
    {
      TailIsChosen(index, input, tokens, ip, lit);
      op, lit, tokens := PutLiteral(output, op, lit, input, ip, tokens);
      ip := ip + 1;
    }
    StoppedIsGreedy(index, input, tokens, ip, lit);
    op := StopRun(output, op, lit, input, ip, tokens);
    tokens := Stopped(tokens, input, ip, lit);
  }

  // ----- which matches are taken

  /** The tokens and the open run after one literal more. */
  ghost function AfterLiteral(tokens: seq<Token>, input: seq<Octet>, ip: nat, lit: nat): (seq<Token>, nat)
    requires lit < MAX_LIT && lit <= ip < |input|
  {
    if lit + 1 == MAX_LIT then (Stopped(tokens, input, ip + 1, MAX_LIT), 0) else (tokens, lit + 1)
  }

  lemma LiteralIsChosen(index: nat -> nat, input: seq<Octet>, tokens: seq<Token>, ip: nat, lit: nat)
    requires lit < MAX_LIT && lit <= ip < |input|
    ensures var (after, open) := AfterLiteral(tokens, input, ip, lit);
            Chosen(index, input, tokens, ip, lit)
            && (ip + 2 < |input| ==> |MarksSoFar(tokens, lit)| == ip && Declined(index, input, MarksSoFar(tokens, lit)))
            ==> Chosen(index, input, after, ip + 1, open)
                && MarksSoFar(after, open) == MarksSoFar(tokens, lit) + [true]
  {
    hide Greedy, Declined, Chosen, MarksSoFar;
    if && Chosen(index, input, tokens, ip, lit)
       && (ip + 2 < |input| ==> |MarksSoFar(tokens, lit)| == ip && Declined(index, input, MarksSoFar(tokens, lit)))
    {
      ChosenLiteral(index, input, tokens, ip, lit);
      if lit + 1 == MAX_LIT {
        ChosenFull(index, input, tokens, ip + 1, input[ip + 1 - MAX_LIT..ip + 1]);
      }
    }
  }

  /** The last two positions are not hashed. */
  lemma TailIsChosen(index: nat -> nat, input: seq<Octet>, tokens: seq<Token>, ip: nat, lit: nat)
    requires lit < MAX_LIT && lit <= ip < |input| <= ip + 2
    ensures Chosen(index, input, tokens, ip, lit) ==>
              Chosen(index, input, if lit + 1 == MAX_LIT then Stopped(tokens, input, ip + 1, MAX_LIT) else tokens,
                     ip + 1, if lit + 1 == MAX_LIT then 0 else lit + 1)
  {
    hide Chosen, MarksSoFar, Declined, Stopped;
    LiteralIsChosen(index, input, tokens, ip, lit);
  }

  lemma StoppedIsGreedy(index: nat -> nat, input: seq<Octet>, tokens: seq<Token>, ip: nat, lit: nat)
    requires lit <= ip <= |input|
    ensures Chosen(index, input, tokens, ip, lit) ==>
              && Greedy(index, input, Stopped(tokens, input, ip, lit))
              && AllMarks(Stopped(tokens, input, ip, lit)) == MarksSoFar(tokens, lit)
              && |MarksSoFar(tokens, lit)| == ip
  {
    hide Greedy, RunDeclined;
    if Chosen(index, input, tokens, ip, lit) {
      if lit == 0 {
        assert AllMarks(tokens) + Trues(0) == AllMarks(tokens);
      } else {
        ChosenRun(index, input, tokens, ip, input[ip - lit..ip]);
      }
    }
  }

  /** The hash value holds the two octets before the next one to be read. */
  predicate HoldsTwo(hval: nat, input: seq<Octet>, ip: nat) {
    ip + 1 < |input| && hval % 0x1_0000 == First(input, ip)
  }

  lemma HashOfThree(index: nat -> nat, hval: nat, input: seq<Octet>, ip: nat)
    requires OfThree(index) && HoldsTwo(hval, input, ip) && ip + 2 < |input|
    ensures index(Shift(hval, input, ip)) == Slot(index, input, ip)
    ensures HoldsTwo(Shift(hval, input, ip), input, ip + 1)
  {
    var next := Shift(hval, input, ip);
    ShiftedOctets(hval, First(input, ip), input[ip + 2]);
    QuotientAndRemainder(First(input, ip), 256, input[ip] as int, input[ip + 1] as int);
    hide Shift;
    SameSlot(index, next, Three(input, ip));
  }

  lemma SameSlot(index: nat -> nat, hval: nat, three: nat)
    requires OfThree(index) && three < 0x100_0000 && hval % 0x100_0000 == three
    ensures index(hval) == index(three)
  {
    assert LooksAtThree(index, hval);
  }

  lemma ShiftedOctets(hval: nat, two: nat, octet: Octet)
    requires hval % 0x1_0000 == two
    ensures var next := hval * 256 % 0x1_0000_0000 + octet;
            next % 0x100_0000 == two * 256 + octet && next % 0x1_0000 == two % 256 * 256 + octet
  {
    var q := hval / 0x1_0000;
    assert hval == q * 0x1_0000 + two;
    var a, b := q / 256, q % 256;
    var rest := b * 0x100_0000 + two * 256;
    assert hval * 256 == a * 0x1_0000_0000 + rest;
    QuotientAndRemainder(hval * 256, 0x1_0000_0000, a, rest);
    QuotientAndRemainder(rest + octet, 0x100_0000, b, two * 256 + octet);
    var c, d := two / 256, two % 256;
    assert rest + octet == (256 * b + c) * 0x1_0000 + (d * 256 + octet);
    QuotientAndRemainder(rest + octet, 0x1_0000, 256 * b + c, d * 256 + octet);
  }

  /**
    The main loop's state where another position can be hashed: the choices so far are the table's,
    and the table and the hash value are those of the positions so far.
   */
  ghost predicate Tracked(index: nat -> nat, input: seq<Octet>, tokens: seq<Token>, ip: nat, lit: nat,
                          hval: nat, table: seq<nat>) {
    && Chosen(index, input, tokens, ip, lit) && |MarksSoFar(tokens, lit)| == ip
    && (ip + 2 < |input| ==>
          HoldsTwo(hval, input, ip) && TableIs(index, input, MarksSoFar(tokens, lit), table))
  }

  lemma TrackingStarts(index: nat -> nat, input: seq<Octet>, hval: nat, table: seq<nat>)
    requires |input| >= 2 ==> HoldsTwo(hval, input, 0)
    requires forall h :: 0 <= h < |table| ==> table[h] == 0
    ensures Tracked(index, input, [], 0, 0, hval, table)
  {
    hide HoldsTwo;
    NothingChosen(index, input);
    if |input| >= 2 {
      EmptyTable(index, input, table);
    }
  }

  /** The source's test of the candidate. */
  predicate IsMatch(input: seq<Octet>, ref: nat, ip: nat)
    requires ip + 2 < |input|
  {
    ref < ip && ip - ref - 1 < MAX_OFF && ref > 0 && SameOctets(input, ref, ip)
  }

  /** The candidate is looked up and the position entered. */
  lemma LookUp(index: nat -> nat, input: seq<Octet>, tokens: seq<Token>, ip: nat, lit: nat, hval: nat, table: seq<nat>)
    requires OfThree(index) && Tracked(index, input, tokens, ip, lit, hval, table) && ip + 2 < |input|
    requires index(Shift(hval, input, ip)) < |table|
    ensures var next, marks := Shift(hval, input, ip), MarksSoFar(tokens, lit);
            && |marks| == ip && HoldsTwo(next, input, ip + 1) && table[index(next)] == Candidate(index, input, marks)
            && (IsMatch(input, table[index(next)], ip) <==> !Declined(index, input, marks))
            && TableIs(index, input, marks + [true], table[index(next) := ip])
  {
    hide Chosen, MarksSoFar, Latest, HoldsTwo, Shift, OfThree;
    HashOfThree(index, hval, input, ip);
    TableEnter(index, input, MarksSoFar(tokens, lit), table);
  }

  lemma TrackLiteral(index: nat -> nat, input: seq<Octet>, tokens: seq<Token>, ip: nat, lit: nat,
                     hval: nat, table: seq<nat>)
    requires OfThree(index) && Tracked(index, input, tokens, ip, lit, hval, table) && ip + 2 < |input|
    requires lit < MAX_LIT && lit <= ip && index(Shift(hval, input, ip)) < |table|
    requires !IsMatch(input, table[index(Shift(hval, input, ip))], ip)
    ensures var next, (after, open) := Shift(hval, input, ip), AfterLiteral(tokens, input, ip, lit);
            Tracked(index, input, after, ip + 1, open, next, table[index(next) := ip])
  {
    hide Chosen, MarksSoFar, HoldsTwo, Shift, OfThree, IsMatch, TableIs, AfterLiteral, Declined, Candidate;
    LookUp(index, input, tokens, ip, lit, hval, table);
    LiteralIsChosen(index, input, tokens, ip, lit);
  }

  /** After a match, before its last two positions are entered. */
  lemma TrackMatch(index: nat -> nat, input: seq<Octet>, tokens: seq<Token>, ip: nat, lit: nat,
                   hval: nat, table: seq<nat>, ref: nat, len: nat)
    requires OfThree(index) && Tracked(index, input, tokens, ip, lit, hval, table) && ip + 2 < |input|
    requires lit <= ip && index(Shift(hval, input, ip)) < |table| && ref == table[index(Shift(hval, input, ip))]
    requires IsMatch(input, ref, ip) && IsLongest(input, ref, ip, len)
    ensures var after := Stopped(tokens, input, ip, lit) + [Reference(ip - ref, len)];
            && Chosen(index, input, after, ip + len, 0) && |MarksSoFar(after, 0)| == ip + len
            && MarksSoFar(after, 0) == MarksSoFar(tokens, lit) + [true] + Falses(len - 3) + [true] + [true]
  {
    hide Chosen, MarksSoFar, HoldsTwo, Shift, OfThree, TableIs, Stopped, Greedy, Declined, Candidate;
    LookUp(index, input, tokens, ip, lit, hval, table);
    StoppedIsGreedy(index, input, tokens, ip, lit);
    MatchIsTaken(index, input, MarksSoFar(tokens, lit), ref, len);
    ChosenMatch(index, input, Stopped(tokens, input, ip, lit), ip, ip - ref, len);
  }

  lemma MatchIsTaken(index: nat -> nat, input: seq<Octet>, marks: seq<bool>, ref: nat, len: nat)
    requires |marks| + 2 < |input| && !Declined(index, input, marks) && ref == Candidate(index, input, marks)
    requires IsLongest(input, ref, |marks|, len)
    ensures Taken(index, input, marks, |marks| - ref, len)
  {
    hide Declined, Candidate;
  }

  /** Entering the last two positions of the match. */
  lemma TrackReindex(index: nat -> nat, input: seq<Octet>, marks: seq<bool>, len: nat, table: seq<nat>)
    requires OfThree(index) && TableIs(index, input, marks + [true], table) && len >= 3
    requires |marks| + len + 2 < |input| && forall h: nat :: index(h) < |table|
    ensures var end := |marks| + len;
            var first := Shift(First(input, end - 2), input, end - 2);
            var hval := Shift(first, input, end - 1);
            && HoldsTwo(hval, input, end)
            && TableIs(index, input, marks + [true] + Falses(len - 3) + [true] + [true],
                       table[index(first) := end - 2][index(hval) := end - 1])
  {
    hide TableIs, Shift, First, OfThree;
    var end := |marks| + len;
    var two := First(input, end - 2);
    FirstHoldsTwo(input, end - 2);
    HashOfThree(index, two, input, end - 2);
    HashOfThree(index, Shift(two, input, end - 2), input, end - 1);
    var inside := marks + [true] + Falses(len - 3);
    TablePass(index, input, marks + [true], table, len - 3);
    TableEnter(index, input, inside, table);
    TableEnter(index, input, inside + [true], table[Slot(index, input, end - 2) := end - 2]);
  }

  lemma FirstHoldsTwo(input: seq<Octet>, ip: nat)
    requires ip + 1 < |input|
    ensures HoldsTwo(First(input, ip), input, ip)
  {
  }

  /** It tells apart any two that differ in the last octet only. */
  lemma LzfIndexSpreads(h: nat, k: nat)
    requires h / 256 == k / 256 && h != k
    ensures LzfIndex(h) != LzfIndex(k)
  {
    var d := h % 256 - k % 256;
    var n := h / 256 - h * 5;
    assert h - k == d && k / 256 - k * 5 == n + 5 * d && d != 0;
    OtherRemainder(n, 5 * d, HSIZE);
  }

  lemma OtherRemainder(n: int, e: int, m: nat)
    requires e != 0 && 0 - m < e < m
    ensures (n + e) % m != n % m
  {
    var q := (n + e) / m - n / m;
    assert e == q * m + (n + e) % m - n % m;
    NoMultipleBetween(q, m);
  }

  /** Bits 8 to 23 of the octets A, B, C less five times the low bits, in 16 bits. */
  lemma LzfIndexOfABC()
    ensures LzfIndex(0x41_4243) == (0x4142 - 5 * 0x4243) % 0x1_0000
  {
  }

  /** The hash function that is built looks at three octets. */
  lemma LzfIndexOfThree()
    ensures OfThree(LzfIndex)
  {
    forall h: nat ensures LooksAtThree(LzfIndex, h) {
      var q, r := h / 0x100_0000, h % 0x100_0000;
      assert h / 256 - h * 5 == r / 256 - r * 5 + (q - 1280 * q) * 0x1_0000;
      SameRemainder(r / 256 - r * 5, q - 1280 * q);
    }
  }

  lemma SameRemainder(n: int, q: int)
    ensures (n + q * 0x1_0000) % 0x1_0000 == n % 0x1_0000
  {
  }

  /** A capacity with which no test of the compressor can fail. */
  predicate Roomy(inLen: nat, outLen: nat) {
    inLen >= 1 && ((inLen >= 2 && outLen >= 2 * inLen) || 32 * (outLen - 4) >= 33 * inLen)
  }

  lemma RoomyIsNotEmpty(inLen: nat, outLen: nat)
    ensures Roomy(inLen, outLen) ==> inLen > 0 && outLen > 0
    ensures inLen >= 2 && outLen >= 2 * inLen ==> Roomy(inLen, outLen)
    ensures inLen >= 1 && 32 * (outLen - 4) >= 33 * inLen ==> Roomy(inLen, outLen)
  {
  }

  lemma WhatIsEmitted(out: seq<Octet>, input: seq<Octet>, tokens: seq<Token>, op: int, ip: int, lit: int)
    requires Emitted(out, input, tokens, op, ip, lit)
    ensures 0 <= lit <= ip <= |input| && 0 <= op - lit - 1 <= |out| && 32 * (op - lit - 1) <= 33 * (ip - lit)
  {
  }

  lemma RoomForLiteral(inLen: nat, outLen: nat, op: int, ip: int, lit: int)
    requires Roomy(inLen, outLen) && 0 <= lit <= ip < inLen - 2 && 32 * (op - lit - 1) <= 33 * (ip - lit)
    ensures op < outLen
  {
  }

  lemma RoomForMatch(inLen: nat, outLen: nat, op: int, ip: int, lit: int)
    requires Roomy(inLen, outLen) && 0 <= lit <= ip < inLen - 2 && 32 * (op - lit - 1) <= 33 * (ip - lit)
    requires ip >= 2
    ensures (if lit == 0 then op - 1 else op) + 4 < outLen
  {
  }

  lemma RoomForTail(inLen: nat, outLen: nat, op: int, ip: int, lit: int)
    requires Roomy(inLen, outLen) && 0 <= lit <= ip <= inLen && 32 * (op - lit - 1) <= 33 * (ip - lit)
    requires ip <= inLen - 2 || inLen >= 5 || ip == 0
    ensures op + 3 <= outLen
  {
  }

  /** VERY_FAST: after a match only its last two positions enter the table. */
  method Reindex(index: nat -> nat, htab: array<nat>, input: seq<Octet>, end: nat) returns (hval: nat)
    requires htab.Length == HSIZE && forall h: nat :: index(h) < HSIZE
    requires 2 <= end && end + 1 < |input|
    modifies htab
    ensures var first := Shift(First(input, end - 2), input, end - 2);
            && hval == Shift(first, input, end - 1)
            && htab[..] == old(htab[..])[index(first) := end - 2][index(hval) := end - 1]
  {
    var ip := end - 2;
    hval := First(input, ip);
    hval := Shift(hval, input, ip);
    htab[index(hval)] := ip;
    ip := ip + 1;
    hval := Shift(hval, input, ip);
    htab[index(hval)] := ip;
  }

  /** Where the main loop stands, for a hash function that looks at three octets. */
  ghost predicate OnTrack(index: nat -> nat, input: seq<Octet>, tokens: seq<Token>, ip: nat, lit: nat,
                          hval: nat, table: seq<nat>) {
    OfThree(index) ==> Tracked(index, input, tokens, ip, lit, hval, table)
  }

  lemma OnTrackStarts(index: nat -> nat, input: seq<Octet>, hval: nat, table: seq<nat>)
    requires |input| >= 2 ==> hval == First(input, 0)
    requires forall h :: 0 <= h < |table| ==> table[h] == 0
    ensures OnTrack(index, input, [], 0, 0, hval, table)
  {
    hide Tracked, OfThree, First;
    if |input| >= 2 {
      FirstHoldsTwo(input, 0);
    }
    TrackingStarts(index, input, hval, table);
  }

  lemma OnTrackLiteral(index: nat -> nat, input: seq<Octet>, tokens: seq<Token>, ip: nat, lit: nat,
                       hval: nat, table: seq<nat>, next: nat)
    requires OnTrack(index, input, tokens, ip, lit, hval, table) && ip + 2 < |input|
    requires lit < MAX_LIT && lit <= ip && next == Shift(hval, input, ip) && index(next) < |table|
    requires !IsMatch(input, table[index(next)], ip)
    ensures var (after, open) := AfterLiteral(tokens, input, ip, lit);
            OnTrack(index, input, after, ip + 1, open, next, table[index(next) := ip])
  {
    hide Tracked, OfThree, Shift, IsMatch, AfterLiteral;
    if OfThree(index) {
      TrackLiteral(index, input, tokens, ip, lit, hval, table);
    }
  }

  /** After a match: the tokens are the table's choice, and so stays the table once it is brought up to date. */
  lemma OnTrackMatch(index: nat -> nat, input: seq<Octet>, tokens: seq<Token>, ip: nat, lit: nat,
                     hval: nat, table: seq<nat>, next: nat, end: nat)
    requires OnTrack(index, input, tokens, ip, lit, hval, table) && ip + 2 < |input|
    requires lit <= ip && next == Shift(hval, input, ip) && forall h: nat :: index(h) < |table|
    requires IsMatch(input, table[index(next)], ip)
    requires ip <= end && IsLongest(input, table[index(next)], ip, end - ip)
    ensures var after := Stopped(tokens, input, ip, lit) + [Reference(ip - table[index(next)], end - ip)];
            && (end + 2 >= |input| ==> forall h, t :: OnTrack(index, input, after, end, 0, h, t))
            && (end + 2 < |input| ==>
                  var first := Shift(First(input, end - 2), input, end - 2);
                  var last := Shift(first, input, end - 1);
                  OnTrack(index, input, after, end, 0, last,
                          table[index(next) := ip][index(first) := end - 2][index(last) := end - 1]))
  {
    hide OfThree, Shift, IsMatch, Chosen, MarksSoFar, TableIs, HoldsTwo, Stopped, First, Candidate, Declined;
    if OfThree(index) {
      TrackMatch(index, input, tokens, ip, lit, hval, table, table[index(next)], end - ip);
      LookUp(index, input, tokens, ip, lit, hval, table);
      if end + 2 < |input| {
        TrackReindex(index, input, MarksSoFar(tokens, lit), end - ip, table[index(next) := ip]);
      }
    }
  }

  lemma OnTrackIsChosen(index: nat -> nat, input: seq<Octet>, tokens: seq<Token>, ip: nat, lit: nat,
                        hval: nat, table: seq<nat>)
    requires OnTrack(index, input, tokens, ip, lit, hval, table)
    ensures OfThree(index) ==> Chosen(index, input, tokens, ip, lit)
  {
    hide OfThree, Chosen;
  }

  /** A match is written, and its last two positions enter the table unless the input is at its end. */
  method TakeMatch(index: nat -> nat, htab: array<nat>, hval: nat, output: array<Octet>, op: nat, lit: nat,
                   input: seq<Octet>, ip: nat, ref: nat,
                   ghost tokens: seq<Token>, ghost hval0: nat, ghost table: seq<nat>)
    returns (ok: bool, hval': nat, op': nat, ip': nat, ghost tokens': seq<Token>)
    requires htab.Length == HSIZE && forall h: nat :: index(h) < HSIZE
    requires lit < MAX_LIT && ip + 2 < |input| && Emitted(output[..], input, tokens, op, ip, lit)
    requires OnTrack(index, input, tokens, ip, lit, hval0, table) && hval == Shift(hval0, input, ip)
    requires |table| == HSIZE && htab[..] == table[index(hval) := ip] && ref == table[index(hval)]
    requires lit <= ip && IsMatch(input, ref, ip)
    modifies output, htab
    ensures ok <==> (if lit == 0 then op - 1 else op) + 4 < output.Length
    ensures ok ==> Emitted(output[..], input, tokens', op', ip', 0) && ip + 3 <= ip' <= |input|
    ensures ok ==> OnTrack(index, input, tokens', ip', 0, hval', htab[..])
  {
    hide Expansion, EncodeAll, First, Shift, SameOctets, Same, Emitted, OnTrack, Stopped, IsLongest;
    SameThree(input, ref, ip);
    hval' := hval;
    ok, op', ip', tokens' := PutMatch(output, op, lit, input, ip, ref, tokens);
    if ok {
      OnTrackMatch(index, input, tokens, ip, lit, hval0, table, hval, ip');
      if ip' < |input| - 2 {
        hval' := Reindex(index, htab, input, ip');
      }
    }
  }

  /**
    Returns the number of octets written, or 0 when the output is too small. The two-octet read
    that starts the hash reads past an input of one octet: any value may be there, and none matters.
   */
  method Compress(index: nat -> nat, input: seq<Octet>, output: array<Octet>)
    returns (n: nat, ghost tokens: seq<Token>)
    requires forall h: nat :: index(h) < HSIZE
    modifies output
    ensures n <= output.Length
    ensures n > 0 ==> Expansion(tokens) == Some(input) && EncodeAll(tokens) == output[..n]
    // which matches are taken, and what that is worth
    ensures n > 0 && OfThree(index) ==> Greedy(index, input, tokens)
    ensures n > 0 && OfThree(index) && AllEqual(input) ==> n <= 3 * (|input| / MAX_REF) + 9
    ensures n <= |input| + (|input| + 31) / 32
    ensures n > 0 && AllDistinct(input) ==> n == |input| + (|input| + 31) / 32
    ensures |input| >= 2 && output.Length >= 2 * |input| ==> n > 0
    ensures |input| >= 1 && 32 * (output.Length - 4) >= 33 * |input| ==> n > 0
    ensures input == [] ==> n == 0
  {
    hide Expansion, EncodeAll, First, Shift, SameOctets, Same, Roomy, Emitted, Closed, AllDistinct, AllEqual,
         OnTrack, OfThree, Greedy, Stopped, IsLongest, Chosen;
    tokens := [];
    RoomyIsNotEmpty(|input|, output.Length);
    if |input| == 0 || output.Length == 0 {
      return 0, tokens;
    }
    var htab := new nat[HSIZE](_ => 0);
    var ip: nat, op, lit: nat := 0, 0, 0;
    op := op + 1;
    NothingIsEmitted(output[..], input);
    var hval: nat := *;
    if |input| > 1 {
      hval := First(input, ip);
    }
    OnTrackStarts(index, input, hval, htab[..]);
    while ip < |input| - 2
      invariant 0 <= ip <= |input| && 0 <= lit < MAX_LIT && fresh(htab) && htab.Length == HSIZE
      invariant Emitted(output[..], input, tokens, op, ip, lit)
      invariant ip > |input| - 2 ==> |input| >= 5 || ip == 0
      invariant OnTrack(index, input, tokens, ip, lit, hval, htab[..])
    {
      WhatIsEmitted(output[..], input, tokens, op, ip, lit);
      ghost var hval0, table, op0, ip0 := hval, htab[..], op, ip;
      hval := Shift(hval, input, ip);
      var ref := htab[index(hval)];
      htab[index(hval)] := ip;
      assert htab[..] == table[index(hval) := ip];
      if IsMatch(input, ref, ip) {
        var ok;
        ok, hval, op, ip, tokens := TakeMatch(index, htab, hval, output, op, lit, input, ip, ref, tokens, hval0, table);
        if !ok {
          if Roomy(|input|, output.Length) {
            RoomForMatch(|input|, output.Length, op0, ip0, lit);
          }
          return 0, tokens;
        }
        lit := 0;
        if ip >= |input| - 2 {
          break;
        }
      } else {
        if op >= output.Length {
          if Roomy(|input|, output.Length) {
            RoomForLiteral(|input|, output.Length, op, ip, lit);
          }
          return 0, tokens;
        }
        OnTrackLiteral(index, input, tokens, ip, lit, hval0, table, hval);
        op, lit, tokens := PutLiteral(output, op, lit, input, ip, tokens);
        ip := ip + 1;
      }
    }
    WhatIsEmitted(output[..], input, tokens, op, ip, lit);
    if op + 3 > output.Length {
      if Roomy(|input|, output.Length) {
        RoomForTail(|input|, output.Length, op, ip, lit);
      }
      return 0, tokens;
    }
    OnTrackIsChosen(index, input, tokens, ip, lit, hval, htab[..]);
    op, tokens := PutTail(output, op, lit, input, ip, tokens, index);
    AllIsSpelled(output[..], input, tokens, op);
    if AllDistinct(input) {
      DistinctNeedsRuns(tokens, input);
    }
    if OfThree(index) && AllEqual(input) {
      EqualOctetsAreShort(index, input, tokens);
    }
    return op, tokens;
  }
}
