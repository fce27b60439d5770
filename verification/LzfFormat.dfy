/**
  The LZF stream format, independent of both the compressor and the decompressor: a stream is a
  list of tokens, each token has exactly one spelling in octets, and a token list has a meaning,
  the octets it expands to.
 */
module LzfFormat {

  const MAX_LIT := 32
  const MAX_OFF := 8192
  const MAX_REF := 264

  type Octet = x: int | 0 <= x < 256

  datatype Option<+T> = None | Some(value: T)

  /** A run of literal octets, or a copy of `length` octets found `distance` octets back. */
  datatype Token = Literal(run: seq<Octet>) | Reference(distance: nat, length: nat)
  {
    predicate WellFormed() {
      match this
      case Literal(run) => 1 <= |run| <= MAX_LIT
      case Reference(distance, length) => 1 <= distance <= MAX_OFF && 3 <= length <= MAX_REF
    }

    /** The octets this token stands for once expanded. */
    function Size(): nat {
      match this
      case Literal(run) => |run|
      case Reference(_, length) => length
    }
  }

  /** The one spelling of a token. */
  function Encode(t: Token): (s: seq<Octet>)
    requires t.WellFormed()
    ensures 2 <= |s| <= MAX_LIT + 1
  {
    match t
    case Literal(run) => [|run| - 1] + run
    case Reference(distance, length) =>
      var off := distance - 1;
      if length < 9 then [off / 256 + (length - 2) * 32, off % 256]
      else [off / 256 + 7 * 32, length - 9, off % 256]
  }

  /** `out` extended by `length` octets, each equal to the one `distance` places before it. */
  function CopyBack(out: seq<Octet>, distance: nat, length: nat): (r: seq<Octet>)
    requires 1 <= distance <= |out|
    ensures |r| == |out| + length
  {
    if length == 0 then out
    else
      var r := CopyBack(out, distance, length - 1);
      r + [r[|r| - distance]]
  }

  /** Appends one token's octets; a reference before the start of the output has no meaning. */
  function Apply(out: seq<Octet>, t: Token): Option<seq<Octet>> {
    match t
    case Literal(run) => Some(out + run)
    case Reference(distance, length) =>
      if 1 <= distance <= |out| then Some(CopyBack(out, distance, length)) else None
  }

  /** What a token list expands to, or None when some token is ill formed or reaches back too far. */
  function Expansion(ts: seq<Token>): Option<seq<Octet>> {
    if ts == [] then Some([])
    else
      var last := ts[|ts| - 1];
      match Expansion(ts[..|ts| - 1])
      case None => None
      case Some(out) => if last.WellFormed() then Apply(out, last) else None
  }

  /** The octets that spell a token list. */
  function EncodeAll(ts: seq<Token>): seq<Octet>
    requires Expansion(ts).Some?
  {
    if ts == [] then []
    else EncodeAll(ts[..|ts| - 1]) + Encode(ts[|ts| - 1])
  }

  // ----- copying back

  /** `CopyBack` is the only sequence in which every new octet repeats the one `distance` earlier. */
  lemma {:induction false} CopyBackIsUnique(out: seq<Octet>, distance: nat, length: nat, r: seq<Octet>)
    requires 1 <= distance <= |out|
    requires |r| == |out| + length && r[..|out|] == out
    requires forall i :: |out| <= i < |r| ==> r[i] == r[i - distance]
    ensures r == CopyBack(out, distance, length)
  {
    if length == 0 {
      assert r == r[..|out|];
    } else {
      var front := r[..|r| - 1];
      assert front[..|out|] == out;
      CopyBackIsUnique(out, distance, length - 1, front);
      assert r == front + [r[|r| - 1]];
    }
  }

  /** And it does have that property. */
  lemma {:induction false} CopyBackRepeats(out: seq<Octet>, distance: nat, length: nat)
    requires 1 <= distance <= |out|
    ensures CopyBack(out, distance, length)[..|out|] == out
    ensures forall i :: |out| <= i < |out| + length ==>
              CopyBack(out, distance, length)[i] == CopyBack(out, distance, length)[i - distance]
  {
    if length == 0 {
    } else {
      CopyBackRepeats(out, distance, length - 1);
      var front := CopyBack(out, distance, length - 1);
      var r := CopyBack(out, distance, length);
      assert r[..|r| - 1] == front;
      forall i | |out| <= i < |r| ensures r[i] == r[i - distance] {
        if i < |front| {
          assert r[i] == front[i] && r[i - distance] == front[i - distance];
        }
      }
      assert r[..|out|] == front[..|out|];
    }
  }

  // ----- the specification of decoding

  datatype Outcome = Done(out: seq<Octet>) | TooBig | Malformed

  datatype Progress = Next(ip: nat, out: seq<Octet>) | Stop(error: Outcome)

  /**
    Decodes one token at `ip`, with `out` already produced and room for `capacity` octets in all.
    The order of the tests is the decompressor's, because it decides which error is reported.
   */
  function Step(input: seq<Octet>, ip: nat, out: seq<Octet>, capacity: nat): (p: Progress)
    requires ip < |input|
    ensures p.Next? ==> ip < p.ip <= |input| && |out| < |p.out| <= capacity
    ensures p.Stop? ==> !p.error.Done?
  {
    var ctrl := input[ip] as int;
    if ctrl < 32 then
      if |out| + ctrl + 1 > capacity then Stop(TooBig)
      else if ip + ctrl + 2 > |input| then Stop(Malformed)
      else Next(ip + ctrl + 2, out + input[ip + 1..ip + ctrl + 2])
    else
      var extended := ctrl / 32 == 7;
      var next := if extended then ip + 3 else ip + 2;
      if next > |input| then Stop(Malformed)
      else
        var length := if extended then input[ip + 1] as int + 9 else ctrl / 32 + 2;
        var distance := ctrl % 32 * 256 + input[next - 1] as int + 1;
        if |out| + length > capacity then Stop(TooBig)
        else if distance > |out| then Stop(Malformed)
        else Next(next, CopyBack(out, distance, length))
  }

  /** Decodes from `ip` to the end of the input. */
  function Decode(input: seq<Octet>, ip: nat, out: seq<Octet>, capacity: nat): Outcome
    requires ip <= |input|
    decreases |input| - ip
  {
    if ip == |input| then Done(out)
    else
      match Step(input, ip, out, capacity)
      case Stop(error) => error
      case Next(next, longer) => Decode(input, next, longer, capacity)
  }

  // ----- decoding inverts encoding

  lemma EncodeAppend(ts: seq<Token>, t: Token)
    requires Expansion(ts).Some? && t.WellFormed() && Apply(Expansion(ts).value, t).Some?
    ensures Expansion(ts + [t]) == Apply(Expansion(ts).value, t)
    ensures EncodeAll(ts + [t]) == EncodeAll(ts) + Encode(t)
  {
    assert (ts + [t])[..|ts + [t]| - 1] == ts;
  }

  lemma {:induction false} PrefixExpands(ts: seq<Token>, k: nat)
    requires Expansion(ts).Some? && k <= |ts|
    ensures Expansion(ts[..k]).Some?
    ensures EncodeAll(ts[..k]) <= EncodeAll(ts)
    ensures |Expansion(ts[..k]).value| <= |Expansion(ts).value|
    decreases |ts|
  {
    if k == |ts| {
      assert ts[..k] == ts;
    } else {
      PrefixExpands(ts[..|ts| - 1], k);
      assert ts[..|ts| - 1][..k] == ts[..k];
    }
  }

  /** The elements of a slice, counted from the slice's start and from the whole. */
  lemma SliceAt(s: seq<Octet>, lo: nat, code: seq<Octet>)
    requires lo + |code| <= |s| && s[lo..lo + |code|] == code
    ensures forall i :: 0 <= i < |code| ==> s[lo + i] == code[i]
    ensures code != [] ==> s[lo + 1..lo + |code|] == code[1..]
  {
    forall i | 0 <= i < |code| ensures s[lo + i] == code[i] {
      assert s[lo..lo + |code|][i] == code[i];
    }
    if code != [] {
      assert s[lo..lo + |code|][1..] == s[lo + 1..lo + |code|];
    }
  }

  lemma StepAtLiteral(input: seq<Octet>, ip: nat, out: seq<Octet>, capacity: nat, run: seq<Octet>)
    requires 1 <= |run| <= MAX_LIT && ip + |run| + 1 <= |input|
    requires input[ip] == |run| - 1 && input[ip + 1..ip + |run| + 1] == run
    ensures Step(input, ip, out, capacity)
         == if |out| + |run| > capacity then Stop(TooBig) else Next(ip + |run| + 1, out + run)
  {
  }

  lemma StepAtShort(input: seq<Octet>, ip: nat, out: seq<Octet>, capacity: nat, distance: nat, length: nat)
    requires ip + 2 <= |input| && 1 <= distance <= |out|
    requires input[ip] >= 32 && input[ip] as int / 32 == length - 2 < 7
    requires input[ip] as int % 32 * 256 + input[ip + 1] as int + 1 == distance
    ensures Step(input, ip, out, capacity)
         == if |out| + length > capacity then Stop(TooBig) else Next(ip + 2, CopyBack(out, distance, length))
  {
    hide CopyBack;
  }

  lemma StepAtLong(input: seq<Octet>, ip: nat, out: seq<Octet>, capacity: nat, distance: nat, length: nat)
    requires ip + 3 <= |input| && 1 <= distance <= |out|
    requires input[ip] >= 32 && input[ip] as int / 32 == 7 && input[ip + 1] as int + 9 == length
    requires input[ip] as int % 32 * 256 + input[ip + 2] as int + 1 == distance
    ensures Step(input, ip, out, capacity)
         == if |out| + length > capacity then Stop(TooBig) else Next(ip + 3, CopyBack(out, distance, length))
  {
    hide CopyBack;
  }

  lemma StepAtReference(input: seq<Octet>, ip: nat, out: seq<Octet>, capacity: nat, distance: nat, length: nat)
    requires 1 <= distance <= |out| && distance <= MAX_OFF && 3 <= length <= MAX_REF
    requires var code := Encode(Reference(distance, length));
             ip + |code| <= |input| && forall i :: 0 <= i < |code| ==> input[ip + i] == code[i]
    ensures Step(input, ip, out, capacity)
         == if |out| + length > capacity then Stop(TooBig)
            else Next(ip + |Encode(Reference(distance, length))|, CopyBack(out, distance, length))
  {
    hide Step, CopyBack;
    var code := Encode(Reference(distance, length));
    assert input[ip + 0] == code[0] && input[ip + 1] == code[1];
    SplitOffset(distance - 1, if length < 9 then length - 2 else 7);
    if length < 9 {
      StepAtShort(input, ip, out, capacity, distance, length);
    } else {
      assert input[ip + 2] == code[2];
      StepAtLong(input, ip, out, capacity, distance, length);
    }
  }

  /** One decoding step at the spelling of a token. */
  lemma StepAtToken(input: seq<Octet>, ip: nat, out: seq<Octet>, capacity: nat, t: Token)
    requires t.WellFormed() && Apply(out, t).Some?
    requires ip + |Encode(t)| <= |input| && input[ip..ip + |Encode(t)|] == Encode(t)
    ensures Step(input, ip, out, capacity)
         == if |out| + t.Size() > capacity then Stop(TooBig)
            else Next(ip + |Encode(t)|, Apply(out, t).value)
  {
    hide Step;
    SliceAt(input, ip, Encode(t));
    match t
    case Literal(run) =>
      assert input[ip + 0] == Encode(t)[0];
      assert Encode(t)[1..] == run;
      StepAtLiteral(input, ip, out, capacity, run);
    case Reference(distance, length) =>
      StepAtReference(input, ip, out, capacity, distance, length);
  }

  lemma SplitOffset(off: nat, high: nat)
    requires off < MAX_OFF && 1 <= high <= 7
    ensures var ctrl := off / 256 + high * 32;
            32 <= ctrl < 256 && ctrl / 32 == high && ctrl % 32 * 256 + off % 256 == off
  {
    var q := off / 256;
    assert q < 32;
  }

  lemma LastOf(ts: seq<Token>)
    requires Expansion(ts).Some? && ts != []
    ensures var front, last := ts[..|ts| - 1], ts[|ts| - 1];
            && Expansion(front).Some? && last.WellFormed()
            && Apply(Expansion(front).value, last) == Expansion(ts)
            && EncodeAll(ts) == EncodeAll(front) + Encode(last)
            && |Expansion(front).value| + last.Size() == |Expansion(ts).value|
  {
  }

  lemma MiddleOf(a: seq<Octet>, b: seq<Octet>, whole: seq<Octet>)
    requires a + b <= whole
    ensures whole[|a|..|a| + |b|] == b
  {
    forall i | 0 <= i < |b| ensures whole[|a| + i] == b[i] {
      assert (a + b)[|a| + i] == b[i];
    }
  }

  /** What cutting a token list at position `k` gives. */
  lemma CutAt(ts: seq<Token>, k: nat)
    requires Expansion(ts).Some? && k < |ts|
    ensures Expansion(ts[..k]).Some? && Expansion(ts[..k + 1]).Some? && ts[k].WellFormed()
    ensures Apply(Expansion(ts[..k]).value, ts[k]) == Expansion(ts[..k + 1])
    ensures var ip := |EncodeAll(ts[..k])|;
            var next := ip + |Encode(ts[k])|;
            && next == |EncodeAll(ts[..k + 1])| <= |EncodeAll(ts)|
            && EncodeAll(ts)[ip..next] == Encode(ts[k])
    ensures |Expansion(ts[..k]).value| + ts[k].Size() == |Expansion(ts[..k + 1]).value| <= |Expansion(ts).value|
  {
    hide Encode;
    PrefixExpands(ts, k);
    PrefixExpands(ts, k + 1);
    LastOf(ts[..k + 1]);
    assert ts[..k + 1][..k] == ts[..k];
    hide Expansion, EncodeAll;
    MiddleOf(EncodeAll(ts[..k]), Encode(ts[k]), EncodeAll(ts));
  }

  lemma {:induction false} DecodeFromToken(ts: seq<Token>, k: nat, capacity: nat)
    requires Expansion(ts).Some? && k <= |ts|
    requires Expansion(ts[..k]).Some? && |Expansion(ts[..k]).value| <= capacity
    requires |EncodeAll(ts[..k])| <= |EncodeAll(ts)|
    ensures Decode(EncodeAll(ts), |EncodeAll(ts[..k])|, Expansion(ts[..k]).value, capacity)
         == if |Expansion(ts).value| <= capacity then Done(Expansion(ts).value) else TooBig
    decreases |ts| - k
  {
    hide Expansion, EncodeAll, Step, Encode;
    if k == |ts| {
      assert ts[..k] == ts;
    } else {
      CutAt(ts, k);
      StepAtToken(EncodeAll(ts), |EncodeAll(ts[..k])|, Expansion(ts[..k]).value, capacity, ts[k]);
      if |Expansion(ts[..k]).value| + ts[k].Size() <= capacity {
        DecodeFromToken(ts, k + 1, capacity);
      }
    }
  }

  /** Decoding the spelling of a meaningful token list: its expansion, or TooBig when that does not fit. */
  lemma {:induction false} DecodeEncoded(ts: seq<Token>, capacity: nat)
    requires Expansion(ts).Some?
    ensures Decode(EncodeAll(ts), 0, [], capacity)
         == if |Expansion(ts).value| <= capacity then Done(Expansion(ts).value) else TooBig
  {
    assert ts[..0] == [];
    DecodeFromToken(ts, 0, capacity);
  }

  lemma JoinOffset(ctrl: nat, low: nat)
    requires 32 <= ctrl < 256 && low < 256
    ensures var off := ctrl % 32 * 256 + low;
            && off < MAX_OFF && off % 256 == low
            && off / 256 + ctrl / 32 * 32 == ctrl
  {
    assert (ctrl % 32 * 256 + low) / 256 == ctrl % 32;
  }

  /** The token that a successful step consumes, in the order the octets are read. */
  function TokenAt(input: seq<Octet>, ip: nat): (t: Token)
    requires ip < |input|
  {
    var ctrl := input[ip] as int;
    if ctrl < 32 then
      Literal(if ip + ctrl + 2 <= |input| then input[ip + 1..ip + ctrl + 2] else [])
    else if ctrl / 32 == 7 then
      if ip + 2 < |input| then Reference(ctrl % 32 * 256 + input[ip + 2] as int + 1, input[ip + 1] as int + 9)
      else Literal([])
    else
      if ip + 1 < |input| then Reference(ctrl % 32 * 256 + input[ip + 1] as int + 1, ctrl / 32 + 2)
      else Literal([])
  }

  lemma TokenAtSpells(input: seq<Octet>, ip: nat)
    requires ip < |input| && TokenAt(input, ip) != Literal([])
    ensures var t := TokenAt(input, ip);
            t.WellFormed() && ip + |Encode(t)| <= |input| && input[ip..ip + |Encode(t)|] == Encode(t)
  {
    var ctrl := input[ip] as int;
    if ctrl >= 32 {
      JoinOffset(ctrl, input[if ctrl / 32 == 7 then ip + 2 else ip + 1]);
    }
  }

  lemma TokenAtSucceeds(input: seq<Octet>, ip: nat, out: seq<Octet>, capacity: nat)
    requires ip < |input| && Step(input, ip, out, capacity).Next?
    ensures var t := TokenAt(input, ip);
            && t.WellFormed() && Apply(out, t).Some? && |out| + t.Size() <= capacity
            && ip + |Encode(t)| <= |input| && input[ip..ip + |Encode(t)|] == Encode(t)
            && Step(input, ip, out, capacity) == Next(ip + |Encode(t)|, Apply(out, t).value)
  {
    TokenAtSpells(input, ip);
    var t := TokenAt(input, ip);
    StepAtToken(input, ip, out, capacity, t);
  }

  lemma {:induction false} TokensOfDecoded(input: seq<Octet>, ip: nat, done: seq<Token>, capacity: nat)
    returns (ts: seq<Token>)
    requires ip <= |input| && Expansion(done).Some? && EncodeAll(done) == input[..ip]
    requires Decode(input, ip, Expansion(done).value, capacity).Done?
    requires |Expansion(done).value| <= capacity
    ensures Expansion(ts).Some? && EncodeAll(ts) == input
    ensures Decode(input, ip, Expansion(done).value, capacity) == Done(Expansion(ts).value)
    ensures |Expansion(ts).value| <= capacity
    decreases |input| - ip
  {
    hide Expansion, EncodeAll, Step, Encode;
    if ip == |input| {
      ts := done;
      assert input[..ip] == input;
    } else {
      var out := Expansion(done).value;
      var t := TokenAt(input, ip);
      TokenAtSucceeds(input, ip, out, capacity);
      EncodeAppend(done, t);
      var next := ip + |Encode(t)|;
      assert input[..next] == input[..ip] + input[ip..next];
      ts := TokensOfDecoded(input, next, done + [t], capacity);
    }
  }

  /**
    The decoder accepts exactly the spellings of meaningful token lists whose expansion fits, and
    returns that expansion.
   */
  lemma {:induction false} DecodeAcceptsExactly(input: seq<Octet>, capacity: nat, out: seq<Octet>)
    ensures Decode(input, 0, [], capacity) == Done(out)
       <==> |out| <= capacity
            && exists ts :: Expansion(ts) == Some(out) && EncodeAll(ts) == input
  {
    if Decode(input, 0, [], capacity) == Done(out) {
      assert input[..0] == EncodeAll([]);
      var ts := TokensOfDecoded(input, 0, [], capacity);
      assert Expansion(ts) == Some(out);
    }
    if ts :| Expansion(ts) == Some(out) && EncodeAll(ts) == input {
      DecodeEncoded(ts, capacity);
    }
  }

  /** A stream has one meaning: token lists with the same octets expand to the same data. */
  lemma {:induction false} MeaningIsUnambiguous(ts: seq<Token>, us: seq<Token>)
    requires Expansion(ts).Some? && Expansion(us).Some?
    requires EncodeAll(ts) == EncodeAll(us)
    ensures Expansion(ts) == Expansion(us)
  {
    var capacity := |Expansion(ts).value| + |Expansion(us).value|;
    DecodeEncoded(ts, capacity);
    DecodeEncoded(us, capacity);
  }

  // ----- how short a stream can be

  /** No octet occurs twice. */
  ghost predicate AllDistinct(s: seq<Octet>) {
    forall i, j :: 0 <= i < j < |s| ==> s[i] != s[j]
  }

  lemma CopyIsNotDistinct(out: seq<Octet>, distance: nat, length: nat)
    requires 1 <= distance <= |out| && length > 0
    ensures !AllDistinct(CopyBack(out, distance, length))
  {
    CopyBackRepeats(out, distance, length);
    var r := CopyBack(out, distance, length);
    assert r[|out|] == r[|out| - distance];
  }

  /**
    Distinct octets cannot be spelled with references, so every run costs its header: one octet in
    32, rounded up.
   */
  lemma {:induction false} DistinctNeedsRuns(ts: seq<Token>, out: seq<Octet>)
    requires Expansion(ts) == Some(out) && AllDistinct(out)
    ensures |EncodeAll(ts)| == |out| + |ts| && |out| <= MAX_LIT * |ts|
    ensures |EncodeAll(ts)| >= |out| + (|out| + 31) / 32
  {
    if ts == [] {
    } else {
      var front, last := ts[..|ts| - 1], ts[|ts| - 1];
      var shorter := Expansion(front).value;
      match last
      case Literal(run) =>
        assert shorter == out[..|shorter|];
        DistinctNeedsRuns(front, shorter);
      case Reference(distance, length) =>
        CopyIsNotDistinct(shorter, distance, length);
        assert false;
    }
  }

  /** Four distinct octets take five, which is more than 104% of four. */
  lemma FourTakeFive(ts: seq<Token>)
    requires Expansion(ts) == Some([0, 1, 2, 3])
    ensures |EncodeAll(ts)| >= 5 && 100 * |EncodeAll(ts)| > 104 * 4
  {
    DistinctNeedsRuns(ts, [0, 1, 2, 3]);
  }

  // ----- the octets themselves

  /** What has been decoded stays decoded when more octets follow. */
  lemma {:induction false} DecodeGoesOn(input: seq<Octet>, more: seq<Octet>, ip: nat, out: seq<Octet>, capacity: nat)
    requires ip <= |input| && Decode(input, ip, out, capacity).Done?
    ensures Decode(input + more, ip, out, capacity)
         == Decode(input + more, |input|, Decode(input, ip, out, capacity).out, capacity)
    decreases |input| - ip
  {
    if ip == |input| {
    } else {
      StepSeesOnlyItsToken(input, more, ip, out, capacity);
      var next := Step(input, ip, out, capacity);
      DecodeGoesOn(input, more, next.ip, next.out, capacity);
    }
  }

  lemma StepSeesOnlyItsToken(input: seq<Octet>, more: seq<Octet>, ip: nat, out: seq<Octet>, capacity: nat)
    requires ip < |input| && Step(input, ip, out, capacity).Next?
    ensures Step(input + more, ip, out, capacity) == Step(input, ip, out, capacity)
  {
    hide CopyBack;
    var ctrl := input[ip] as int;
    if ctrl < 32 {
      assert (input + more)[ip + 1..ip + ctrl + 2] == input[ip + 1..ip + ctrl + 2];
    }
  }

  /**
    A run, a short and a long reference, octet by octet, after a stream that decodes to `out`: five
    bits and an octet of offset, three bits of length less two, or seven and an octet of length less nine.
   */
  lemma DecodeOctets(input: seq<Octet>, out: seq<Octet>, capacity: nat, run: seq<Octet>, high: nat, low: Octet, n: nat)
    requires Decode(input, 0, [], capacity) == Done(out)
    requires 1 <= |run| <= 32 && high < 32 && n < 256
    ensures |out| + |run| <= capacity ==> Decode(input + [|run| - 1] + run, 0, [], capacity) == Done(out + run)
    ensures 256 * high + low < |out| && 1 <= n <= 6 && |out| + n + 2 <= capacity ==>
              Decode(input + [32 * n + high, low], 0, [], capacity) == Done(CopyBack(out, 256 * high + low + 1, n + 2))
    ensures 256 * high + low < |out| && |out| + n + 9 <= capacity ==>
              Decode(input + [224 + high, n, low], 0, [], capacity) == Done(CopyBack(out, 256 * high + low + 1, n + 9))
  {
    if |out| + |run| <= capacity {
      DecodeGoesOn(input, [|run| - 1] + run, 0, [], capacity);
      assert input + [|run| - 1] + run == input + ([|run| - 1] + run);
      RunOctets(input, out, capacity, run);
    }
    if 256 * high + low < |out| && 1 <= n <= 6 && |out| + n + 2 <= capacity {
      DecodeGoesOn(input, [32 * n + high, low], 0, [], capacity);
      ShortOctets(input, out, capacity, high, low, n);
    }
    if 256 * high + low < |out| && |out| + n + 9 <= capacity {
      DecodeGoesOn(input, [224 + high, n, low], 0, [], capacity);
      LongOctets(input, out, capacity, high, low, n);
    }
  }

  lemma RunOctets(input: seq<Octet>, out: seq<Octet>, capacity: nat, run: seq<Octet>)
    requires 1 <= |run| <= 32 && |out| + |run| <= capacity
    ensures Decode(input + ([|run| - 1] + run), |input|, out, capacity) == Done(out + run)
  {
    var s := input + ([|run| - 1] + run);
    assert s[|input| + 1..|input| + 1 + |run|] == run;
  }

  lemma ShortOctets(input: seq<Octet>, out: seq<Octet>, capacity: nat, high: nat, low: Octet, n: nat)
    requires high < 32 && 1 <= n <= 6 && 256 * high + low < |out| && |out| + n + 2 <= capacity
    ensures Decode(input + [32 * n + high, low], |input|, out, capacity)
         == Done(CopyBack(out, 256 * high + low + 1, n + 2))
  {
    hide CopyBack;
    assert (32 * n + high) / 32 == n && (32 * n + high) % 32 == high;
  }

  lemma LongOctets(input: seq<Octet>, out: seq<Octet>, capacity: nat, high: nat, low: Octet, n: nat)
    requires high < 32 && n < 256 && 256 * high + low < |out| && |out| + n + 9 <= capacity
    ensures Decode(input + [224 + high, n, low], |input|, out, capacity)
         == Done(CopyBack(out, 256 * high + low + 1, n + 9))
  {
    hide CopyBack;
    assert (224 + high) / 32 == 7 && (224 + high) % 32 == high;
  }

  /** Three octets, then nine more that repeat them: the length comes before the low octet of the offset. */
  lemma StreamOfSeven()
    ensures Decode([2, 65, 66, 67, 224, 0, 2], 0, [], 12) == Done(Repeated(12))
  {
    hide Decode, CopyBack;
    var abc: seq<Octet> := [65, 66, 67];
    NothingDecoded(12);
    DecodeOctets([], [], 12, abc, 0, 0, 0);
    assert [] + [2] + abc == [2, 65, 66, 67] && [] + abc == abc;
    DecodeOctets([2, 65, 66, 67], abc, 12, abc, 0, 2, 0);
    assert [2, 65, 66, 67] + [224, 0, 2] == [2, 65, 66, 67, 224, 0, 2];
    assert Repeated(12)[..3] == abc;
    CopyBackIsUnique(abc, 3, 9, Repeated(12));
  }

  lemma NothingDecoded(capacity: nat)
    ensures Decode([], 0, [], capacity) == Done([])
  {
  }

  /** A, B, C, A, B, C and so on. */
  function Repeated(n: nat): (s: seq<Octet>)
    ensures |s| == n && forall i :: 0 <= i < n ==> s[i] == 65 + i % 3
  {
    seq(n, i => 65 + i % 3)
  }

  /**
    Which error when there are two: a run that is both cut off and too long for the room is too big,
    a reference that is cut off is malformed even without room, and one that is too long for the
    room is too big even when it reaches back too far.
   */
  lemma FirstErrorDecides()
    ensures Decode([31], 0, [], 31) == TooBig && Decode([31], 0, [], 32) == Malformed
    ensures Decode([32], 0, [], 0) == Malformed && Decode([224, 0], 0, [], 0) == Malformed
    ensures Decode([32, 0], 0, [], 2) == TooBig && Decode([32, 0], 0, [], 3) == Malformed
    ensures Decode([224, 0, 0], 0, [], 8) == TooBig && Decode([224, 0, 0], 0, [], 9) == Malformed
  {
  }
}
