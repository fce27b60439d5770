/** `lzf_decompress`: the control-octet parser and its three ways of copying. */
module LzfDecompress {
  import opened LzfFormat

  /** What the C code leaves in errno. */
  datatype Errno = NoError | E2BIG | EINVAL

  /** The octets of `s` from `lo` to `hi`, copied one by one to `output` at `op`. */
  method CopyLiteral(input: seq<Octet>, ip: nat, output: array<Octet>, op: nat, ctrl: nat)
    requires ip + ctrl <= |input| && op + ctrl <= output.Length
    modifies output
    ensures output[..] == old(output[..op]) + input[ip..ip + ctrl] + old(output[op + ctrl..])
  {
    // The source's fall-through switch enters at case `ctrl` and runs down to case 1.
    var remaining, i, o := ctrl, ip, op;
    while remaining > 0
      invariant 0 <= remaining <= ctrl && i == ip + ctrl - remaining && o == op + ctrl - remaining
      invariant output[..op] == old(output[..op])
      invariant output[op..o] == input[ip..i]
      invariant output[o..] == old(output[o..])
    {
      output[o] := input[i];
      o, i, remaining := o + 1, i + 1, remaining - 1;
    }
    assert output[..] == output[..op] + output[op..o] + output[o..];
  }

  /**
    Copies `len + 2` octets from `ref` to `op`. The two areas overlap whenever the distance is
    less than the length, and the octets written are then read back.
   */
  method CopyReference(output: array<Octet>, op: nat, ref: nat, len: nat)
    requires ref < op && 1 <= len && op + len + 2 <= output.Length
    modifies output
    ensures output[..op + len + 2] == CopyBack(old(output[..op]), op - ref, len + 2)
    ensures output[op + len + 2..] == old(output[op + len + 2..])
  {
    var count := len + 2;
    if len > 9 {
      if op >= ref + count {
        // disjoint areas: memcpy
        forall i | op <= i < op + count {
          output[i] := output[i - (op - ref)];
        }
      } else {
        CopyOctets(output, op, ref, count);
      }
    } else {
      // the fall-through switch on cases 9 to 0, which copies len + 2 octets
      CopyOctets(output, op, ref, count);
    }
    var after := output[..op + count];
    assert after[..op] == old(output[..op]);
    forall i | op <= i < op + count ensures after[i] == after[i - (op - ref)] {
      assert after[i] == output[i] && after[i - (op - ref)] == output[i - (op - ref)];
    }
    CopyBackIsUnique(old(output[..op]), op - ref, count, after);
  }

  /** Octet by octet, so that each one written may be read again. */
  method CopyOctets(output: array<Octet>, op: nat, ref: nat, count: nat)
    requires ref < op && op + count <= output.Length
    modifies output
    ensures output[..op] == old(output[..op])
    ensures output[op + count..] == old(output[op + count..])
    ensures forall i :: op <= i < op + count ==> output[i] == output[i - (op - ref)]
  {
    var remaining, o, r := count, op, ref;
    while remaining > 0
      invariant 0 <= remaining <= count && o == op + count - remaining && r == ref + count - remaining
      invariant output[..op] == old(output[..op])
      invariant output[op + count..] == old(output[op + count..])
      invariant forall i :: op <= i < o ==> output[i] == output[i - (op - ref)]
    {
      output[o] := output[r];
      o, r, remaining := o + 1, r + 1, remaining - 1;
    }
  }

  /** What one turn of the decompressor's loop must have done, in terms of `Step`. */
  ghost predicate Turned(p: Progress, ip: nat, before: seq<Octet>, after: seq<Octet>, op: nat, errno: Errno)
    requires |before| == |after|
  {
    match p
    case Next(next, out) =>
      && errno == NoError && ip == next
      && op == |out| <= |after| && after[..op] == out && after[op..] == before[op..]
    case Stop(error) => errno == if error.TooBig? then E2BIG else EINVAL
  }

  /** The branch for a control octet below 32. */
  method LiteralRun(input: seq<Octet>, ip0: nat, output: array<Octet>, op0: nat)
    returns (ip: nat, op: nat, errno: Errno)
    requires ip0 < |input| && input[ip0] < 32 && op0 <= output.Length
    modifies output
    ensures Turned(Step(input, ip0, old(output[..op0]), output.Length), ip, old(output[..]), output[..], op, errno)
  {
    ip, op, errno := ip0 + 1, op0, NoError;
    var ctrl := input[ip0] as int + 1;
    if op + ctrl > output.Length {
      errno := E2BIG;
    } else if ip + ctrl > |input| {
      errno := EINVAL;
    } else {
      CopyLiteral(input, ip, output, op, ctrl);
      ip, op := ip + ctrl, op + ctrl;
      assert output[..op] == old(output[..op0]) + input[ip0 + 1..ip];
    }
  }

  /** The branch for a back reference. */
  method BackReference(input: seq<Octet>, ip0: nat, output: array<Octet>, op0: nat)
    returns (ip: nat, op: nat, errno: Errno)
    requires ip0 < |input| && input[ip0] >= 32 && op0 <= output.Length
    modifies output
    ensures Turned(Step(input, ip0, old(output[..op0]), output.Length), ip, old(output[..]), output[..], op, errno)
  {
    ip, op, errno := ip0 + 1, op0, NoError;
    var ctrl := input[ip0] as int;
    var len := ctrl / 32;
    var ref := op - ctrl % 32 * 256 - 1;
    if ip >= |input| {
      return ip, op, EINVAL;
    }
    if len == 7 {
      len := len + input[ip] as int;
      ip := ip + 1;
      if ip >= |input| {
        return ip, op, EINVAL;
      }
    }
    ref := ref - input[ip] as int;
    ip := ip + 1;
    if op + len + 2 > output.Length {
      return ip, op, E2BIG;
    }
    if ref < 0 {
      return ip, op, EINVAL;
    }
    CopyReference(output, op, ref, len);
    op := op + len + 2;
  }

  /**
    Returns the number of octets produced, or 0 and an error. The loop tests for the end of the
    input only after a token, so there must be at least one octet.
   */
  method Decompress(input: seq<Octet>, output: array<Octet>) returns (n: nat, errno: Errno)
    requires |input| >= 1
    modifies output
    ensures n <= output.Length
    ensures match Decode(input, 0, [], output.Length)
            case Done(out) =>
              errno == NoError && n == |out| >= 1 && output[..n] == out && output[n..] == old(output[n..])
            case TooBig => n == 0 && errno == E2BIG
            case Malformed => n == 0 && errno == EINVAL
  {
    var ip, op := 0, 0;
    var again := true;
    assert output[..op] == [];
    while again
      invariant 0 <= ip <= |input| && 0 <= op <= output.Length
      invariant again == (ip == 0 || ip < |input|)
      invariant ip == 0 <==> op == 0
      invariant Decode(input, 0, [], output.Length) == Decode(input, ip, output[..op], output.Length)
      invariant output[op..] == old(output[op..])
      decreases |input| - ip
    {
      ghost var before := output[..];
      ghost var step := Step(input, ip, before[..op], output.Length);
      assert before[..op] == output[..op];
      var error;
      if input[ip] < 32 {
        ip, op, error := LiteralRun(input, ip, output, op);
      } else {
        ip, op, error := BackReference(input, ip, output, op);
      }
      if error != NoError {
        return 0, error;
      }
      assert output[op..] == output[..][op..] == before[op..];
      again := ip < |input|;
    }
    return op, NoError;
  }
}
