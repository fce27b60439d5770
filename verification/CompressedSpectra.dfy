/** The compressed intensities of one scan, and the codec's round trip. */
module CompressedSpectra {
  import opened LzfFormat
  import opened MachineWords
  import LzfCompress
  import LzfMatches
  import LzfDecompress

  /** A 32-bit word as it lies in memory, lowest octet first. */
  function WordOctets(w: Word): (s: seq<Octet>)
    ensures |s| == 4
    ensures var u := s[0] as int + 256 * s[1] as int + 65536 * s[2] as int + 16777216 * s[3] as int;
            u == if w < 0 then w as int + 0x1_0000_0000 else w as int
  {
    var u := if w < 0 then w + 0x1_0000_0000 else w;
    SplitInFour(u);
    [u % 256, u / 256 % 256, u / 65536 % 256, u / 16777216]
  }

  lemma SplitInFour(u: nat)
    ensures u % 256 + 256 * (u / 256 % 256) + 65536 * (u / 65536 % 256) + 16777216 * (u / 16777216) == u
  {
    var u1 := u / 256;
    var u2 := u1 / 256;
    assert u / 65536 == u2;
    assert u / 16777216 == u2 / 256;
  }

  function OctetsWord(s: seq<Octet>): Word
    requires |s| == 4
  {
    var u := s[0] as int + 256 * s[1] as int + 65536 * s[2] as int + 16777216 * s[3] as int;
    if u >= 0x8000_0000 then u - 0x1_0000_0000 else u
  }

  function Octets(words: seq<Word>): (s: seq<Octet>)
    ensures |s| == 4 * |words|
  {
    if words == [] then [] else WordOctets(words[0]) + Octets(words[1..])
  }

  function Words(s: seq<Octet>): seq<Word>
    requires |s| % 4 == 0
  {
    if s == [] then [] else [OctetsWord(s[..4])] + Words(s[4..])
  }

  lemma WordRoundTrip(w: Word)
    ensures OctetsWord(WordOctets(w)) == w
  {
  }

  /** A word's octets, lowest first, and the words one after the other. */
  lemma {:induction false} OctetsOfWords(words: seq<Word>, i: nat)
    requires i < |words|
    ensures var s := Octets(words);
            s[4 * i] as int + 256 * s[4 * i + 1] as int + 65536 * s[4 * i + 2] as int + 16777216 * s[4 * i + 3] as int
            == if words[i] < 0 then words[i] as int + 0x1_0000_0000 else words[i] as int
  {
    hide WordOctets;
    var s, rest := Octets(words), Octets(words[1..]);
    assert s == WordOctets(words[0]) + rest;
    if i == 0 {
    } else {
      OctetsOfWords(words[1..], i - 1);
      var j := 4 * (i - 1);
      assert s[4 * i] == rest[j] && s[4 * i + 1] == rest[j + 1];
      assert s[4 * i + 2] == rest[j + 2] && s[4 * i + 3] == rest[j + 3];
    }
  }

  lemma {:induction false} WordsRoundTrip(words: seq<Word>)
    ensures Words(Octets(words)) == words
  {
    if words == [] {
    } else {
      hide WordOctets, OctetsWord;
      var s := Octets(words);
      assert s[..4] == WordOctets(words[0]);
      assert s[4..] == Octets(words[1..]);
      WordRoundTrip(words[0]);
      WordsRoundTrip(words[1..]);
    }
  }

  /**
    `get_compressed_spectra`: the stream, its length, and whether the terminating zero octet lies
    inside the buffer. The source stores that octet unconditionally.
   */
  method GetCompressedSpectra(encodedSpectra: seq<Word>)
    returns (lzfBuffer: array<Octet>, bytes: nat, terminated: bool)
    ensures fresh(lzfBuffer) && bytes <= lzfBuffer.Length == 8 * |encodedSpectra|
    ensures terminated <==> encodedSpectra != []
    ensures terminated ==> bytes < lzfBuffer.Length && lzfBuffer[bytes] == 0
    ensures bytes > 0 <==> encodedSpectra != []
    ensures bytes <= 4 * |encodedSpectra| + (4 * |encodedSpectra| + 31) / 32
    // a spectrum of equal octets, as one without a sample is, takes next to nothing
    ensures LzfMatches.AllEqual(Octets(encodedSpectra)) ==>
              bytes <= 3 * (|Octets(encodedSpectra)| / MAX_REF) + 9
    ensures encodedSpectra != [] ==>
              forall capacity: nat :: capacity >= 4 * |encodedSpectra| ==>
                Decode(lzfBuffer[..bytes], 0, [], capacity) == Done(Octets(encodedSpectra))
  {
    hide *;
    var encodedSize := |encodedSpectra| * 4;
    var processingBufferSize := encodedSize * 2;
    lzfBuffer := new Octet[processingBufferSize];
    var input := Octets(encodedSpectra);
    ghost var tokens;
    bytes, tokens := LzfCompress.Compress(LzfCompress.LzfIndex, input, lzfBuffer);
    LzfCompress.LzfIndexOfThree();
    NothingIsShort(|input|);
    terminated := bytes < lzfBuffer.Length;
    ghost var stream := lzfBuffer[..bytes];
    if terminated {
      lzfBuffer[bytes] := 0;
    }
    assert lzfBuffer[..bytes] == stream;
    forall capacity: nat | bytes > 0 && capacity >= |input|
      ensures Decode(stream, 0, [], capacity) == Done(input)
    {
      DecodeEncoded(tokens, capacity);
    }
  }

  lemma NothingIsShort(n: nat)
    ensures 0 <= 3 * (n / MAX_REF) + 9
  {
  }

  /**
    Compressing and decompressing: for every hash function and both buffer sizes, whenever the
    compressor succeeds and the decompressor has room, the input comes back.
   */
  method RoundTrip(index: nat -> nat, input: seq<Octet>, outLen: nat, capacity: nat)
    returns (k: nat, n: nat, result: seq<Octet>)
    requires forall h: nat :: index(h) < LzfCompress.HSIZE
    ensures k <= outLen
    ensures |input| >= 2 && outLen >= 2 * |input| ==> k > 0
    ensures |input| >= 1 && 32 * (outLen - 4) >= 33 * |input| ==> k > 0
    ensures k > 0 && capacity >= |input| ==> n == |input| && result == input
    ensures k == 0 || capacity < |input| ==> n == 0
  {
    hide *;
    var compressed := new Octet[outLen];
    ghost var tokens;
    k, tokens := LzfCompress.Compress(index, input, compressed);
    n, result := 0, [];
    if k > 0 {
      var stream := compressed[..k];
      var output := new Octet[capacity];
      var errno;
      n, errno := LzfDecompress.Decompress(stream, output);
      result := output[..n];
      DecodeEncoded(tokens, capacity);
    }
  }
}
