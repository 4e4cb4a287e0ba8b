/**
 The unpadded base64url codec of join tokens (src/join.rs), against sections 3.5 and 5 of
 RFC 4648. Characters are represented by their byte codes, as in the source.
 */
module Base64Url {
  import opened Wrappers

  type byte = x: int | 0 <= x < 256
  type sextet = x: int | 0 <= x < 64

  datatype DecodeError = InvalidCharacter(b: byte) | InvalidChunkLength

  /** The alphabet of section 5 of RFC 4648: A-Z, a-z, 0-9, '-', '_'. */
  function Alphabet(v: sextet): byte {
    if v < 26 then 65 + v
    else if v < 52 then 97 + (v - 26)
    else if v < 62 then 48 + (v - 52)
    else if v == 62 then 45
    else 95
  }

  function Value(b: byte): Option<sextet> {
    if 65 <= b <= 90 then Some(b - 65)
    else if 97 <= b <= 122 then Some(b - 97 + 26)
    else if 48 <= b <= 57 then Some(b - 48 + 52)
    else if b == 45 then Some(62)
    else if b == 95 then Some(63)
    else None
  }

  predicate InAlphabet(s: seq<byte>) {
    forall i | 0 <= i < |s| :: Value(s[i]).Some?
  }

  function PackBytes(b0: int, b1: int, b2: int): int {
    b0 * 65536 + b1 * 256 + b2
  }

  function PackSextets(v0: int, v1: int, v2: int, v3: int): int {
    v0 * 262144 + v1 * 4096 + v2 * 64 + v3
  }

  /** The characters for one chunk of one to three bytes. */
  function EncodeChunk(c: seq<byte>): seq<byte>
    requires 1 <= |c| <= 3
  {
    var n := PackBytes(c[0], if |c| > 1 then c[1] else 0, if |c| > 2 then c[2] else 0);
    [Alphabet(n / 262144 % 64), Alphabet(n / 4096 % 64)]
    + (if |c| > 1 then [Alphabet(n / 64 % 64)] else [])
    + (if |c| > 2 then [Alphabet(n % 64)] else [])
  }

  function Encode(d: seq<byte>): seq<byte> {
    if d == [] then []
    else
      var k := if |d| < 3 then |d| else 3;
      EncodeChunk(d[..k]) + Encode(d[k..])
  }

  /** The six-bit values of a chunk, or the first character outside the alphabet. */
  function Values(c: seq<byte>): (r: Result<seq<sextet>, DecodeError>)
    ensures r.Ok? ==> |r.value| == |c| && forall i | 0 <= i < |c| :: Value(c[i]) == Some(r.value[i])
    ensures r.Err? ==> r.error.InvalidCharacter? && !InAlphabet(c)
  {
    if c == [] then Ok([])
    else
      match Value(c[0])
      case None => Err(InvalidCharacter(c[0]))
      case Some(v) =>
        match Values(c[1..])
        case Err(e) => Err(e)
        case Ok(vs) => Ok([v] + vs)
  }

  function BytesOf(v: seq<sextet>): seq<byte>
    requires 2 <= |v| <= 4
  {
    var n := PackSextets(v[0], v[1], if |v| > 2 then v[2] else 0, if |v| > 3 then v[3] else 0);
    [n / 65536 % 256]
    + (if |v| > 2 then [n / 256 % 256] else [])
    + (if |v| > 3 then [n % 256] else [])
  }

  /** The bytes for one chunk of one to four characters. */
  function DecodeChunk(c: seq<byte>): Result<seq<byte>, DecodeError>
    requires 1 <= |c| <= 4
  {
    match Values(c)
    case Err(e) => Err(e)
    case Ok(v) => if |v| < 2 then Err(InvalidChunkLength) else Ok(BytesOf(v))
  }

  /** The output so far followed by the output of the rest, or the first error. */
  function Append(head: Result<seq<byte>, DecodeError>, tail: Result<seq<byte>, DecodeError>)
    : Result<seq<byte>, DecodeError>
  {
    if head.Err? then head
    else if tail.Err? then tail
    else Ok(head.value + tail.value)
  }

  function Decode(s: seq<byte>): Result<seq<byte>, DecodeError> {
    if s == [] then Ok([])
    else
      var k := if |s| < 4 then |s| else 4;
      Append(DecodeChunk(s[..k]), Decode(s[k..]))
  }

  const UPPER := "ABCDEFGHIJKLMNOPQRSTUVWXYZ"
  const LOWER := "abcdefghijklmnopqrstuvwxyz"
  const DIGITS := "0123456789"

  /** The table of section 5 of RFC 4648. */
  const TABLE := UPPER + LOWER + DIGITS + "-_"

  lemma UpperCountsUp(i: nat)
    requires i < 26
    ensures |UPPER| == 26 && UPPER[i] as int == 65 + i
  {
  }

  lemma LowerCountsUp(i: nat)
    requires i < 26
    ensures |LOWER| == 26 && LOWER[i] as int == 97 + i
  {
  }

  lemma DigitsCountUp(i: nat)
    requires i < 10
    ensures |DIGITS| == 10 && DIGITS[i] as int == 48 + i
  {
  }

  lemma AlphabetIsTable(v: sextet)
    ensures |TABLE| == 64 && Alphabet(v) == TABLE[v] as int
  {
    UpperCountsUp(if v < 26 then v else 0);
    LowerCountsUp(if 26 <= v < 52 then v - 26 else 0);
    DigitsCountUp(if 52 <= v < 62 then v - 52 else 0);
    assert v < 26 ==> TABLE[v] == UPPER[v];
    assert 26 <= v < 52 ==> TABLE[v] == LOWER[v - 26];
    assert 52 <= v < 62 ==> TABLE[v] == DIGITS[v - 52];
  }

  lemma ValueOfAlphabet(v: sextet)
    ensures Value(Alphabet(v)) == Some(v)
  {
  }

  lemma AlphabetOfValue(b: byte)
    requires Value(b).Some?
    ensures Alphabet(Value(b).value) == b
  {
  }

  // ---- What one chunk carries ----

  lemma MultipleGrows(k: int, d: int)
    requires 0 < d
    ensures k >= 1 ==> k * d >= d
    ensures k <= -1 ==> k * d <= -d
  {
    if k >= 1 {
      assert (k - 1) * d >= 0;
    } else if k <= -1 {
      assert (-k - 1) * d >= 0;
    }
  }

  lemma DivMod(x: int, d: int, q: int, r: int)
    requires 0 < d && x == q * d + r && 0 <= r < d
    ensures x / d == q && x % d == r
  {
    var q', r' := x / d, x % d;
    assert x == q' * d + r';
    assert (q' - q) * d == q' * d - q * d;
    MultipleGrows(q' - q, d);
  }

  lemma ChunkSextets(b0: byte, b1: byte, b2: byte)
    ensures
      var n := PackBytes(b0, b1, b2);
      && n / 262144 % 64 == b0 / 4
      && n / 4096 % 64 == b0 % 4 * 16 + b1 / 16
      && n / 64 % 64 == b1 % 16 * 4 + b2 / 64
      && n % 64 == b2 % 64
  {
    var n := PackBytes(b0, b1, b2);
    DivMod(n, 262144, b0 / 4, b0 % 4 * 65536 + b1 * 256 + b2);
    DivMod(n, 4096, b0 * 16 + b1 / 16, b1 % 16 * 256 + b2);
    DivMod(b0 * 16 + b1 / 16, 64, b0 / 4, b0 % 4 * 16 + b1 / 16);
    DivMod(n, 64, b0 * 1024 + b1 * 4 + b2 / 64, b2 % 64);
    DivMod(b0 * 1024 + b1 * 4 + b2 / 64, 64, b0 * 16 + b1 / 16, b1 % 16 * 4 + b2 / 64);
  }

  lemma ChunkBytes(v0: sextet, v1: sextet, v2: sextet, v3: sextet)
    ensures
      var n := PackSextets(v0, v1, v2, v3);
      && n / 65536 % 256 == v0 * 4 + v1 / 16
      && n / 256 % 256 == v1 % 16 * 16 + v2 / 4
      && n % 256 == v2 % 4 * 64 + v3
  {
    var n := PackSextets(v0, v1, v2, v3);
    DivMod(n, 65536, v0 * 4 + v1 / 16, v1 % 16 * 4096 + v2 * 64 + v3);
    DivMod(n, 256, v0 * 1024 + v1 * 16 + v2 / 4, v2 % 4 * 64 + v3);
    DivMod(v0 * 1024 + v1 * 16 + v2 / 4, 256, v0 * 4 + v1 / 16, v1 % 16 * 16 + v2 / 4);
  }

  // ---- The six-bit groups of section 4 of RFC 4648 ----

  function ByteAt(d: seq<byte>, i: nat): byte {
    if i < |d| then d[i] else 0
  }

  /** The six bits that follow the first `offset` bits of two bytes. */
  function SixOf(b0: byte, b1: byte, offset: int): int {
    var twoBytes := b0 * 256 + b1;
    match offset
    case 0 => twoBytes / 1024 % 64
    case 2 => twoBytes / 256 % 64
    case 4 => twoBytes / 64 % 64
    case _ => twoBytes / 16 % 64
  }

  /** Bits 6k to 6k + 5 of the byte string read as one string of bits, with zeros after its end. */
  function SixBits(d: seq<byte>, k: nat): int {
    SixOf(ByteAt(d, 6 * k / 8), ByteAt(d, 6 * k / 8 + 1), 6 * k % 8)
  }

  lemma SixOfTwoBytes(b0: byte, b1: byte)
    ensures SixOf(b0, b1, 0) == b0 / 4
    ensures SixOf(b0, b1, 2) == b0 % 64
    ensures SixOf(b0, b1, 4) == b0 % 16 * 4 + b1 / 64
    ensures SixOf(b0, b1, 6) == b0 % 4 * 16 + b1 / 16
  {
    var n := b0 * 256 + b1;
    assert SixOf(b0, b1, 0) == b0 / 4 by {
      DivMod(n, 1024, b0 / 4, b0 % 4 * 256 + b1);
    }
    assert SixOf(b0, b1, 2) == b0 % 64 by {
      DivMod(n, 256, b0, b1);
    }
    assert SixOf(b0, b1, 4) == b0 % 16 * 4 + b1 / 64 by {
      DivMod(n, 64, b0 * 4 + b1 / 64, b1 % 64);
      DivMod(b0 * 4 + b1 / 64, 64, b0 / 16, b0 % 16 * 4 + b1 / 64);
    }
    assert SixOf(b0, b1, 6) == b0 % 4 * 16 + b1 / 16 by {
      DivMod(n, 16, b0 * 16 + b1 / 16, b1 % 16);
      DivMod(b0 * 16 + b1 / 16, 64, b0 / 4, b0 % 4 * 16 + b1 / 16);
    }
  }

  /** The first four groups depend on the first three bytes only. */
  lemma FirstGroups(d: seq<byte>)
    ensures SixBits(d, 0) == ByteAt(d, 0) / 4
    ensures SixBits(d, 1) == ByteAt(d, 0) % 4 * 16 + ByteAt(d, 1) / 16
    ensures SixBits(d, 2) == ByteAt(d, 1) % 16 * 4 + ByteAt(d, 2) / 64
    ensures SixBits(d, 3) == ByteAt(d, 2) % 64
  {
    SixOfTwoBytes(ByteAt(d, 0), ByteAt(d, 1));
    SixOfTwoBytes(ByteAt(d, 1), ByteAt(d, 2));
    SixOfTwoBytes(ByteAt(d, 2), ByteAt(d, 3));
    assert 6 * 1 / 8 == 0 && 6 * 2 / 8 == 1 && 6 * 3 / 8 == 2;
  }

  /** Four groups further on are the groups of the string without its first three bytes. */
  lemma LaterGroups(d: seq<byte>, k: nat)
    requires |d| >= 3
    ensures SixBits(d, k + 4) == SixBits(d[3..], k)
  {
    assert 6 * (k + 4) == 6 * k + 24;
    DivMod(6 * k + 24, 8, 6 * k / 8 + 3, 6 * k % 8);
    assert forall i: nat :: ByteAt(d, i + 3) == ByteAt(d[3..], i);
    assert ByteAt(d, 6 * k / 8 + 1 + 3) == ByteAt(d[3..], 6 * k / 8 + 1);
  }

  // ---- The two directions ----

  lemma {:induction false} ValuesAre(c: seq<byte>, vs: seq<sextet>)
    requires |c| == |vs| && forall i | 0 <= i < |c| :: Value(c[i]) == Some(vs[i])
    ensures Values(c) == Ok(vs)
  {
    if c != [] {
      ValuesAre(c[1..], vs[1..]);
      assert vs == [vs[0]] + vs[1..];
    }
  }

  function Byte0(v0: int, v1: int): int { v0 * 4 + v1 / 16 }

  function Byte1(v1: int, v2: int): int { v1 % 16 * 16 + v2 / 4 }

  function Byte2(v2: int, v3: int): int { v2 % 4 * 64 + v3 }

  lemma BytesOfValues(v: seq<sextet>)
    requires 2 <= |v| <= 4
    ensures |BytesOf(v)| == |v| - 1 && BytesOf(v)[0] == Byte0(v[0], v[1])
    ensures |v| > 2 ==> BytesOf(v)[1] == Byte1(v[1], v[2])
    ensures |v| > 3 ==> BytesOf(v)[2] == Byte2(v[2], v[3])
  {
    ChunkBytes(v[0], v[1], if |v| > 2 then v[2] else 0, if |v| > 3 then v[3] else 0);
  }

  lemma Regroup(b0: byte, b1: byte, b2: byte)
    ensures Byte0(b0 / 4, b0 % 4 * 16 + b1 / 16) == b0
    ensures Byte1(b0 % 4 * 16 + b1 / 16, b1 % 16 * 4 + b2 / 64) == b1
    ensures Byte2(b1 % 16 * 4 + b2 / 64, b2 % 64) == b2
  {
    DivMod(b0 % 4 * 16 + b1 / 16, 16, b0 % 4, b1 / 16);
    DivMod(b1 % 16 * 4 + b2 / 64, 4, b1 % 16, b2 / 64);
  }

  /** The groups of one chunk, without its last one when the chunk is short. */
  function Sextets(c: seq<byte>): (v: seq<sextet>)
    requires 1 <= |c| <= 3
    ensures |v| == |c| + 1
  {
    var b0, b1, b2 := ByteAt(c, 0), ByteAt(c, 1), ByteAt(c, 2);
    [b0 / 4, b0 % 4 * 16 + b1 / 16, b1 % 16 * 4 + b2 / 64, b2 % 64][..|c| + 1]
  }

  lemma ChunkValues(c: seq<byte>)
    requires 1 <= |c| <= 3
    ensures |EncodeChunk(c)| == |c| + 1 && Values(EncodeChunk(c)) == Ok(Sextets(c))
  {
    var b0, b1, b2 := ByteAt(c, 0), ByteAt(c, 1), ByteAt(c, 2);
    ChunkSextets(b0, b1, b2);
    forall k | 0 <= k < |c| + 1 {
      ValueOfAlphabet(Sextets(c)[k]);
    }
    ValuesAre(EncodeChunk(c), Sextets(c));
  }

  lemma ChunkFollowsBits(c: seq<byte>, k: nat)
    requires 1 <= |c| <= 3 && k <= |c|
    ensures |EncodeChunk(c)| == |c| + 1 && Value(EncodeChunk(c)[k]) == Some(SixBits(c, k))
  {
    ChunkValues(c);
    FirstGroups(c);
    assert Value(EncodeChunk(c)[k]) == Some(Sextets(c)[k]);
  }

  lemma EncodeSplits(d: seq<byte>)
    requires d != []
    ensures
      var k := if |d| < 3 then |d| else 3;
      |EncodeChunk(d[..k])| == k + 1 && Encode(d) == EncodeChunk(d[..k]) + Encode(d[k..])
  {
    ChunkValues(d[..if |d| < 3 then |d| else 3]);
  }

  lemma {:induction false} EncodedLength(d: seq<byte>)
    ensures |Encode(d)| == (8 * |d| + 5) / 6
  {
    if d != [] {
      EncodeSplits(d);
      EncodedLength(d[if |d| < 3 then |d| else 3..]);
    }
  }

  lemma FirstGroupsOfHead(d: seq<byte>, k: nat)
    requires k < 4 && 6 * k < 8 * |d|
    ensures SixBits(d, k) == SixBits(d[..if |d| < 3 then |d| else 3], k)
  {
    var head := d[..if |d| < 3 then |d| else 3];
    assert ByteAt(d, 0) == ByteAt(head, 0) && ByteAt(d, 1) == ByteAt(head, 1) && ByteAt(d, 2) == ByteAt(head, 2);
    FirstGroups(d);
    FirstGroups(head);
  }

  /** Section 4 of RFC 4648: character `k` of the encoding stands for the k-th group of six bits,
      the last group being filled up with zeros; there is no padding. */
  lemma {:induction false} EncodingFollowsBits(d: seq<byte>, k: nat)
    requires 6 * k < 8 * |d|
    ensures |Encode(d)| == (8 * |d| + 5) / 6
    ensures Value(Encode(d)[k]) == Some(SixBits(d, k))
  {
    EncodedLength(d);
    EncodeSplits(d);
    if k < 4 {
      FirstGroupsOfHead(d, k);
      ChunkFollowsBits(d[..if |d| < 3 then |d| else 3], k);
    } else {
      EncodingFollowsBits(d[3..], k - 4);
      LaterGroups(d, k - 4);
    }
  }

  lemma BytesOfSextets(c: seq<byte>)
    requires 1 <= |c| <= 3
    ensures BytesOf(Sextets(c)) == c
  {
    var b0, b1, b2 := ByteAt(c, 0), ByteAt(c, 1), ByteAt(c, 2);
    BytesOfValues(Sextets(c));
    Regroup(b0, b1, b2);
    assert BytesOf(Sextets(c))[0] == c[0];
    if |c| > 1 {
      assert BytesOf(Sextets(c))[1] == Byte1(b0 % 4 * 16 + b1 / 16, b1 % 16 * 4 + b2 / 64) == c[1];
    }
    if |c| > 2 {
      assert BytesOf(Sextets(c))[2] == Byte2(b1 % 16 * 4 + b2 / 64, b2 % 64) == c[2];
    }
  }

  lemma ChunkRoundTrip(c: seq<byte>)
    requires 1 <= |c| <= 3
    ensures |EncodeChunk(c)| == |c| + 1 && DecodeChunk(EncodeChunk(c)) == Ok(c)
  {
    ChunkValues(c);
    BytesOfSextets(c);
  }

  /** Decoding undoes encoding, for every byte string. */
  lemma {:induction false} RoundTrip(d: seq<byte>)
    ensures Decode(Encode(d)) == Ok(d)
  {
    if d != [] {
      var k := if |d| < 3 then |d| else 3;
      var head, tail := EncodeChunk(d[..k]), Encode(d[k..]);
      ChunkRoundTrip(d[..k]);
      RoundTrip(d[k..]);
      if |d| < 3 {
        assert tail == [] && head + tail == head && head[..|head|] == head;
      } else {
        assert (head + tail)[..4] == head && (head + tail)[4..] == tail;
      }
      assert d == d[..k] + d[k..];
    }
  }

  lemma AlphabetSplits(s: seq<byte>, k: nat)
    requires k <= |s|
    ensures InAlphabet(s) <==> InAlphabet(s[..k]) && InAlphabet(s[k..])
  {
    if InAlphabet(s[..k]) && InAlphabet(s[k..]) {
      forall i | 0 <= i < |s|
        ensures Value(s[i]).Some?
      {
        assert s[i] == if i < k then s[..k][i] else s[k..][i - k];
      }
    }
  }

  /** Decoding succeeds exactly on texts over the alphabet whose length is not 1 modulo 4. */
  lemma {:induction false} DecodeSucceedsExactly(s: seq<byte>)
    ensures Decode(s).Ok? <==> InAlphabet(s) && |s| % 4 != 1
    ensures InAlphabet(s) && |s| % 4 == 1 ==> Decode(s) == Err(InvalidChunkLength)
  {
    if s != [] {
      var k := if |s| < 4 then |s| else 4;
      var head, tail := s[..k], s[k..];
      AlphabetSplits(s, k);
      ChunkSucceeds(head);
      DecodeSucceedsExactly(tail);
      assert Decode(s) == Append(DecodeChunk(head), Decode(tail));
      if k < 4 {
        assert tail == [];
      } else {
        assert |tail| % 4 == |s| % 4;
      }
    }
  }

  lemma ChunkSucceeds(c: seq<byte>)
    requires 1 <= |c| <= 4
    ensures DecodeChunk(c).Ok? <==> InAlphabet(c) && |c| != 1
    ensures InAlphabet(c) && |c| == 1 ==> DecodeChunk(c) == Err(InvalidChunkLength)
  {
  }

  /** Any other failure is reported as the first character outside the alphabet. */
  lemma {:induction false} DecodeReportsFirstInvalid(s: seq<byte>, k: nat)
    requires k < |s| && Value(s[k]).None? && InAlphabet(s[..k])
    ensures Decode(s) == Err(InvalidCharacter(s[k]))
  {
    if k < 4 {
      var n := if |s| < 4 then |s| else 4;
      assert s[..n][..k] == s[..k];
      ValuesReportFirstInvalid(s[..n], k);
    } else {
      assert s[..4] == s[..k][..4] && s[4..][..k - 4] == s[..k][4..];
      ChunkSucceeds(s[..4]);
      DecodeReportsFirstInvalid(s[4..], k - 4);
    }
  }

  lemma {:induction false} ValuesReportFirstInvalid(c: seq<byte>, k: nat)
    requires k < |c| && Value(c[k]).None? && InAlphabet(c[..k])
    ensures Values(c) == Err(InvalidCharacter(c[k]))
  {
    if k > 0 {
      assert c[..k][0] == c[0] && c[1..][..k - 1] == c[..k][1..];
      ValuesReportFirstInvalid(c[1..], k - 1);
    }
  }

  /** The bits of the last character that no byte uses are zero. */
  predicate UnusedBitsZero(s: seq<byte>)
    requires InAlphabet(s)
  {
    && (|s| % 4 == 2 ==> Value(s[|s| - 1]).value % 16 == 0)
    && (|s| % 4 == 3 ==> Value(s[|s| - 1]).value % 4 == 0)
  }

  lemma SextetsOfBytes(v: seq<sextet>)
    requires 2 <= |v| <= 4
    ensures |BytesOf(v)| == |v| - 1
    ensures Sextets(BytesOf(v)) == v <==> (|v| == 2 ==> v[1] % 16 == 0) && (|v| == 3 ==> v[2] % 4 == 0)
  {
    BytesOfValues(v);
    var d := BytesOf(v);
    var v2, v3 := if |v| > 2 then v[2] else 0, if |v| > 3 then v[3] else 0;
    DivMod(Byte0(v[0], v[1]), 4, v[0], v[1] / 16);
    DivMod(Byte1(v[1], v2), 16, v[1] % 16, v2 / 4);
    DivMod(Byte2(v2, v3), 64, v2 % 4, v3);
  }

  lemma ValuesInjective(a: seq<byte>, b: seq<byte>)
    requires Values(a).Ok? && Values(a) == Values(b)
    ensures a == b
  {
    forall i | 0 <= i < |a|
      ensures a[i] == b[i]
    {
      AlphabetOfValue(a[i]);
      AlphabetOfValue(b[i]);
    }
  }

  lemma ReencodeChunk(c: seq<byte>)
    requires 2 <= |c| <= 4 && InAlphabet(c)
    ensures DecodeChunk(c).Ok? && |DecodeChunk(c).value| == |c| - 1
    ensures EncodeChunk(DecodeChunk(c).value) == c <==> UnusedBitsZero(c)
  {
    ChunkSucceeds(c);
    var v := Values(c).value;
    SextetsOfBytes(v);
    ChunkValues(BytesOf(v));
    if Sextets(BytesOf(v)) == v {
      ValuesInjective(EncodeChunk(BytesOf(v)), c);
    }
  }

  /** Section 3.5 of RFC 4648: of the texts that decode, re-encoding gives back exactly the
      canonical ones, whose unused low bits are zero. */
  lemma {:induction false} ReencodeExactlyCanonical(s: seq<byte>)
    requires InAlphabet(s) && |s| % 4 != 1
    ensures Decode(s).Ok? && |Decode(s).value| == 3 * |s| / 4
    ensures Encode(Decode(s).value) == s <==> UnusedBitsZero(s)
  {
    if |s| <= 4 {
      ReencodeShort(s);
    } else {
      AlphabetSplits(s, 4);
      CanonicalTail(s);
      ReencodeExactlyCanonical(s[4..]);
      ReencodeLong(s);
    }
  }

  lemma ReencodeShort(s: seq<byte>)
    requires InAlphabet(s) && |s| % 4 != 1 && |s| <= 4
    ensures Decode(s).Ok? && |Decode(s).value| == 3 * |s| / 4
    ensures Encode(Decode(s).value) == s <==> UnusedBitsZero(s)
  {
    if s != [] {
      assert s[..|s|] == s && s[|s|..] == [];
      ReencodeChunk(s);
      var d := DecodeChunk(s).value;
      assert Decode(s) == Append(DecodeChunk(s), Ok([]));
      AppendNothing(Ok([]), d);
      ReencodeJoins(d, []);
      assert d + [] == d && EncodeChunk(d) + [] == EncodeChunk(d);
    }
  }

  lemma ReencodeLong(s: seq<byte>)
    requires |s| > 4 && InAlphabet(s[..4]) && Decode(s[4..]).Ok?
    ensures Decode(s).Ok? && |Decode(s).value| == 3 + |Decode(s[4..]).value|
    ensures Encode(Decode(s).value) == s <==> Encode(Decode(s[4..]).value) == s[4..]
  {
    var head, tail := s[..4], s[4..];
    ReencodeChunk(head);
    var h, t := DecodeChunk(head).value, Decode(tail).value;
    assert Decode(s) == Append(DecodeChunk(head), Decode(tail));
    ReencodeJoins(h, t);
    assert UnusedBitsZero(head);
    SplitEqual(head, Encode(t), s);
  }

  lemma CanonicalTail(s: seq<byte>)
    requires InAlphabet(s) && |s| > 4
    ensures InAlphabet(s[4..]) && (UnusedBitsZero(s) <==> UnusedBitsZero(s[4..]))
    ensures |s[4..]| % 4 == |s| % 4 && 3 + 3 * |s[4..]| / 4 == 3 * |s| / 4
  {
    AlphabetSplits(s, 4);
    assert s[4..][|s| - 5] == s[|s| - 1];
  }

  lemma SplitEqual(a: seq<byte>, b: seq<byte>, s: seq<byte>)
    requires |a| <= |s|
    ensures a + b == s <==> a == s[..|a|] && b == s[|a|..]
  {
    if a + b == s {
      assert s[..|a|] == a && s[|a|..] == b;
    }
  }

  lemma ReencodeJoins(head: seq<byte>, tail: seq<byte>)
    requires 1 <= |head| <= 3 && (tail != [] ==> |head| == 3)
    ensures Encode(head + tail) == EncodeChunk(head) + Encode(tail)
  {
    assert (head + tail)[..|head|] == head && (head + tail)[|head|..] == tail;
  }

  // ---- The loops of the source ----

  method Base64UrlEncode(data: seq<byte>) returns (s: seq<byte>)
    ensures s == Encode(data)
  {
    s := [];
    var i := 0;
    assert data[0..] == data;
    while i < |data|
      invariant 0 <= i <= |data|
      invariant s + Encode(data[i..]) == Encode(data)
    {
      var next := if i + 3 <= |data| then i + 3 else |data|;
      EncodeMore(s, data, i, next);
      s := s + EncodeChunk(data[i..next]);
      i := next;
    }
  }

  lemma EncodeMore(out: seq<byte>, data: seq<byte>, i: nat, next: nat)
    requires i < next <= |data| && next - i <= 3 && (next < |data| ==> next == i + 3)
    ensures out + Encode(data[i..]) == out + EncodeChunk(data[i..next]) + Encode(data[next..])
  {
    var rest := data[i..];
    assert rest[..next - i] == data[i..next] && rest[next - i..] == data[next..];
    assert Encode(rest) == EncodeChunk(data[i..next]) + Encode(data[next..]);
  }

  method Base64UrlDecode(input: seq<byte>) returns (r: Result<seq<byte>, DecodeError>)
    ensures r == Decode(input)
  {
    var out: seq<byte> := [];
    var i := 0;
    AppendNothing(Decode(input), out);
    assert input[0..] == input;
    while i < |input|
      invariant 0 <= i <= |input|
      invariant Decode(input) == Append(Ok(out), Decode(input[i..]))
    {
      var next := if i + 4 <= |input| then i + 4 else |input|;
      var chunk := input[i..next];
      var bytes := DecodeChunk(chunk);
      DecodeMore(out, input, i, next);
      if bytes.Err? {
        return bytes;
      }
      out := out + bytes.value;
      i := next;
    }
    AppendNothing(Ok([]), out);
    return Ok(out);
  }

  lemma DecodeMore(out: seq<byte>, input: seq<byte>, i: nat, next: nat)
    requires i < next <= |input| && next - i <= 4 && (next < |input| ==> next == i + 4)
    ensures
      var bytes := DecodeChunk(input[i..next]);
      Append(Ok(out), Decode(input[i..])) ==
      if bytes.Err? then bytes else Append(Ok(out + bytes.value), Decode(input[next..]))
  {
    var rest := input[i..];
    assert rest[..next - i] == input[i..next] && rest[next - i..] == input[next..];
    var bytes := DecodeChunk(input[i..next]);
    assert Decode(rest) == Append(bytes, Decode(input[next..]));
    if bytes.Ok? {
      AppendTwice(out, bytes.value, Decode(input[next..]));
    }
  }

  lemma AppendNothing(r: Result<seq<byte>, DecodeError>, out: seq<byte>)
    ensures Append(Ok([]), r) == r && Append(Ok(out), Ok([])) == Ok(out)
  {
    if r.Ok? {
      assert [] + r.value == r.value;
    }
    assert out + [] == out;
  }

  lemma AppendTwice(a: seq<byte>, b: seq<byte>, c: Result<seq<byte>, DecodeError>)
    ensures Append(Ok(a), Append(Ok(b), c)) == Append(Ok(a + b), c)
  {
    if c.Ok? {
      assert a + (b + c.value) == (a + b) + c.value;
    }
  }
}
