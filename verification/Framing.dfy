/**
 The two message framings of the stdio proxy (src/plugin/proxy.rs): a length header before every
 body, or one body a line. Text is represented by its UTF-8 bytes.
 */
module Framing {
  import opened Wrappers

  type byte = x: int | 0 <= x < 256
  type bytes = seq<byte>

  datatype FramingError = Eof | InvalidUtf8 | InvalidLength | MissingLength

  datatype Kind = ContentLength | Newline

  const LF: byte := 10
  const CR: byte := 13
  const SPACE: byte := 32

  /** "Content-Length:" and "content-length:" */
  const TITLE_NAME: bytes := [67, 111, 110, 116, 101, 110, 116, 45, 76, 101, 110, 103, 116, 104, 58]
  const LOWER_NAME: bytes := [99, 111, 110, 116, 101, 110, 116, 45, 108, 101, 110, 103, 116, 104, 58]

  const USIZE_MAX: nat := 0xFFFF_FFFF_FFFF_FFFF

  // ---- UTF-8 (section 4 of RFC 3629) ----

  predicate Tail(b: int) {
    0x80 <= b <= 0xBF
  }

  /** The length of the character a sequence starts with, or 0 if it does not start with one. */
  function CharLength(s: bytes): (n: nat)
    ensures n <= |s| && n <= 4
  {
    if s == [] then 0
    else if s[0] < 0x80 then 1
    else if |s| >= 2 && 0xC2 <= s[0] <= 0xDF && Tail(s[1]) then 2
    else if |s| >= 3 && ThreeBytes(s[0], s[1]) && Tail(s[2]) then 3
    else if |s| >= 4 && FourBytes(s[0], s[1]) && Tail(s[2]) && Tail(s[3]) then 4
    else 0
  }

  predicate ThreeBytes(a: int, b: int) {
    || (a == 0xE0 && 0xA0 <= b <= 0xBF)
    || ((0xE1 <= a <= 0xEC || 0xEE <= a <= 0xEF) && Tail(b))
    || (a == 0xED && 0x80 <= b <= 0x9F)
  }

  predicate FourBytes(a: int, b: int) {
    || (a == 0xF0 && 0x90 <= b <= 0xBF)
    || (0xF1 <= a <= 0xF3 && Tail(b))
    || (a == 0xF4 && 0x80 <= b <= 0x8F)
  }

  predicate Utf8(s: bytes) {
    s == [] || (CharLength(s) > 0 && Utf8(s[CharLength(s)..]))
  }

  lemma CharLengthOfPrefix(a: bytes, b: bytes)
    requires CharLength(a) > 0
    ensures CharLength(a + b) == CharLength(a)
  {
  }

  lemma {:induction false} Utf8Concat(a: bytes, b: bytes)
    requires Utf8(a) && Utf8(b)
    ensures Utf8(a + b)
  {
    if a == [] {
      assert a + b == b;
    } else {
      CharLengthOfPrefix(a, b);
      var n := CharLength(a);
      assert (a + b)[n..] == a[n..] + b;
      Utf8Concat(a[n..], b);
    }
  }

  predicate Ascii(s: bytes) {
    forall i | 0 <= i < |s| :: s[i] < 0x80
  }

  lemma {:induction false} AsciiIsUtf8(s: bytes)
    requires Ascii(s)
    ensures Utf8(s)
  {
    if s != [] {
      AsciiIsUtf8(s[1..]);
    }
  }

  // ---- White space ----

  predicate AsciiSpace(b: int) {
    9 <= b <= 13 || b == 32
  }

  predicate TwoByteSpace(a: int, b: int) {
    a == 0xC2 && (b == 0x85 || b == 0xA0)
  }

  predicate ThreeByteSpace(a: int, b: int, c: int) {
    || (a == 0xE1 && b == 0x9A && c == 0x80)
    || (a == 0xE2 && b == 0x80 && (0x80 <= c <= 0x8A || c == 0xA8 || c == 0xA9 || c == 0xAF))
    || (a == 0xE2 && b == 0x81 && c == 0x9F)
    || (a == 0xE3 && b == 0x80 && c == 0x80)
  }

  /** The length of the white-space character at the start, or 0. */
  function SpaceAtStart(s: bytes): (n: nat)
    ensures n <= |s|
  {
    if |s| >= 1 && AsciiSpace(s[0]) then 1
    else if |s| >= 2 && TwoByteSpace(s[0], s[1]) then 2
    else if |s| >= 3 && ThreeByteSpace(s[0], s[1], s[2]) then 3
    else 0
  }

  function SpaceAtEnd(s: bytes): (n: nat)
    ensures n <= |s|
  {
    var k := |s|;
    if k >= 1 && AsciiSpace(s[k - 1]) then 1
    else if k >= 2 && TwoByteSpace(s[k - 2], s[k - 1]) then 2
    else if k >= 3 && ThreeByteSpace(s[k - 3], s[k - 2], s[k - 1]) then 3
    else 0
  }

  function TrimStart(s: bytes): bytes {
    if SpaceAtStart(s) == 0 then s else TrimStart(s[SpaceAtStart(s)..])
  }

  function TrimEnd(s: bytes): bytes {
    if SpaceAtEnd(s) == 0 then s else TrimEnd(s[..|s| - SpaceAtEnd(s)])
  }

  function Trim(s: bytes): bytes {
    TrimEnd(TrimStart(s))
  }

  predicate Trimmed(s: bytes) {
    SpaceAtStart(s) == 0 && SpaceAtEnd(s) == 0
  }

  lemma {:induction false} TrimStartResult(s: bytes)
    ensures SpaceAtStart(TrimStart(s)) == 0
    ensures |TrimStart(s)| <= |s| && TrimStart(s) == s[|s| - |TrimStart(s)|..]
  {
    if SpaceAtStart(s) > 0 {
      TrimStartResult(s[SpaceAtStart(s)..]);
    }
  }

  lemma {:induction false} TrimEndResult(s: bytes)
    ensures SpaceAtEnd(TrimEnd(s)) == 0 && TrimEnd(s) <= s
  {
    if SpaceAtEnd(s) > 0 {
      TrimEndResult(s[..|s| - SpaceAtEnd(s)]);
    }
  }

  lemma TrimIsTrimmed(s: bytes)
    ensures Trimmed(Trim(s))
  {
    TrimStartResult(s);
    TrimEndResult(TrimStart(s));
  }

  // ---- Decimal numbers ----

  function Digits(n: nat): bytes {
    if n < 10 then [48 + n] else Digits(n / 10) + [48 + n % 10]
  }

  predicate IsDigit(b: int) {
    48 <= b <= 57
  }

  /** Reading digits from the left onto `acc`, which must stay within 64 bits. */
  function ReadDigits(s: bytes, acc: nat): Option<nat> {
    if s == [] then Some(acc)
    else if !IsDigit(s[0]) || acc * 10 + (s[0] - 48) > USIZE_MAX then None
    else ReadDigits(s[1..], acc * 10 + (s[0] - 48))
  }

  function ParseUsize(s: bytes): Option<nat> {
    var digits := if s != [] && s[0] == 43 then s[1..] else s;
    if digits == [] then None else ReadDigits(digits, 0)
  }

  lemma {:induction false} ReadDigitsConcat(a: bytes, d: byte, acc: nat)
    requires ReadDigits(a, acc).Some? && IsDigit(d)
    requires ReadDigits(a, acc).value * 10 + (d - 48) <= USIZE_MAX
    ensures ReadDigits(a + [d], acc) == Some(ReadDigits(a, acc).value * 10 + (d - 48))
  {
    if a == [] {
      assert a + [d] == [d] && [d][1..] == [];
    } else {
      assert (a + [d])[1..] == a[1..] + [d];
      ReadDigitsConcat(a[1..], d, acc * 10 + (a[0] - 48));
    }
  }

  lemma {:induction false} DigitsReadBack(n: nat)
    requires n <= USIZE_MAX
    ensures ReadDigits(Digits(n), 0) == Some(n)
  {
    if n < 10 {
      assert [48 + n][1..] == [];
    } else {
      DigitsReadBack(n / 10);
      ReadDigitsConcat(Digits(n / 10), 48 + n % 10, 0);
    }
  }

  lemma {:induction false} DigitsAreDigits(n: nat)
    ensures Digits(n) != [] && forall i | 0 <= i < |Digits(n)| :: IsDigit(Digits(n)[i])
  {
    if n >= 10 {
      DigitsAreDigits(n / 10);
    }
  }

  /** A length is read back from its decimal form. */
  lemma LengthReadsBack(n: nat)
    requires n <= USIZE_MAX
    ensures ParseUsize(Digits(n)) == Some(n)
  {
    DigitsReadBack(n);
    DigitsAreDigits(n);
  }

  // ---- Reading one message ----

  /** Up to and including the first line feed, or everything. */
  function FirstLine(s: bytes): (line: bytes)
    ensures line <= s && (s != [] ==> line != [])
  {
    if s == [] then [] else if s[0] == LF then [LF] else [s[0]] + FirstLine(s[1..])
  }

  function AfterLine(s: bytes): (rest: bytes)
    ensures s != [] ==> |rest| < |s|
  {
    s[|FirstLine(s)|..]
  }

  function HeaderValue(line: bytes): Option<bytes> {
    if TITLE_NAME <= line || LOWER_NAME <= line then Some(line[15..]) else None
  }

  /** The length known after one header line. */
  function HeaderLength(line: bytes, length: Option<nat>): Result<Option<nat>, FramingError> {
    match HeaderValue(line)
    case None => Ok(length)
    case Some(value) => if ParseUsize(Trim(value)).None? then Err(InvalidLength) else Ok(ParseUsize(Trim(value)))
  }

  type Received = Result<(bytes, bytes), FramingError>

  function ReadBody(s: bytes, length: Option<nat>): (r: Received)
    ensures r.Ok? ==> |r.value.1| <= |s|
  {
    if length.None? then Err(MissingLength)
    else if |s| < length.value then Err(Eof)
    else if !Utf8(s[..length.value]) then Err(InvalidUtf8)
    else Ok((s[..length.value], s[length.value..]))
  }

  /** The body after the remaining headers, and the rest of the stream. The last length counts. */
  function ReadHeaders(s: bytes, length: Option<nat>): (r: Received)
    decreases |s|
    ensures r.Ok? ==> |r.value.1| < |s|
  {
    if s == [] then Err(Eof)
    else if !Utf8(FirstLine(s)) then Err(InvalidUtf8)
    else
      var line := Trim(FirstLine(s));
      if line == [] then ReadBody(AfterLine(s), length)
      else
        match HeaderLength(line, length)
        case Err(e) => Err(e)
        case Ok(newLength) => ReadHeaders(AfterLine(s), newLength)
  }

  /** The first line that is not blank, and the rest of the stream. */
  function ReadLineMessage(s: bytes): (r: Received)
    decreases |s|
    ensures r.Ok? ==> |r.value.1| < |s|
  {
    if s == [] then Err(Eof)
    else if !Utf8(FirstLine(s)) then Err(InvalidUtf8)
    else
      var line := Trim(FirstLine(s));
      if line == [] then ReadLineMessage(AfterLine(s)) else Ok((line, AfterLine(s)))
  }

  function ReadMessage(kind: Kind, s: bytes): (r: Received)
    ensures r.Ok? ==> |r.value.1| < |s|
  {
    if kind == ContentLength then ReadHeaders(s, None) else ReadLineMessage(s)
  }

  /** All messages up to the first error, and that error. */
  function ReadAll(kind: Kind, s: bytes): (seq<bytes>, FramingError)
    decreases |s|
  {
    match ReadMessage(kind, s)
    case Err(e) => ([], e)
    case Ok((body, rest)) => ([body] + ReadAll(kind, rest).0, ReadAll(kind, rest).1)
  }

  function DetectFraming(buffer: bytes): Kind {
    if TITLE_NAME <= buffer || LOWER_NAME <= buffer then ContentLength else Newline
  }

  // ---- Writing ----

  function HeaderText(n: nat): bytes {
    TITLE_NAME + [SPACE] + Digits(n)
  }

  function WriteFrame(kind: Kind, body: bytes): bytes {
    if kind == ContentLength then HeaderText(|body|) + [CR, LF] + [CR, LF] + body else body + [LF]
  }

  function WriteAll(kind: Kind, bodies: seq<bytes>): bytes {
    if bodies == [] then [] else WriteFrame(kind, bodies[0]) + WriteAll(kind, bodies[1..])
  }

  lemma ReadAllStep(kind: Kind, s: bytes, body: bytes, rest: bytes)
    requires ReadMessage(kind, s) == Ok((body, rest))
    ensures ReadAll(kind, s) == ([body] + ReadAll(kind, rest).0, ReadAll(kind, rest).1)
  {
  }

  // ---- The length framing ----

  lemma {:induction false} FirstLineIs(a: bytes, rest: bytes)
    requires LF !in a
    ensures FirstLine(a + [LF] + rest) == a + [LF]
    ensures AfterLine(a + [LF] + rest) == rest
  {
    var s := a + [LF] + rest;
    if a != [] {
      assert s[1..] == a[1..] + [LF] + rest;
      FirstLineIs(a[1..], rest);
      assert [a[0]] + (a[1..] + [LF]) == a + [LF];
    }
  }

  lemma DropLastSpace(a: bytes, b: byte)
    requires AsciiSpace(b)
    ensures TrimEnd(a + [b]) == TrimEnd(a)
  {
    assert (a + [b])[..|a|] == a;
  }

  lemma DropFirstSpace(b: byte, a: bytes)
    requires AsciiSpace(b)
    ensures TrimStart([b] + a) == TrimStart(a)
  {
    assert ([b] + a)[1..] == a;
  }

  /** A header line without white space at its ends, and a CR LF after it. */
  lemma TrimLine(a: bytes)
    requires Trimmed(a) && a != [] && a[0] < 0x80
    ensures Trim(a + [CR, LF]) == a
  {
    var s := a + [CR, LF];
    assert SpaceAtStart(s) == 0;
    assert s == a + [CR] + [LF];
    DropLastSpace(a + [CR], LF);
    DropLastSpace(a, CR);
  }

  lemma TrimFeed(a: bytes)
    requires Trimmed(a) && a != []
    ensures Trim(a + [LF]) == a
  {
    assert SpaceAtStart(a + [LF]) == 0;
    DropLastSpace(a, LF);
  }

  lemma TrimBlank()
    ensures Trim([CR, LF]) == []
  {
    assert [CR, LF] == [CR] + [LF] && [LF] == [LF] + [];
    DropFirstSpace(CR, [LF]);
    DropFirstSpace(LF, []);
  }

  lemma NameIsPlain()
    ensures |TITLE_NAME| == 15 && Ascii(TITLE_NAME) && LF !in TITLE_NAME && TITLE_NAME[0] == 67
  {
  }

  lemma HeaderIsPlain(n: nat)
    ensures Ascii(HeaderText(n)) && LF !in HeaderText(n) && Trimmed(HeaderText(n))
    ensures HeaderText(n)[0] == 67
    ensures HeaderValue(HeaderText(n)) == Some([SPACE] + Digits(n))
  {
    hide Digits;
    NameIsPlain();
    DigitsAreDigits(n);
    var name: bytes, digits := TITLE_NAME, Digits(n);
    JoinedPlain(name, digits);
    var h := HeaderText(n);
    assert h == name + ([SPACE] + digits);
    assert h[15..] == [SPACE] + digits && name <= h;
    assert h[|h| - 1] == digits[|digits| - 1];
  }

  lemma JoinedPlain(name: bytes, digits: bytes)
    requires |name| == 15 && Ascii(name) && LF !in name && forall i | 0 <= i < |digits| :: IsDigit(digits[i])
    ensures Ascii(name + [SPACE] + digits) && LF !in name + [SPACE] + digits
  {
    var h := name + [SPACE] + digits;
    forall i | 0 <= i < |h|
      ensures h[i] < 0x80 && h[i] != LF
    {
      assert i >= 16 ==> h[i] == digits[i - 16];
      assert i < 15 ==> h[i] == name[i];
    }
  }

  lemma TrimValue(n: nat)
    ensures Trim([SPACE] + Digits(n)) == Digits(n)
  {
    DigitsAreDigits(n);
    DropFirstSpace(SPACE, Digits(n));
    assert SpaceAtStart(Digits(n)) == 0 && SpaceAtEnd(Digits(n)) == 0;
  }

  lemma ReadsHeaderLine(n: nat, rest: bytes)
    requires n <= USIZE_MAX
    ensures ReadHeaders(HeaderText(n) + [CR, LF] + rest, None) == ReadHeaders(rest, Some(n))
  {
    var h := HeaderText(n);
    var s := h + [CR, LF] + rest;
    HeaderIsPlain(n);
    assert s == (h + [CR]) + [LF] + rest;
    FirstLineIs(h + [CR], rest);
    assert h + [CR] + [LF] == h + [CR, LF];
    AsciiIsUtf8(h + [CR, LF]);
    TrimLine(h);
    TrimValue(n);
    LengthReadsBack(n);
  }

  lemma ReadsBlankLine(n: nat, rest: bytes)
    ensures ReadHeaders([CR, LF] + rest, Some(n)) == ReadBody(rest, Some(n))
  {
    var s := [CR, LF] + rest;
    assert s == [CR] + [LF] + rest;
    FirstLineIs([CR], rest);
    assert [CR] + [LF] == [CR, LF];
    AsciiIsUtf8([CR, LF]);
    TrimBlank();
  }

  predicate Sendable(body: bytes) {
    Utf8(body) && |body| <= USIZE_MAX
  }

  lemma ReadsFrame(body: bytes, rest: bytes)
    requires Sendable(body)
    ensures ReadMessage(ContentLength, WriteFrame(ContentLength, body) + rest) == Ok((body, rest))
  {
    var h := HeaderText(|body|);
    assert WriteFrame(ContentLength, body) + rest == h + [CR, LF] + ([CR, LF] + (body + rest));
    ReadsHeaderLine(|body|, [CR, LF] + (body + rest));
    ReadsBlankLine(|body|, body + rest);
    assert (body + rest)[..|body|] == body && (body + rest)[|body|..] == rest;
  }

  /** Any list of bodies is read back from its length-framed stream, which is read to its end. */
  lemma {:induction false} LengthFramesReadBack(bodies: seq<bytes>)
    requires forall b | b in bodies :: Sendable(b)
    ensures ReadAll(ContentLength, WriteAll(ContentLength, bodies)) == (bodies, Eof)
  {
    if bodies != [] {
      var rest := WriteAll(ContentLength, bodies[1..]);
      ReadsFrame(bodies[0], rest);
      ReadAllStep(ContentLength, WriteFrame(ContentLength, bodies[0]) + rest, bodies[0], rest);
      LengthFramesReadBack(bodies[1..]);
      assert bodies == [bodies[0]] + bodies[1..];
    }
  }

  // ---- Any headers ----

  /** A header as it stands before its line end. */
  predicate HeaderLine(line: bytes) {
    line != [] && Trimmed(line) && LF !in line && Utf8(line)
  }

  function HeaderLines(lines: seq<bytes>): bytes {
    if lines == [] then [] else lines[0] + [CR, LF] + HeaderLines(lines[1..])
  }

  /** The header announces a length; any other header is ignored. */
  predicate NamesLength(line: bytes) {
    TITLE_NAME <= line || LOWER_NAME <= line
  }

  predicate Malformed(line: bytes) {
    NamesLength(line) && ParseUsize(Trim(line[15..])).None?
  }

  /** The length announced last, or the one known before. */
  function LastLength(lines: seq<bytes>, before: Option<nat>): Option<nat> {
    if lines == [] then before
    else
      var last := lines[|lines| - 1];
      if NamesLength(last) then ParseUsize(Trim(last[15..])) else LastLength(lines[..|lines| - 1], before)
  }

  lemma {:induction false} LastLengthOfMore(lines: seq<bytes>, before: Option<nat>)
    requires lines != []
    ensures LastLength(lines, before)
         == LastLength(lines[1..], if NamesLength(lines[0]) then ParseUsize(Trim(lines[0][15..])) else before)
  {
    var front := lines[..|lines| - 1];
    if |lines| == 1 {
      assert front == [] && lines[1..] == [];
    } else {
      assert front[1..] == lines[1..][..|lines| - 2] && lines[1..][|lines| - 2] == lines[|lines| - 1];
      if !NamesLength(lines[|lines| - 1]) {
        LastLengthOfMore(front, before);
      }
    }
  }

  lemma SpaceNeedsTail(s: bytes, end: bytes)
    requires s != [] && SpaceAtStart(s) == 0 && end != [] && end[0] < 0x80 && (|end| > 1 ==> end[1] < 0x80)
    ensures SpaceAtStart(s + end) == 0
  {
  }

  lemma ReadsAnyHeader(line: bytes, rest: bytes, length: Option<nat>)
    requires HeaderLine(line)
    ensures ReadHeaders(line + [CR, LF] + rest, length)
         == if Malformed(line) then Err(InvalidLength)
            else ReadHeaders(rest, if NamesLength(line) then ParseUsize(Trim(line[15..])) else length)
  {
    var s := line + [CR, LF] + rest;
    assert s == (line + [CR]) + [LF] + rest;
    FirstLineIs(line + [CR], rest);
    assert line + [CR] + [LF] == line + [CR, LF];
    AsciiIsUtf8([CR, LF]);
    Utf8Concat(line, [CR, LF]);
    SpaceNeedsTail(line, [CR, LF]);
    assert line + [CR, LF] == (line + [CR]) + [LF];
    DropLastSpace(line + [CR], LF);
    DropLastSpace(line, CR);
    assert Trim(line + [CR, LF]) == line;
  }

  lemma ReadsAnyBlankLine(rest: bytes, length: Option<nat>)
    ensures ReadHeaders([CR, LF] + rest, length) == ReadBody(rest, length)
  {
    assert [CR, LF] + rest == [CR] + [LF] + rest;
    FirstLineIs([CR], rest);
    assert [CR] + [LF] == [CR, LF];
    AsciiIsUtf8([CR, LF]);
    TrimBlank();
  }

  /** A header that is not UTF-8 ends the stream in an error. */
  lemma BadHeaderIsReported(line: bytes, rest: bytes, length: Option<nat>)
    requires LF !in line && !Utf8(line + [LF])
    ensures ReadHeaders(line + [LF] + rest, length) == Err(InvalidUtf8)
  {
    FirstLineIs(line, rest);
  }

  /**
   A message is read whatever headers come with it and in whatever order: the length announced last counts, and
   other headers are ignored. It is an error if a length is malformed or there is none, if the stream ends in
   the headers or in the body, or if the body is not UTF-8; the first of these is reported.
   */
  lemma {:induction false} HeadersReadExactly(lines: seq<bytes>, rest: bytes, before: Option<nat>)
    requires forall l | l in lines :: HeaderLine(l)
    ensures
      var length := LastLength(lines, before);
      ReadHeaders(HeaderLines(lines) + [CR, LF] + rest, before)
      == if exists l :: l in lines && Malformed(l) then Err(InvalidLength)
         else if length.None? then Err(MissingLength)
         else if length.value > |rest| then Err(Eof)
         else if !Utf8(rest[..length.value]) then Err(InvalidUtf8)
         else Ok((rest[..length.value], rest[length.value..]))
    ensures ReadHeaders(HeaderLines(lines), before)
         == if exists l :: l in lines && Malformed(l) then Err(InvalidLength) else Err(Eof)
  {
    if lines == [] {
      assert HeaderLines(lines) + [CR, LF] + rest == [CR, LF] + rest;
      ReadsAnyBlankLine(rest, before);
    } else {
      var line, more := lines[0], lines[1..];
      var now := if NamesLength(line) then ParseUsize(Trim(line[15..])) else before;
      assert HeaderLines(lines) + [CR, LF] + rest == line + [CR, LF] + (HeaderLines(more) + [CR, LF] + rest);
      ReadsAnyHeader(line, HeaderLines(more) + [CR, LF] + rest, before);
      ReadsAnyHeader(line, HeaderLines(more), before);
      HeadersReadExactly(more, rest, now);
      LastLengthOfMore(lines, before);
      assert forall l :: l in lines <==> l == line || l in more;
    }
  }

  /** The value of decimal digits. */
  function Decimal(digits: bytes): int {
    if digits == [] then 0 else Decimal(digits[..|digits| - 1]) * 10 + (digits[|digits| - 1] as int - 48)
  }

  predicate AllDigits(s: bytes) {
    forall i | 0 <= i < |s| :: IsDigit(s[i])
  }

  lemma {:induction false} DecimalGrows(digits: bytes, n: nat)
    requires n <= |digits| && AllDigits(digits)
    ensures 0 <= Decimal(digits[..n]) <= Decimal(digits)
  {
    if n < |digits| {
      DecimalGrows(digits[..|digits| - 1], n);
      assert digits[..|digits| - 1][..n] == digits[..n];
    } else {
      assert digits[..n] == digits;
      DecimalIsNatural(digits);
    }
  }

  lemma {:induction false} DecimalIsNatural(digits: bytes)
    requires AllDigits(digits)
    ensures Decimal(digits) >= 0
  {
    if digits != [] {
      DecimalIsNatural(digits[..|digits| - 1]);
    }
  }

  lemma DecimalOfMore(before: bytes, digit: byte)
    ensures Decimal(before + [digit]) == Decimal(before) * 10 + (digit as int - 48)
    ensures AllDigits(before) && IsDigit(digit) ==> AllDigits(before + [digit])
  {
    assert (before + [digit])[..|before|] == before;
  }

  lemma AllDigitsSplit(s: bytes)
    requires s != []
    ensures AllDigits(s) <==> IsDigit(s[0]) && AllDigits(s[1..])
  {
    assert s == [s[0]] + s[1..];
  }

  /** Reading goes on from what was read before. */
  lemma {:induction false} ReadsDecimal(before: bytes, s: bytes)
    requires AllDigits(before) && 0 <= Decimal(before) <= USIZE_MAX
    ensures ReadDigits(s, Decimal(before))
         == if AllDigits(s) && 0 <= Decimal(before + s) <= USIZE_MAX then Some(Decimal(before + s)) else None
    decreases |s|
  {
    if s == [] {
      assert before + s == before;
    } else {
      var more := before + [s[0]];
      assert more + s[1..] == before + s;
      DecimalOfMore(before, s[0]);
      AllDigitsSplit(s);
      hide Decimal, AllDigits;
      if IsDigit(s[0]) {
        if Decimal(more) <= USIZE_MAX {
          ReadsDecimal(more, s[1..]);
        } else if AllDigits(s) {
          LargeStaysLarge(before, s, more);
        }
      }
    }
  }

  lemma LargeStaysLarge(before: bytes, s: bytes, more: bytes)
    requires AllDigits(before) && AllDigits(s) && more <= before + s
    ensures Decimal(more) <= Decimal(before + s)
  {
    var all := before + s;
    assert AllDigits(all);
    DecimalGrows(all, |more|);
    assert all[..|more|] == more;
  }

  /** A length is a plus sign, perhaps, and decimal digits whose value fits into 64 bits; nothing else is one. */
  lemma LengthParsesExactly(s: bytes)
    ensures
      var digits := if s != [] && s[0] == 43 then s[1..] else s;
      ParseUsize(s)
      == if digits != [] && AllDigits(digits) && 0 <= Decimal(digits) <= USIZE_MAX then Some(Decimal(digits)) else None
  {
    var digits := if s != [] && s[0] == 43 then s[1..] else s;
    ReadsDecimal([], digits);
    assert [] + digits == digits;
  }

  // ---- The line framing ----

  predicate OneLine(body: bytes) {
    body != [] && Trimmed(body) && LF !in body
  }

  lemma ReadsLine(body: bytes, rest: bytes)
    requires Utf8(body) && OneLine(body)
    ensures ReadMessage(Newline, WriteFrame(Newline, body) + rest) == Ok((body, rest))
  {
    var line := body + [LF];
    FirstLineIs(body, rest);
    AsciiIsUtf8([LF]);
    Utf8Concat(body, [LF]);
    TrimFeed(body);
  }

  lemma {:induction false} LineFramesReadBack(bodies: seq<bytes>)
    requires forall b | b in bodies :: Utf8(b) && OneLine(b)
    ensures ReadAll(Newline, WriteAll(Newline, bodies)) == (bodies, Eof)
  {
    if bodies != [] {
      var rest := WriteAll(Newline, bodies[1..]);
      ReadsLine(bodies[0], rest);
      ReadAllStep(Newline, WriteFrame(Newline, bodies[0]) + rest, bodies[0], rest);
      LineFramesReadBack(bodies[1..]);
      assert bodies == [bodies[0]] + bodies[1..];
    }
  }

  lemma {:induction false} FirstLineHasOneFeed(s: bytes)
    ensures LF !in FirstLine(s) || (FirstLine(s)[|FirstLine(s)| - 1] == LF && LF !in FirstLine(s)[..|FirstLine(s)| - 1])
  {
    if s != [] && s[0] != LF {
      FirstLineHasOneFeed(s[1..]);
      var line, tail := FirstLine(s), FirstLine(s[1..]);
      if tail != [] {
        assert line[..|line| - 1] == [s[0]] + tail[..|tail| - 1];
      }
    }
  }

  /** Whatever the stream holds, a message read from a line is a single trimmed line. */
  lemma {:induction false} LineMessagesAreTrimmed(s: bytes)
    requires ReadLineMessage(s).Ok?
    ensures OneLine(ReadLineMessage(s).value.0)
    decreases |s|
  {
    var line := FirstLine(s);
    if Trim(line) == [] {
      LineMessagesAreTrimmed(AfterLine(s));
    } else {
      TrimIsTrimmed(line);
      FirstLineHasOneFeed(s);
      TrimDropsFeed(line);
    }
  }

  lemma TrimDropsFeed(line: bytes)
    requires line != []
    requires LF !in line || (line[|line| - 1] == LF && LF !in line[..|line| - 1])
    ensures LF !in Trim(line)
  {
    var start, t := TrimStart(line), Trim(line);
    TrimStartResult(line);
    TrimEndResult(start);
    var k := |line| - |start|;
    forall i | 0 <= i < |t|
      ensures t[i] != LF
    {
      assert t[i] == start[i] == line[k + i];
      if k + i == |line| - 1 {
        assert i == |start| - 1 && |t| == |start|;
        assert t[|t| - 1] == line[|line| - 1];
      } else {
        assert line[k + i] == line[..|line| - 1][k + i];
      }
    }
  }

  /** The first line decides: it is an error if it is not UTF-8, skipped if it is blank, and otherwise the message,
      after which the rest of the stream is left. */
  lemma FirstLineDecides(line: bytes, rest: bytes)
    requires LF !in line
    ensures ReadLineMessage(line + [LF] + rest)
         == if !Utf8(line + [LF]) then Err(InvalidUtf8)
            else if Trim(line + [LF]) == [] then ReadLineMessage(rest)
            else Ok((Trim(line + [LF]), rest))
  {
    FirstLineIs(line, rest);
  }

  lemma LastLineNeedsNoFeed(body: bytes)
    requires Utf8(body) && OneLine(body)
    ensures ReadAll(Newline, body) == ([body], Eof)
  {
    WholeIsFirstLine(body);
    TrimmedIsTrim(body);
    ReadAllStep(Newline, body, body, []);
    assert ReadAll(Newline, []) == ([], Eof);
    assert [body] + [] == [body];
  }

  lemma {:induction false} WholeIsFirstLine(s: bytes)
    requires LF !in s
    ensures FirstLine(s) == s && AfterLine(s) == []
  {
    if s != [] {
      WholeIsFirstLine(s[1..]);
    }
  }

  lemma TrimmedIsTrim(s: bytes)
    requires Trimmed(s)
    ensures Trim(s) == s
  {
  }

  /** Exactly the single trimmed lines survive the line framing. */
  lemma LineFrameReadsBackExactly(body: bytes)
    requires Utf8(body)
    ensures ReadAll(Newline, WriteFrame(Newline, body)) == ([body], Eof) <==> OneLine(body)
  {
    var s := WriteFrame(Newline, body);
    if OneLine(body) {
      LineFramesReadBack([body]);
      assert [body][1..] == [] && s + [] == s;
    } else if ReadLineMessage(s).Ok? {
      LineMessagesAreTrimmed(s);
      assert ReadAll(Newline, s).0[0] == ReadLineMessage(s).value.0;
    }
  }

  // ---- Detection ----

  /** What the JSON writer produces for an object: braces at the ends and no raw line feed. */
  predicate ObjectText(body: bytes) {
    |body| >= 2 && body[0] == 123 && body[|body| - 1] == 125 && LF !in body
  }

  lemma ObjectIsOneLine(body: bytes)
    requires ObjectText(body)
    ensures OneLine(body)
  {
  }

  lemma DetectByPrefix(s: bytes, k: nat)
    requires k <= |s| && TITLE_NAME <= s
    ensures DetectFraming(s[..k]) == ContentLength <==> k >= 15
  {
    NameIsPlain();
    if k >= 15 {
      assert TITLE_NAME <= s[..k];
    }
  }

  lemma StreamStart(kind: Kind, bodies: seq<bytes>)
    requires bodies != [] && ObjectText(bodies[0])
    ensures kind == ContentLength ==> TITLE_NAME <= WriteAll(kind, bodies)
    ensures kind == Newline ==> WriteAll(kind, bodies) != [] && WriteAll(kind, bodies)[0] == 123
  {
    var h := HeaderText(|bodies[0]|);
    HeaderIsPlain(|bodies[0]|);
    assert TITLE_NAME <= h;
    assert kind == ContentLength ==> h <= WriteFrame(kind, bodies[0]) <= WriteAll(kind, bodies);
  }

  /** The session as the proxy reads it: the framing is chosen from the first `k` bytes that arrive. */
  function ReadSession(s: bytes, k: nat): (seq<bytes>, FramingError)
    requires k <= |s|
  {
    ReadAll(DetectFraming(s[..k]), s)
  }

  lemma HeaderAsLine(h: bytes, rest: bytes)
    requires Ascii(h) && LF !in h && Trimmed(h) && h != []
    ensures ReadMessage(Newline, h + [CR, LF] + rest) == Ok((h, rest))
  {
    assert h + [CR, LF] + rest == (h + [CR]) + [LF] + rest;
    FirstLineIs(h + [CR], rest);
    assert h + [CR] + [LF] == h + [CR, LF];
    AsciiIsUtf8(h + [CR, LF]);
    TrimLine(h);
  }

  lemma FrameStartsWithHeader(body: bytes, tail: bytes)
    ensures WriteFrame(ContentLength, body) + tail == HeaderText(|body|) + [CR, LF] + ([CR, LF] + body + tail)
  {
  }

  lemma HeaderIsNoObject(bodies: seq<bytes>)
    requires bodies != [] && ObjectText(bodies[0])
    ensures ReadAll(Newline, WriteAll(ContentLength, bodies)).0 != bodies
  {
    var h, tail := HeaderText(|bodies[0]|), WriteAll(ContentLength, bodies[1..]);
    HeaderIsPlain(|bodies[0]|);
    FrameStartsWithHeader(bodies[0], tail);
    HeaderAsLine(h, [CR, LF] + bodies[0] + tail);
    ReadAllStep(Newline, WriteAll(ContentLength, bodies), h, [CR, LF] + bodies[0] + tail);
  }

  /** A stream of JSON objects is read back whatever part of it arrives first, except when a length
      header arrives in pieces: the session then reads the header as a message. */
  lemma SessionReadsBackExactly(kind: Kind, bodies: seq<bytes>, k: nat)
    requires bodies != [] && forall b | b in bodies :: Sendable(b) && ObjectText(b)
    requires k <= |WriteAll(kind, bodies)|
    ensures ReadSession(WriteAll(kind, bodies), k) == (bodies, Eof) <==> kind == Newline || k >= 15
  {
    var s := WriteAll(kind, bodies);
    StreamStart(kind, bodies);
    if kind == ContentLength {
      DetectByPrefix(s, k);
      LengthFramesReadBack(bodies);
      HeaderIsNoObject(bodies);
    } else {
      assert DetectFraming(s[..k]) == Newline by {
        NameIsPlain();
        assert k > 0 ==> s[..k][0] == 123;
      }
      forall b | b in bodies
        ensures OneLine(b)
      {
        ObjectIsOneLine(b);
      }
      LineFramesReadBack(bodies);
    }
  }

  // ---- The reader and writer loops ----

  /** A buffered reader: what it has not delivered yet. */
  class ByteReader {
    var rest: bytes

    constructor (data: bytes)
      ensures rest == data
    {
      rest := data;
    }

    /** The first `k` bytes that have arrived, which stay in the reader. */
    method FillBuf(k: nat) returns (buffer: bytes)
      requires k <= |rest|
      ensures buffer == rest[..k]
    {
      buffer := rest[..k];
    }

    method ReadLine() returns (line: Result<bytes, FramingError>)
      modifies this
      ensures rest == AfterLine(old(rest))
      ensures line == if Utf8(FirstLine(old(rest))) then Ok(FirstLine(old(rest))) else Err(InvalidUtf8)
    {
      var bytes := FirstLine(rest);
      rest := AfterLine(rest);
      line := if Utf8(bytes) then Ok(bytes) else Err(InvalidUtf8);
    }

    method ReadExact(n: nat) returns (data: Result<bytes, FramingError>)
      modifies this
      ensures n <= |old(rest)| ==> data == Ok(old(rest)[..n]) && rest == old(rest)[n..]
      ensures n > |old(rest)| ==> data == Err(Eof)
    {
      if n <= |rest| {
        data := Ok(rest[..n]);
        rest := rest[n..];
      } else {
        data := Err(Eof);
      }
    }
  }

  /** What a read leaves in the reader when it succeeds. */
  ghost predicate Took(r: Result<bytes, FramingError>, expected: Received, rest: bytes) {
    match expected
    case Err(e) => r == Err(e)
    case Ok((body, after)) => r == Ok(body) && rest == after
  }

  /** The framing of a session: by length exactly if the stream begins with the name of a length header, in either
      spelling, and all of the name was among the bytes that arrived first. */
  lemma SessionIsDetectedExactly(s: bytes, k: nat)
    requires k <= |s|
    ensures ReadSession(s, k) == ReadAll(if NamesLength(s) && k >= 15 then ContentLength else Newline, s)
  {
    assert |TITLE_NAME| == 15 && |LOWER_NAME| == 15;
    if NamesLength(s[..k]) {
      assert NamesLength(s);
    }
    if NamesLength(s) && k >= 15 {
      assert s[..k][..15] == s[..15];
    }
  }

  /** One header line, seen from the loop. */
  lemma HeaderLineStep(s: bytes, length: Option<nat>)
    requires s != [] && Utf8(FirstLine(s))
    ensures
      var line := Trim(FirstLine(s));
      ReadHeaders(s, length)
      == if line == [] then ReadBody(AfterLine(s), length)
         else if HeaderLength(line, length).Err? then Err(HeaderLength(line, length).error)
         else ReadHeaders(AfterLine(s), HeaderLength(line, length).value)
  {
  }

  /** The length given by the headers, which the loop reads up to the blank line. */
  method ReadHeaderLines(reader: ByteReader) returns (r: Result<Option<nat>, FramingError>)
    modifies reader
    ensures ReadHeaders(old(reader.rest), None)
         == if r.Err? then Err(r.error) else ReadBody(reader.rest, r.value)
  {
    ghost var start := reader.rest;
    var contentLength := None;
    while true
      invariant ReadHeaders(start, None) == ReadHeaders(reader.rest, contentLength)
      decreases |reader.rest|
    {
      if reader.rest == [] {
        return Err(Eof);
      }
      ghost var before := reader.rest;
      var header := reader.ReadLine();
      if header.Err? {
        return Err(header.error);
      }
      HeaderLineStep(before, contentLength);
      var line := Trim(header.value);
      if line == [] {
        return Ok(contentLength);
      }
      var value := HeaderValue(line);
      if value.Some? {
        contentLength := ParseUsize(Trim(value.value));
        if contentLength.None? {
          return Err(InvalidLength);
        }
      }
    }
  }

  method ReadContentLengthMessage(reader: ByteReader) returns (r: Result<bytes, FramingError>)
    modifies reader
    ensures Took(r, ReadMessage(ContentLength, old(reader.rest)), reader.rest)
  {
    var contentLength := ReadHeaderLines(reader);
    if contentLength.Err? {
      return Err(contentLength.error);
    }
    if contentLength.value.None? {
      return Err(MissingLength);
    }
    var body := reader.ReadExact(contentLength.value.value);
    if body.Err? {
      return body;
    }
    return if Utf8(body.value) then body else Err(InvalidUtf8);
  }

  method ReadNewlineMessage(reader: ByteReader) returns (r: Result<bytes, FramingError>)
    modifies reader
    ensures Took(r, ReadMessage(Newline, old(reader.rest)), reader.rest)
  {
    ghost var start := reader.rest;
    while true
      invariant ReadLineMessage(start) == ReadLineMessage(reader.rest)
      decreases |reader.rest|
    {
      if reader.rest == [] {
        return Err(Eof);
      }
      var line := reader.ReadLine();
      if line.Err? {
        return Err(line.error);
      }
      var trimmed := Trim(line.value);
      if trimmed != [] {
        return Ok(trimmed);
      }
    }
  }

  method ReadOne(kind: Kind, reader: ByteReader) returns (r: Result<bytes, FramingError>)
    modifies reader
    ensures Took(r, ReadMessage(kind, old(reader.rest)), reader.rest)
  {
    if kind == ContentLength {
      r := ReadContentLengthMessage(reader);
    } else {
      r := ReadNewlineMessage(reader);
    }
  }

  /** The messages read so far are followed by those still to be read from `rest`. */
  ghost predicate Progress(kind: Kind, start: bytes, messages: seq<bytes>, rest: bytes) {
    && ReadAll(kind, start).0 == messages + ReadAll(kind, rest).0
    && ReadAll(kind, start).1 == ReadAll(kind, rest).1
  }

  lemma Associative(a: seq<bytes>, b: seq<bytes>, c: seq<bytes>)
    ensures a + (b + c) == (a + b) + c
  {
  }

  lemma ProgressStep(kind: Kind, start: bytes, messages: seq<bytes>, s: bytes, body: bytes, rest: bytes)
    requires Progress(kind, start, messages, s) && ReadMessage(kind, s) == Ok((body, rest))
    ensures Progress(kind, start, messages + [body], rest)
  {
    ReadAllStep(kind, s, body, rest);
    Associative(messages, [body], ReadAll(kind, rest).0);
  }

  lemma ProgressEnd(kind: Kind, start: bytes, messages: seq<bytes>, s: bytes, error: FramingError)
    requires Progress(kind, start, messages, s) && ReadMessage(kind, s) == Err(error)
    ensures ReadAll(kind, start) == (messages, error)
  {
    assert messages + [] == messages;
  }

  /** The reading thread: detects the framing from what arrives first, then reads until an error. */
  method ReadMessages(reader: ByteReader, k: nat) returns (kind: Kind, messages: seq<bytes>, error: FramingError)
    requires k <= |reader.rest|
    modifies reader
    ensures kind == DetectFraming(old(reader.rest)[..k])
    ensures (messages, error) == ReadSession(old(reader.rest), k)
  {
    ghost var start := reader.rest;
    var buffer := reader.FillBuf(k);
    kind := DetectFraming(buffer);
    messages := [];
    while true
      invariant Progress(kind, start, messages, reader.rest)
      decreases |reader.rest|
    {
      ghost var before := reader.rest;
      var message := ReadOne(kind, reader);
      if message.Err? {
        ProgressEnd(kind, start, messages, before, message.error);
        return kind, messages, message.error;
      }
      ProgressStep(kind, start, messages, before, message.value, reader.rest);
      messages := messages + [message.value];
    }
  }

  /** The output buffer of the proxy. */
  class ByteWriter {
    var written: bytes

    constructor ()
      ensures written == []
    {
      written := [];
    }

    method WriteResponse(json: bytes, kind: Kind)
      modifies this
      ensures written == old(written) + WriteFrame(kind, json)
    {
      if kind == ContentLength {
        written := written + TITLE_NAME + [SPACE] + Digits(|json|) + [CR, LF, CR, LF] + json;
      } else {
        written := written + json + [LF];
      }
    }
  }
}
