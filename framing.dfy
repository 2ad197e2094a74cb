/** Base-protocol framing used on the language server's standard streams:
    every JSON-RPC message travels as `Content-Length: <n>\r\n\r\n<body>`,
    where n is the byte length of the body (the "Header Part" of the Base
    Protocol in the Language Server Protocol 3.17). The JSON encoding of the
    body itself is not part of this module. */
module Framing {
  import opened Wrappers
  import opened Search

  newtype byte = x: int | 0 <= x < 256

  const NL: byte := 10
  const COLON: byte := 58

  /** The bytes of an ASCII string. */
  function Ascii(s: string): (r: seq<byte>)
    ensures |r| == |s|
  {
    seq(|s|, i requires 0 <= i < |s| => (s[i] as int % 256) as byte)
  }

  predicate IsDigit(b: byte) { 48 <= b <= 57 }

  /** Decimal digits of n, most significant first, no leading zero. */
  function Digits(n: nat): (r: seq<byte>)
    ensures 1 <= |r|
    ensures forall i :: 0 <= i < |r| ==> IsDigit(r[i])
  {
    if n < 10 then [(48 + n) as byte] else Digits(n / 10) + [(48 + n % 10) as byte]
  }

  /** The value of a non-empty digit string. */
  function DigitsValue(s: seq<byte>): nat
    requires forall i :: 0 <= i < |s| ==> IsDigit(s[i])
  {
    if s == [] then 0
    else
      assert IsDigit(s[|s| - 1]);
      DigitsValue(s[..|s| - 1]) * 10 + (s[|s| - 1] as int - 48)
  }

  lemma {:induction false} DigitsValueOfDigits(n: nat)
    ensures DigitsValue(Digits(n)) == n
  {
    if n >= 10 {
      var d := Digits(n);
      assert d[..|d| - 1] == Digits(n / 10);
      DigitsValueOfDigits(n / 10);
    }
  }

  /** Whitespace that Python's `int()` strips from an ASCII string. */
  predicate IsSpace(b: byte) { b == 32 || 9 <= b <= 13 || 28 <= b <= 31 }

  function StripLeft(s: seq<byte>): (r: seq<byte>)
    ensures |r| <= |s| && r == s[|s| - |r|..]
    ensures r == [] || !IsSpace(r[0])
  {
    if s != [] && IsSpace(s[0]) then StripLeft(s[1..]) else s
  }

  function StripRight(s: seq<byte>): (r: seq<byte>)
    ensures |r| <= |s| && r == s[..|r|]
    ensures r == [] || !IsSpace(r[|r| - 1])
  {
    if s != [] && IsSpace(s[|s| - 1]) then StripRight(s[..|s| - 1]) else s
  }

  /** `int(text)` on the header's length field: surrounding whitespace is
      ignored, the rest must be a non-empty run of decimal digits. */
  function ParseLength(text: seq<byte>): Option<nat>
  {
    var t := StripRight(StripLeft(text));
    if t != [] && forall i :: 0 <= i < |t| ==> IsDigit(t[i]) then Some(DigitsValue(t)) else None
  }

  /** `readline()`: everything up to and including the first newline, or the
      whole stream when there is none. */
  function ReadLine(s: seq<byte>): (r: (seq<byte>, seq<byte>))
    ensures r.0 + r.1 == s
    ensures s != [] ==> r.0 != []
  {
    match Find(s, NL)
    case None => (s, [])
    case Some(k) => (s[..k + 1], s[k + 1..])
  }

  /** `header.split(":")[1]`: the text between the first and the second colon
      (or the end), None when there is no colon at all. */
  function SecondField(line: seq<byte>): (r: Option<seq<byte>>)
    ensures r.Some? ==> COLON !in r.value
  {
    match Find(line, COLON)
    case None => None
    case Some(k) =>
      var after := line[k + 1..];
      match Find(after, COLON)
      case None => Some(after)
      case Some(j) => Some(after[..j])
  }

  /** The outcome of reading one message from the server's output. */
  datatype FrameRead =
    | Eof                                       // the header read found no data
    | Malformed                                 // the header is not ASCII or its length does not parse
    | Short                                     // the stream ends before the announced body does
    | Body(body: seq<byte>, rest: seq<byte>)    // one complete frame
    | Dropped(rest: seq<byte>)                  // a short `read(n)`: the message is `{}`, the rest of the body stays unread

  predicate IsAscii(s: seq<byte>) {
    forall i :: 0 <= i < |s| ==> s[i] < 128
  }

  /** `int(header.decode("ascii").split(":")[1])`: the declared body length,
      None when the header is not ASCII, has no colon or does not parse. */
  function ParseHeader(header: seq<byte>): Option<nat> {
    if !IsAscii(header) then None
    else match SecondField(header)
      case None => None
      case Some(field) => ParseLength(field)
  }

  /** `_read_stdout` with the body read as `readexactly(n)` does: read a
      header line, parse the declared length, skip one line, then take
      the next n bytes of the stream, or stop when it ends sooner. The
      source calls `read(n)`, which may return fewer bytes while the
      stream goes on; `ReadFrameChunked` models that call. */
  function ReadFrame(s: seq<byte>): (r: FrameRead)
    ensures r.Body? ==> |r.rest| < |s|
  {
    if s == [] then Eof
    else
      var s1 := ReadLine(s).1;
      match ParseHeader(ReadLine(s).0)
      case None => Malformed
      case Some(n) =>
        var s2 := ReadLine(s1).1;
        if |s2| < n then Short
        else Body(s2[..n], s2[n..])
  }

  /** `_read_stdout` as written: `read(n)` returns only the body bytes
      already buffered, `arrived` of them (at least one, since the call
      waits for data), rather than waiting for all n. A body cut short
      reads as `{}`, and its unread bytes are left where the next header
      read will begin. */
  function ReadFrameChunked(s: seq<byte>, arrived: nat): (r: FrameRead)
    requires 1 <= arrived
    ensures r.Body? || r.Dropped? ==> |r.rest| < |s|
  {
    if s == [] then Eof
    else
      var s1 := ReadLine(s).1;
      match ParseHeader(ReadLine(s).0)
      case None => Malformed
      case Some(n) =>
        var s2 := ReadLine(s1).1;
        var k := if n <= arrived && n <= |s2| then n else if arrived <= |s2| then arrived else |s2|;
        if k == n then Body(s2[..n], s2[n..]) else Dropped(s2[k..])
  }

  const HEADER_PREFIX: seq<byte> := Ascii("Content-Length: ")
  const HEADER_END: seq<byte> := Ascii("\r\n\r\n")

  /** The bytes `send_request_rpc` writes for one JSON body. */
  function EncodeFrame(body: seq<byte>): (r: seq<byte>)
    ensures |r| == |HEADER_PREFIX| + |Digits(|body|)| + |HEADER_END| + |body|
    ensures r[|r| - |body|..] == body
  {
    HEADER_PREFIX + Digits(|body|) + HEADER_END + body
  }

  lemma HeaderFacts()
    ensures HEADER_PREFIX == Ascii("Content-Length") + [COLON, 32]
    ensures COLON !in Ascii("Content-Length") && NL !in HEADER_PREFIX
    ensures HEADER_END == [13, NL, 13, NL]
    ensures forall i :: 0 <= i < |HEADER_PREFIX| ==> HEADER_PREFIX[i] < 128
  {
  }

  lemma {:induction false} WrittenHeaderIsAscii(d: seq<byte>)
    requires forall i :: 0 <= i < |d| ==> IsDigit(d[i])
    ensures IsAscii(HEADER_PREFIX + d + [13, NL])
  {
    HeaderFacts();
    var line := HEADER_PREFIX + d + [13, NL];
    forall i | 0 <= i < |line| ensures line[i] < 128 {
      if i >= |HEADER_PREFIX| + |d| {
      } else if i >= |HEADER_PREFIX| {
        assert line[i] == d[i - |HEADER_PREFIX|];
      } else {
        assert line[i] == HEADER_PREFIX[i];
      }
    }
  }

  lemma {:induction false} WrittenHeaderField(d: seq<byte>)
    requires forall i :: 0 <= i < |d| ==> IsDigit(d[i])
    ensures SecondField(HEADER_PREFIX + d + [13, NL]) == Some([32] + d + [13, NL])
  {
    HeaderFacts();
    var name := Ascii("Content-Length");
    var line := HEADER_PREFIX + d + [13, NL];
    var after := [32] + d + [13, NL];
    assert line == name + [COLON] + after;
    assert Find(line, COLON) == Some(|name|) by {
      assert line[..|name|] == name;
    }
    assert line[|name| + 1..] == after;
    assert COLON !in after by {
      forall i | 0 <= i < |after| ensures after[i] != COLON {
        if 1 <= i <= |d| { assert after[i] == d[i - 1]; }
      }
    }
  }

  lemma {:induction false} WrittenLengthParses(d: seq<byte>)
    requires d != [] && forall i :: 0 <= i < |d| ==> IsDigit(d[i])
    ensures ParseLength([32] + d + [13, NL]) == Some(DigitsValue(d))
  {
    StripLeftSpace(d + [13, NL]);
    assert [32] + d + [13, NL] == [32] + (d + [13, NL]);
    StripLeftDigits(d + [13, NL]);
    StripRightLine(d);
  }

  lemma StripLeftSpace(t: seq<byte>)
    ensures StripLeft([32] + t) == StripLeft(t)
  {
    assert ([32] + t)[1..] == t;
  }

  lemma StripLeftDigits(t: seq<byte>)
    requires t != [] && IsDigit(t[0])
    ensures StripLeft(t) == t
  {
  }

  lemma StripRightLine(d: seq<byte>)
    requires d != [] && IsDigit(d[|d| - 1])
    ensures StripRight(d + [13, NL]) == d
  {
    assert (d + [13, NL])[..|d| + 1] == d + [13];
    assert StripRight(d + [13, NL]) == StripRight(d + [13]);
    assert (d + [13])[..|d|] == d;
    assert StripRight(d + [13]) == StripRight(d);
  }

  /** The header line the writer produces for digits d parses back to
      the value of d. */
  lemma {:induction false} ParseWrittenHeader(d: seq<byte>)
    requires d != [] && forall i :: 0 <= i < |d| ==> IsDigit(d[i])
    ensures ParseHeader(HEADER_PREFIX + d + [13, NL]) == Some(DigitsValue(d))
  {
    WrittenHeaderIsAscii(d);
    WrittenHeaderField(d);
    WrittenLengthParses(d);
  }

  /** The writer's header line ends at the first newline of a frame. */
  lemma {:induction false} FrameHeaderLine(body: seq<byte>, rest: seq<byte>)
    ensures ReadLine(EncodeFrame(body) + rest)
         == (HEADER_PREFIX + Digits(|body|) + [13, NL], [13, NL] + body + rest)
  {
    HeaderFacts();
    var d := Digits(|body|);
    var s := EncodeFrame(body) + rest;
    var line := HEADER_PREFIX + d + [13, NL];
    assert s == line + ([13, NL] + body + rest);
    assert NL !in d;
    assert NL !in HEADER_PREFIX + d + [13];
    assert s[|line| - 1] == NL;
    assert s[..|line| - 1] == HEADER_PREFIX + d + [13];
  }

  lemma ReadFrameUnfold(s: seq<byte>, n: nat)
    requires s != []
    requires ParseHeader(ReadLine(s).0) == Some(n)
    requires |ReadLine(ReadLine(s).1).1| >= n
    ensures ReadFrame(s) == Body(ReadLine(ReadLine(s).1).1[..n], ReadLine(ReadLine(s).1).1[n..])
  {
  }

  lemma {:induction false} EncodedHeaderParses(body: seq<byte>, rest: seq<byte>)
    ensures ParseHeader(ReadLine(EncodeFrame(body) + rest).0) == Some(|body|)
  {
    FrameHeaderLine(body, rest);
    ParseWrittenHeader(Digits(|body|));
    DigitsValueOfDigits(|body|);
  }

  lemma SkipSeparator(body: seq<byte>, rest: seq<byte>)
    ensures ReadLine([13, NL] + body + rest).1 == body + rest
  {
    assert Find([13, NL] + body + rest, NL) == Some(1);
  }

  /** Reading back a frame that was written yields exactly the body, and the
      reader stops right after it. */
  lemma {:induction false} ReadEncodedFrame(body: seq<byte>, rest: seq<byte>)
    ensures ReadFrame(EncodeFrame(body) + rest) == Body(body, rest)
  {
    var s := EncodeFrame(body) + rest;
    FrameHeaderLine(body, rest);
    EncodedHeaderParses(body, rest);
    SkipSeparator(body, rest);
    assert ReadLine(ReadLine(s).1).1 == body + rest;
    ReadFrameUnfold(s, |body|);
    assert (body + rest)[..|body|] == body && (body + rest)[|body|..] == rest;
  }

  /** When the whole body has arrived, `read(n)` reads as `readexactly(n)`
      would. */
  lemma ReadFrameChunkedWhole(s: seq<byte>, arrived: nat)
    requires 1 <= arrived
    requires ReadFrame(s).Body? && |ReadFrame(s).body| <= arrived
    ensures ReadFrameChunked(s, arrived) == ReadFrame(s)
  {
  }

  /** A written frame whose body has only partly arrived when it is read,
      whatever follows it (the next frame, say): the reader as written
      drops the message and resumes inside its body, where reading it
      exactly yields the body and resumes at what follows. */
  lemma {:induction false} ShortReadDropsFrame(body: seq<byte>, rest: seq<byte>, arrived: nat)
    requires 1 <= arrived < |body|
    ensures ReadFrameChunked(EncodeFrame(body) + rest, arrived) == Dropped(body[arrived..] + rest)
    ensures ReadFrame(EncodeFrame(body) + rest) == Body(body, rest)
  {
    ReadEncodedFrame(body, rest);
    EncodedBodyStart(body, rest);
    ChunkedUnfold(EncodeFrame(body) + rest, |body|, arrived, body + rest);
    DropConcat(body, rest, arrived);
  }

  /** After the header and the blank line of a written frame, the body
      begins. */
  lemma {:induction false} EncodedBodyStart(body: seq<byte>, rest: seq<byte>)
    ensures EncodeFrame(body) + rest != []
    ensures ParseHeader(ReadLine(EncodeFrame(body) + rest).0) == Some(|body|)
    ensures ReadLine(ReadLine(EncodeFrame(body) + rest).1).1 == body + rest
  {
    FrameHeaderLine(body, rest);
    EncodedHeaderParses(body, rest);
    SkipSeparator(body, rest);
  }

  lemma ChunkedUnfold(s: seq<byte>, n: nat, arrived: nat, s2: seq<byte>)
    requires s != [] && ParseHeader(ReadLine(s).0) == Some(n)
    requires s2 == ReadLine(ReadLine(s).1).1
    requires 1 <= arrived < n <= |s2|
    ensures ReadFrameChunked(s, arrived) == Dropped(s2[arrived..])
  {
  }

  lemma DropConcat(a: seq<byte>, b: seq<byte>, k: nat)
    requires k <= |a|
    ensures (a + b)[k..] == a[k..] + b
  {
  }

  /** Reads frames until the stream ends or stops parsing; the bodies read. */
  function ReadAll(s: seq<byte>): seq<seq<byte>>
    decreases |s|
  {
    match ReadFrame(s)
    case Body(b, rest) => [b] + ReadAll(rest)
    case _ => []
  }

  function EncodeAll(bodies: seq<seq<byte>>): seq<byte> {
    if bodies == [] then [] else EncodeFrame(bodies[0]) + EncodeAll(bodies[1..])
  }

  /** A stream made of written frames is read back body by body, in order. */
  lemma {:induction false} ReadAllEncodeAll(bodies: seq<seq<byte>>)
    ensures ReadAll(EncodeAll(bodies)) == bodies
  {
    if bodies != [] {
      var rest := EncodeAll(bodies[1..]);
      ReadEncodedFrame(bodies[0], rest);
      ReadAllEncodeAll(bodies[1..]);
      ReadAllBody(EncodeFrame(bodies[0]) + rest, bodies[0], rest);
      assert bodies == [bodies[0]] + bodies[1..];
    } else {
      assert ReadFrame([]) == Eof;
    }
  }

  lemma ReadAllBody(s: seq<byte>, body: seq<byte>, rest: seq<byte>)
    requires ReadFrame(s) == Body(body, rest)
    ensures ReadAll(s) == [body] + ReadAll(rest)
  {
  }

  /** Writing in two steps writes the same bytes as writing at once. */
  lemma AppendAssoc(a: seq<byte>, b: seq<byte>, c: seq<byte>)
    ensures a + (b + c) == (a + b) + c
  {
  }

  /** Writing one more frame extends the stream by exactly that frame. */
  lemma {:induction false} EncodeAllAppend(bodies: seq<seq<byte>>, body: seq<byte>)
    ensures EncodeAll(bodies + [body]) == EncodeAll(bodies) + EncodeFrame(body)
  {
    if bodies != [] {
      assert (bodies + [body])[1..] == bodies[1..] + [body];
      EncodeAllAppend(bodies[1..], body);
    } else {
      assert EncodeAll([body]) == EncodeFrame(body) + EncodeAll([]);
    }
  }
}
