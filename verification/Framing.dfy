/** Length-prefixed framing of transport.cpp: a four-byte size, then the bytes of the message. */
module Framing {
  import opened Wrappers

  type Byte = b: int | 0 <= b < 256

  const HEADER := 4
  const MAX_SIZE := 2048
  const INT_LIMIT := 0x8000_0000

  /** The size as the writer's int lies in memory, least significant byte first. */
  function Header(n: nat): (h: seq<Byte>)
    requires n < INT_LIMIT
    ensures |h| == HEADER
  {
    [n % 256, n / 256 % 256, n / 65536 % 256, n / 16777216]
  }

  /** The four bytes read back as a signed int. */
  function Size(h: seq<Byte>): int
    requires |h| == HEADER
  {
    var n: int := h[0] as int + 256 * (h[1] as int) + 65536 * (h[2] as int) + 16777216 * (h[3] as int);
    if n < INT_LIMIT then n else n - 2 * INT_LIMIT
  }

  lemma SizeOfHeader(n: nat)
    requires n < INT_LIMIT
    ensures Size(Header(n)) == n
    ensures n < 256 ==> Header(n) == [n, 0, 0, 0]
  {
    assert n / 256 / 256 == n / 65536;
    assert n / 65536 / 256 == n / 16777216;
  }

  type Message = seq<Byte>

  function Frame(m: Message): seq<Byte>
    requires |m| < INT_LIMIT
  {
    Header(|m|) + m
  }

  /** The bytes before the first zero: what is left when the buffer is read as a C string. */
  function CString(bytes: seq<Byte>): Message {
    if bytes == [] || bytes[0] == 0 then [] else [bytes[0]] + CString(bytes[1..])
  }

  lemma {:induction false} CStringKeepsAll(bytes: seq<Byte>)
    ensures CString(bytes) == bytes <==> 0 !in bytes
  {
    if bytes != [] && bytes[0] != 0 {
      CStringKeepsAll(bytes[1..]);
      assert bytes == [bytes[0]] + bytes[1..];
      assert CString(bytes)[1..] == CString(bytes[1..]);
    }
  }

  /** One `_read`: the message, or none for a size out of bounds; and what stays in the pipe. */
  datatype ReadResult = ReadResult(message: Option<Message>, rest: seq<Byte>)

  function ReadFrame(pipe: seq<Byte>): ReadResult
    requires |pipe| >= HEADER
  {
    var size := Size(pipe[..HEADER]);
    var body := pipe[HEADER..];
    if size < 0 || size > MAX_SIZE then ReadResult(None, body)
    else
      var got := if size <= |body| then size else |body|;
      ReadResult(Some(CString(body[..got])), body[got..])
  }

  /** What the transport carries unchanged. */
  predicate Sendable(m: Message) {
    |m| <= MAX_SIZE && 0 !in m
  }

  /**
    A framed message is read back as it was written exactly when it is at most 2048 bytes long and
    free of zero bytes; up to that length the reader stays in step with the writer in any case.
   */
  lemma FrameRoundTrip(m: Message, later: seq<Byte>)
    requires |m| < INT_LIMIT
    ensures var r := ReadFrame(Frame(m) + later);
            && (r.message == Some(m) <==> |m| <= 2048 && 0 !in m)
            && (|m| <= 2048 ==> r.rest == later)
  {
    var pipe := Frame(m) + later;
    assert pipe[..HEADER] == Header(|m|);
    assert pipe[HEADER..] == m + later;
    SizeOfHeader(|m|);
    assert (m + later)[..|m|] == m && (m + later)[|m|..] == later;
    CStringKeepsAll(m);
  }

  predicate AllSendable(ms: seq<Message>) {
    forall i :: 0 <= i < |ms| ==> Sendable(ms[i])
  }

  function Frames(ms: seq<Message>): seq<Byte>
    requires AllSendable(ms)
  {
    if ms == [] then [] else Frame(ms[0]) + Frames(ms[1..])
  }

  lemma Regroup(a: seq<Byte>, b: seq<Byte>, c: seq<Byte>)
    ensures a + (b + c) == (a + b) + c
  {
  }

  lemma {:induction false} FramesSnoc(ms: seq<Message>, m: Message)
    requires Sendable(m) && AllSendable(ms)
    ensures Frames(ms + [m]) == Frames(ms) + Frame(m)
  {
    if ms == [] {
      assert [m][1..] == [];
      assert ms + [m] == [m];
    } else {
      FramesSnoc(ms[1..], m);
      assert (ms + [m])[1..] == ms[1..] + [m];
      Regroup(Frame(ms[0]), Frames(ms[1..]), Frame(m));
    }
  }

  /** A pipe of whole frames gives up its oldest message. */
  lemma ReadOldest(ms: seq<Message>)
    requires ms != [] && AllSendable(ms)
    ensures |Frames(ms)| >= HEADER
    ensures ReadFrame(Frames(ms)) == ReadResult(Some(ms[0]), Frames(ms[1..]))
  {
    FrameRoundTrip(ms[0], Frames(ms[1..]));
  }
}
