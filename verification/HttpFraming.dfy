/** The response the server writes, and the proof that the readers take it apart again: status line
    and Content-Length as sections 4 and 6.2 of RFC 9112 have them. */
module HttpFraming {
  import opened Base
  import opened HttpReading

  const MAX_CONTENTLENGTH_LENGTH := 16
  const MAX_STATUS_CODE_LENGTH := 3

  const RESPONSE_FORMAT := "HTTP/1.1 %d %s\r\nServer: OSConfig\r\nContent-Type: application/json\r\nContent-Length: %d\r\n\r\n%.*s"

  const SERVER := "Server: OSConfig"
  const CONTENT_TYPE := "Content-Type: application/json"
  const CONTENT_LENGTH := "Content-Length: "

  const HTTP_OK := 200
  const HTTP_BAD_REQUEST := 400
  const HTTP_NOT_FOUND := 404
  const HTTP_INTERNAL_SERVER_ERROR := 500

  function HttpReasonAsString(status: int): string {
    if status == HTTP_OK then "OK"
    else if status == HTTP_BAD_REQUEST then "Bad Request"
    else if status == HTTP_NOT_FOUND then "Not Found"
    else if status == HTTP_INTERNAL_SERVER_ERROR then "Internal Server Error"
    else "Unknown"
  }

  /** The digits of a number. */
  function Decimal(n: nat): (s: string)
    ensures s != [] && forall i :: 0 <= i < |s| ==> IsDigit(s[i])
    decreases n
  {
    if n < 10 then [Digit(n)] else Decimal(n / 10) + [Digit(n % 10)]
  }

  function Digit(d: nat): (c: char)
    requires d < 10
    ensures IsDigit(c) && DigitValue(c) == d
  {
    ('0' as int + d) as char
  }

  /** %d */
  function SignedDecimal(n: int): string {
    if n < 0 then "-" + Decimal(-n) else Decimal(n)
  }

  /** %.*s: at most `size` bytes, and none beyond a NUL. */
  function Precision(body: string, size: nat): string {
    CString(if size < |body| then body[..size] else body)
  }

  /** The header lines behind the status code, without their line ends. */
  function Lines(reason: string, size: nat): seq<string> {
    [" " + reason, SERVER, CONTENT_TYPE, CONTENT_LENGTH + Decimal(size)]
  }

  function Joined(lines: seq<string>): string {
    if lines == [] then "" else lines[0] + "\r\n" + Joined(lines[1..])
  }

  /** The header block behind the status code: its lines, then an empty one. */
  function Header(reason: string, size: nat): string {
    Joined(Lines(reason, size)) + "\r\n"
  }

  /** What the format expands to. */
  function Formatted(status: nat, reason: string, size: nat, body: string): string {
    "HTTP/1.1 " + Decimal(status) + (Header(reason, size) + Precision(body, size))
  }

  function EstimatedSize(reason: string, size: nat): nat {
    |RESPONSE_FORMAT| + MAX_STATUS_CODE_LENGTH + |reason| + MAX_CONTENTLENGTH_LENGTH + size + 1
  }

  /** The bytes written to the socket. The estimate is an int, and malloc takes one that turned negative
      for a size it cannot give; nothing is written then. snprintf keeps one byte of the buffer for the
      terminator. */
  function Response(status: nat, size: nat, body: string): (r: Option<string>)
    requires size <= INT_MAX
  {
    var reason := HttpReasonAsString(status);
    var text := Formatted(status, reason, size, body);
    var estimate := LowInt(EstimatedSize(reason, size));
    if estimate <= 0 then None
    else if |text| <= estimate - 1 then Some(text)
    else Some(text[..estimate - 1])
  }

  // ---------- Numbers ----------

  lemma {:induction false} DecimalValue(n: nat)
    ensures DigitsValue(Decimal(n)) == n
    decreases n
  {
    if n < 10 {
      assert Decimal(n)[..0] == [];
    } else {
      DecimalValue(n / 10);
      assert Decimal(n)[..|Decimal(n)| - 1] == Decimal(n / 10);
    }
  }

  function Pow10(k: nat): nat {
    if k == 0 then 1 else 10 * Pow10(k - 1)
  }

  lemma {:induction false} DecimalLength(n: nat, k: nat)
    requires 1 <= k && n < Pow10(k)
    ensures |Decimal(n)| <= k
    decreases k
  {
    if n >= 10 {
      assert Pow10(1) == 10 * Pow10(0);
      DecimalLength(n / 10, k - 1);
    }
  }

  /** The magnitude of an int has at most ten digits. */
  lemma IntLength(n: nat)
    requires n <= INT_MAX + 1
    ensures |Decimal(n)| <= 10
  {
    assert Pow10(10) == 10_000_000_000 by {
      assert Pow10(2) == 100;
      assert Pow10(4) == 10_000;
      assert Pow10(6) == 1_000_000;
      assert Pow10(8) == 100_000_000;
    }
    DecimalLength(n, 10);
  }

  lemma ThreeDigits(status: nat)
    requires 100 <= status <= 599
    ensures IsStatusCode(Decimal(status)) && Atoi(Decimal(status)) == status
  {
    DecimalValue(status);
    var tens := status / 10;
    assert Decimal(status) == Decimal(tens) + [Digit(status % 10)];
    assert Decimal(tens) == Decimal(tens / 10) + [Digit(tens % 10)];
    assert Decimal(tens / 10) == [Digit(tens / 10)];
    assert DigitValue(Decimal(status)[0]) == status / 100;
  }

  /** The estimate can be had iff an int can hold it. */
  predicate Allocatable(status: nat, size: nat) {
    EstimatedSize(HttpReasonAsString(status), size) <= INT_MAX
  }

  /** The expanded format and its terminator fit the estimate. */
  lemma FormattedFits(status: nat, size: nat, body: string)
    requires 100 <= status <= 599 && size <= INT_MAX
    ensures |Formatted(status, HttpReasonAsString(status), size, body)| < EstimatedSize(HttpReasonAsString(status), size)
  {
    FormatLength();
    ThreeDigits(status);
    IntLength(size);
    var reason := HttpReasonAsString(status);
    JoinedFour(" " + reason, SERVER, CONTENT_TYPE, CONTENT_LENGTH + Decimal(size));
    assert |Header(reason, size)| == |reason| + |Decimal(size)| + 73;
  }

  /** An estimate stored in an int is itself or negative. */
  lemma EstimateStored(status: nat, size: nat)
    requires size <= INT_MAX
    ensures var e := EstimatedSize(HttpReasonAsString(status), size);
            if e <= INT_MAX then LowInt(e) == e > 0 else LowInt(e) < 0
  {
    FormatLength();
    var e := EstimatedSize(HttpReasonAsString(status), size);
    assert 0 < e < INT_MAX + 200;
  }

  /** A response is written iff its estimate fits an int, and then the buffer is never too small. */
  lemma NeverTruncated(status: nat, size: nat, body: string)
    requires 100 <= status <= 599 && size <= INT_MAX
    ensures Response(status, size, body)
            == if Allocatable(status, size) then Some(Formatted(status, HttpReasonAsString(status), size, body)) else None
  {
    FormattedFits(status, size, body);
    EstimateStored(status, size);
  }

  lemma FormatLength()
    ensures |RESPONSE_FORMAT| == 92 && |RESPONSE_FORMAT| + MAX_STATUS_CODE_LENGTH + MAX_CONTENTLENGTH_LENGTH + 1 == 112
  {
  }

  lemma HeaderText(reason: string, size: nat)
    ensures Header(reason, size) == (" " + reason + "\r\n") + "Server: OSConfig\r\n" + "Content-Type: application/json\r\n"
                                    + ("Content-Length: " + Decimal(size) + "\r\n") + "\r\n"
  {
    JoinedFour(" " + reason, SERVER, CONTENT_TYPE, CONTENT_LENGTH + Decimal(size));
    assert SERVER + "\r\n" == "Server: OSConfig\r\n";
    assert CONTENT_TYPE + "\r\n" == "Content-Type: application/json\r\n";
  }

  lemma ReasonTexts(status: int)
    ensures HttpReasonAsString(200) == "OK" && HttpReasonAsString(400) == "Bad Request" && HttpReasonAsString(404) == "Not Found"
    ensures HttpReasonAsString(500) == "Internal Server Error"
    ensures status !in {200, 400, 404, 500} ==> HttpReasonAsString(status) == "Unknown"
  {
  }

  /** A response that is written consists of status line, header lines, an empty line, and the body up
      to its size or a NUL. */
  lemma ResponseText(status: nat, size: nat, body: string)
    requires 100 <= status <= 599 && size <= INT_MAX && Allocatable(status, size)
    ensures Response(status, size, body)
            == Some("HTTP/1.1 " + Decimal(status)
                    + ((" " + HttpReasonAsString(status) + "\r\n") + "Server: OSConfig\r\n" + "Content-Type: application/json\r\n"
                       + ("Content-Length: " + Decimal(size) + "\r\n") + "\r\n" + Precision(body, size)))
  {
    NeverTruncated(status, size, body);
    HeaderText(HttpReasonAsString(status), size);
  }

  /** The sizes that get no response at all, such as the largest int. */
  lemma LargestNotWritten(size: nat, body: string)
    requires size <= INT_MAX
    ensures Response(HTTP_OK, size, body) == None <==> size > INT_MAX - 114
    ensures Response(HTTP_OK, INT_MAX, body) == None
  {
    NeverTruncated(HTTP_OK, size, body);
    NeverTruncated(HTTP_OK, INT_MAX, body);
    FormatLength();
  }

  // ---------- Where a header block ends ----------

  predicate Line(l: string) {
    l != [] && '\r' !in l && NUL !in l
  }

  lemma {:induction false} JoinedClean(lines: seq<string>)
    requires forall i :: 0 <= i < |lines| ==> Line(lines[i])
    ensures NUL !in Joined(lines)
    ensures lines != [] ==> |Joined(lines)| >= 3 && Joined(lines)[0] != '\r' && Joined(lines)[|Joined(lines)| - 2..] == "\r\n"
  {
    if lines != [] {
      JoinedClean(lines[1..]);
      assert Line(lines[0]);
      var rest := Joined(lines[1..]);
      if lines[1..] == [] {
        assert Joined(lines) == lines[0] + "\r\n";
      } else {
        assert Joined(lines)[|Joined(lines)| - 2..] == rest[|rest| - 2..];
      }
    }
  }

  predicate DoubleEnd(h: string, i: nat) {
    i + 4 <= |h| && h[i] == '\r' && h[i + 1] == '\n' && h[i + 2] == '\r' && h[i + 3] == '\n'
  }

  lemma DoubleEndOccurs(h: string, i: nat)
    ensures OccursAt(h, "\r\n\r\n", i) <==> DoubleEnd(h, i)
  {
    if i + 4 <= |h| {
      var part := h[i..i + 4];
      assert part[0] == h[i] && part[1] == h[i + 1] && part[2] == h[i + 2] && part[3] == h[i + 3];
    }
  }

  /** In a block of non-empty lines closed by an empty one, the double line end occurs at the very
      end and nowhere before. */
  lemma {:induction false} DoubleEndOnlyAtEnd(lines: seq<string>, i: nat)
    requires lines != [] && forall k :: 0 <= k < |lines| ==> Line(lines[k])
    ensures var h := Joined(lines) + "\r\n";
            |h| >= 5 && (DoubleEnd(h, i) <==> i == |h| - 4)
    decreases |lines|
  {
    JoinedClean(lines);
    var l, rest := lines[0], Joined(lines[1..]) + "\r\n";
    var h := Joined(lines) + "\r\n";
    assert Line(l);
    assert h == l + "\r\n" + rest;
    if i < |l| {
      assert h[i] == l[i];
    } else if lines[1..] == [] {
      assert rest == "\r\n";
    } else {
      JoinedClean(lines[1..]);
      if i >= |l| + 2 {
        DoubleEndOnlyAtEnd(lines[1..], i - |l| - 2);
      } else {
        assert h[|l| + 2] == rest[0];
      }
    }
  }

  /** Before the end of the block a reader has not seen the double line end; at the end it has. */
  lemma SeenOnlyAtEnd(lines: seq<string>, k: nat)
    requires lines != [] && forall i :: 0 <= i < |lines| ==> Line(lines[i])
    requires k <= |Joined(lines) + "\r\n"|
    ensures Seen(Joined(lines) + "\r\n", "\r\n\r\n", k) <==> k == |Joined(lines) + "\r\n"|
  {
    var h := Joined(lines) + "\r\n";
    JoinedClean(lines);
    var part := h[..k];
    CStringWhole(part);
    if k == |h| {
      DoubleEndOnlyAtEnd(lines, |h| - 4);
      assert part == h;
      DoubleEndOccurs(part, k - 4);
    } else {
      forall i: nat ensures !OccursAt(part, "\r\n\r\n", i) {
        DoubleEndOccurs(part, i);
        DoubleEndOnlyAtEnd(lines, i);
        assert DoubleEnd(part, i) ==> DoubleEnd(h, i);
      }
    }
  }

  /** So a reader that looks for it stops exactly behind the block, whatever follows. */
  lemma ReadsWholeBlock(lines: seq<string>, body: string)
    requires lines != [] && forall k :: 0 <= k < |lines| ==> Line(lines[k])
    ensures ReadUntil(Joined(lines) + "\r\n" + body, "\r\n\r\n") == (Some(Joined(lines) + "\r\n"), body)
  {
    var h := Joined(lines) + "\r\n";
    SeenOnlyAtEnd(lines, |h|);
    forall k | 1 <= k < |h| ensures !Seen(h, "\r\n\r\n", k) {
      SeenOnlyAtEnd(lines, k);
    }
    BlockRead(h, body, "\r\n\r\n");
  }

  /** A block in which the text is complete only at the end is what the reader returns. */
  lemma BlockRead(h: string, body: string, what: string)
    requires h != [] && Seen(h, what, |h|)
    requires forall k :: 1 <= k < |h| ==> !Seen(h, what, k)
    ensures ReadUntil(h + body, what) == (Some(h), body)
  {
    var s := h + body;
    assert s[..|h|] == h && s[|h|..] == body;
    SeenSame(h, body, what, |h|);
    forall k | 1 <= k < |h| ensures !Seen(s, what, k) {
      SeenSame(h, body, what, k);
    }
  }

  lemma SeenSame(h: string, body: string, what: string, k: nat)
    requires k <= |h|
    ensures Seen(h + body, what, k) == Seen(h, what, k)
  {
    assert (h + body)[..k] == h[..k];
  }

  // ---------- The Content-Length field ----------

  lemma JoinedFour(a: string, b: string, c: string, d: string)
    ensures Joined([a, b, c, d]) == (a + "\r\n" + b + "\r\n" + c + "\r\n") + d + "\r\n"
  {
    var ls := [a, b, c, d];
    assert ls[1..] == [b, c, d] && [b, c, d][1..] == [c, d] && [c, d][1..] == [d] && [d][1..] == [];
    assert Joined([d]) == d + "\r\n";
    assert Joined([c, d]) == c + "\r\n" + (d + "\r\n");
    assert Joined([b, c, d]) == b + "\r\n" + (c + "\r\n" + (d + "\r\n"));
  }

  /** The first Content-Length label is the real one: the label has a capital L at index 8 and
      nothing before it has one. */
  lemma LabelFoundFirst(p: string, tail: string)
    requires 'L' !in p
    ensures Strstr(p + CONTENT_LENGTH + tail, CONTENT_LENGTH) == Some(|p|)
  {
    var s := p + CONTENT_LENGTH + tail;
    assert s[|p|..|p| + 16] == CONTENT_LENGTH;
    assert OccursAt(s, CONTENT_LENGTH, |p|);
    forall i: nat | i < |p| ensures !OccursAt(s, CONTENT_LENGTH, i) {
      if i + 8 < |p| {
        assert s[i + 8] == p[i + 8];
      } else {
        assert s[i + 8] == CONTENT_LENGTH[i + 8 - |p|];
      }
      assert s[i + 8] != 'L';
    }
  }

  lemma ReasonIsClean(status: int)
    ensures Clean(HttpReasonAsString(status))
  {
    assert Clean("OK") && Clean("Bad Request") && Clean("Not Found");
    assert Clean("Internal Server Error");
    assert Clean("Unknown");
  }

  /** Nothing that a reader of the header could mistake for something else. */
  predicate Clean(s: string) {
    forall i :: 0 <= i < |s| ==> s[i] != 'L' && s[i] != '\r' && s[i] != NUL
  }

  lemma LengthParsed(reason: string, size: nat)
    requires Clean(reason) && size <= INT_MAX
    ensures ContentLengthIn(Header(reason, size)) == size
  {
    JoinedFour(" " + reason, SERVER, CONTENT_TYPE, CONTENT_LENGTH + Decimal(size));
    var p := " " + reason + "\r\n" + SERVER + "\r\n" + CONTENT_TYPE + "\r\n";
    var tail := Decimal(size) + "\r\n\r\n";
    assert 'L' !in SERVER && 'L' !in CONTENT_TYPE;
    assert 'L' !in p;
    var h := Header(reason, size);
    assert h == p + CONTENT_LENGTH + tail;
    LinesAreLines(reason, size);
    JoinedClean(Lines(reason, size));
    CStringWhole(h);
    LabelFoundFirst(p, tail);
    assert h[|p| + 16..] == tail;
    DigitsParsed(size);
  }

  lemma DigitsParsed(size: nat)
    requires size <= INT_MAX
    ensures var tail := Decimal(size) + "\r\n\r\n";
            PrefixOf(tail, IsDigit, 63) == Decimal(size) && Atoi(Decimal(size)) == size
  {
    var tail := Decimal(size) + "\r\n\r\n";
    IntLength(size);
    assert tail[|Decimal(size)|] == '\r';
    PrefixOfIs(tail, IsDigit, 63, |Decimal(size)|);
    DecimalValue(size);
    assert tail[..|Decimal(size)|] == Decimal(size);
  }

  // ---------- Round trip ----------

  lemma StatusRead(status: nat, rest: string)
    requires 100 <= status <= 599
    ensures ReadHttpStatus("HTTP/1.1 " + Decimal(status) + rest) == (status, rest)
  {
    ThreeDigits(status);
    var s, prefix := "HTTP/1.1 " + Decimal(status) + rest, "HTTP/1.1";
    var pending := " " + Decimal(status) + rest;
    assert s == prefix + pending;
    PrefixRead(prefix, pending);
    assert pending[1..4] == Decimal(status) && pending[4..] == rest;
  }

  /** A text that comes right away is all that is consumed. */
  lemma PrefixRead(prefix: string, pending: string)
    requires prefix != [] && NUL !in prefix
    ensures ReadUntil(prefix + pending, prefix) == (Some(prefix), pending)
  {
    assert prefix[..|prefix|] == prefix;
    CStringWhole(prefix);
    assert OccursAt(prefix, prefix, 0);
    BlockRead(prefix, pending, prefix);
  }

  /** What a client reads: status, length, and the bytes left for the body. */
  function ReadResponse(bytes: string): (int, int, string) {
    var (status, rest) := ReadHttpStatus(bytes);
    var (length, body) := ReadHttpContentLength(rest);
    (status, length, body)
  }

  /** Reading status and then length from a written response gives back the status and the size
      that were formatted and leaves the body bytes, whatever the body contains. */
  lemma ResponseReadBack(status: nat, size: nat, body: string)
    requires 100 <= status <= 599 && size <= INT_MAX
    ensures Response(status, size, body).Some? <==> Allocatable(status, size)
    ensures Allocatable(status, size) ==> ReadResponse(Response(status, size, body).value) == (status, size, Precision(body, size))
  {
    NeverTruncated(status, size, body);
    ReasonIsClean(status);
    var reason := HttpReasonAsString(status);
    StatusRead(status, Header(reason, size) + Precision(body, size));
    LinesAreLines(reason, size);
    ReadsWholeBlock(Lines(reason, size), Precision(body, size));
    LengthParsed(reason, size);
  }

  lemma LinesAreLines(reason: string, size: nat)
    requires Clean(reason)
    ensures forall k :: 0 <= k < 4 ==> Line(Lines(reason, size)[k])
  {
    assert Line(" " + reason);
    assert Line(SERVER);
    assert Line(CONTENT_TYPE);
    var d := Decimal(size);
    assert forall i :: 0 <= i < |d| ==> IsDigit(d[i]);
    assert Line(CONTENT_LENGTH);
    assert Line(CONTENT_LENGTH + d);
  }

  /** For every status a handler can return and every body without NUL, the client gets status,
      length and body back exactly iff the estimate fits an int, and nothing otherwise. */
  lemma RoundTrip(status: nat, body: string)
    requires 100 <= status <= 599 && |body| <= INT_MAX && NUL !in body
    ensures match Response(status, |body|, body)
            case None => !Allocatable(status, |body|)
            case Some(bytes) => Allocatable(status, |body|) && ReadResponse(bytes) == (status, |body|, body)
  {
    ResponseReadBack(status, |body|, body);
    CStringWhole(body);
  }

  /** The length that a written response advertises is the number of its body bytes iff the handler's
      buffer really holds that many bytes before any NUL. */
  lemma LengthIsHonestIff(status: nat, size: nat, body: string)
    requires 100 <= status <= 599 && size <= INT_MAX && Allocatable(status, size)
    ensures Response(status, size, body).Some?
    ensures var (_, length, rest) := ReadResponse(Response(status, size, body).value);
            length == |rest| <==> size <= |body| && NUL !in body[..size]
  {
    ResponseReadBack(status, size, body);
    if size <= |body| {
      assert Precision(body, size) == CString(body[..size]) by { assert body[..|body|] == body; }
      if NUL !in body[..size] { CStringWhole(body[..size]); }
    }
  }
  /** A buffer with a NUL inside advertises a byte that is not sent. */
  lemma DishonestLength()
    ensures var bytes := Response(HTTP_OK, 3, ['a', 'b', NUL]);
            bytes.Some? && ReadResponse(bytes.value) == (HTTP_OK, 3, "ab")
  {
    var body := ['a', 'b', NUL];
    SmallAllocatable(HTTP_OK, 3);
    ResponseReadBack(HTTP_OK, 3, body);
    PrecisionCut(body);
  }

  lemma SmallAllocatable(status: nat, size: nat)
    requires size <= 1000
    ensures Allocatable(status, size)
  {
    FormatLength();
  }

  lemma PrecisionCut(body: string)
    requires body == ['a', 'b', NUL]
    ensures Precision(body, 3) == "ab"
  {
    assert CString(body[2..]) == [];
    assert body[1..][1..] == body[2..];
  }
}
