/** The request a client writes, and the proof that the server's readers take it apart again. */
module HttpRequests {
  import opened Base
  import opened HttpReading
  import opened HttpReadingProperties
  import opened HttpFraming

  const PROTOCOL := " HTTP/1.1"
  const HOST := "Host: OSConfig"
  const USER_AGENT := "User-Agent: OSConfig"
  const ACCEPT := "Accept: */*"

  /** The header lines behind the name of the call that are the same in every request. */
  function FixedLines(): seq<string> {
    [PROTOCOL, HOST, USER_AGENT, ACCEPT, CONTENT_TYPE]
  }

  function RequestLines(size: nat): seq<string> {
    FixedLines() + [CONTENT_LENGTH + Decimal(size)]
  }

  /** The bytes of a request as CallMpi formats them. */
  function RequestBytes(name: string, size: nat, body: string): string {
    "POST /" + (name + "/" + (Joined(RequestLines(size)) + "\r\n" + body))
  }

  /** A header line without the capital L that marks the label. */
  predicate PlainLine(l: string) {
    Line(l) && 'L' !in l
  }

  /** The lines of a request, as they are sent. */
  lemma RequestText(size: nat)
    ensures Joined(RequestLines(size)) == " HTTP/1.1\r\n" + ("Host: OSConfig\r\n" + ("User-Agent: OSConfig\r\n" + ("Accept: */*\r\n"
              + ("Content-Type: application/json\r\n" + ("Content-Length: " + Decimal(size) + "\r\n")))))
  {
    var last := CONTENT_LENGTH + Decimal(size);
    JoinedCons(PROTOCOL, [HOST, USER_AGENT, ACCEPT, CONTENT_TYPE, last]);
    JoinedCons(HOST, [USER_AGENT, ACCEPT, CONTENT_TYPE, last]);
    JoinedCons(USER_AGENT, [ACCEPT, CONTENT_TYPE, last]);
    JoinedCons(ACCEPT, [CONTENT_TYPE, last]);
    JoinedCons(CONTENT_TYPE, [last]);
    JoinedCons(last, []);
    assert RequestLines(size) == [PROTOCOL] + [HOST, USER_AGENT, ACCEPT, CONTENT_TYPE, last];
  }

  lemma JoinedCons(line: string, lines: seq<string>)
    ensures Joined([line] + lines) == line + "\r\n" + Joined(lines)
  {
    assert ([line] + lines)[1..] == lines;
  }

  lemma FixedLinesArePlain()
    ensures forall k :: 0 <= k < 5 ==> PlainLine(FixedLines()[k])
  {
    AgentLinesArePlain();
    assert PlainLine(PROTOCOL);
    assert PlainLine(ACCEPT);
    assert PlainLine(CONTENT_TYPE);
  }

  lemma AgentLinesArePlain()
    ensures PlainLine(HOST) && PlainLine(USER_AGENT)
  {
    assert PlainLine(HOST);
    assert PlainLine(USER_AGENT);
  }

  lemma LengthLineIsLine(size: nat)
    ensures Line(CONTENT_LENGTH + Decimal(size))
  {
    var d := Decimal(size);
    assert Line(CONTENT_LENGTH);
    assert forall i :: 0 <= i < |d| ==> IsDigit(d[i]);
  }

  lemma {:induction false} JoinedSnoc(lines: seq<string>, l: string)
    ensures Joined(lines + [l]) == Joined(lines) + (l + "\r\n")
  {
    if lines == [] {
      assert [l][1..] == [];
    } else {
      JoinedSnoc(lines[1..], l);
      assert (lines + [l])[1..] == lines[1..] + [l];
      var first := lines[0] + "\r\n";
      assert first + (Joined(lines[1..]) + (l + "\r\n")) == (first + Joined(lines[1..])) + (l + "\r\n");
    }
  }

  lemma {:induction false} JoinedPlain(lines: seq<string>)
    requires forall k :: 0 <= k < |lines| ==> PlainLine(lines[k])
    ensures 'L' !in Joined(lines) && NUL !in Joined(lines)
  {
    if lines != [] {
      JoinedPlain(lines[1..]);
      assert PlainLine(lines[0]);
    }
  }

  /** The length that a reader gets from a label and a printed size of any magnitude. */
  lemma AnyLengthParsed(p: string, size: nat)
    requires 'L' !in p && NUL !in p && |Decimal(size)| <= 63
    ensures ContentLengthIn(p + CONTENT_LENGTH + (Decimal(size) + "\r\n\r\n")) == Atoi(Decimal(size))
  {
    LengthOfDigits(p, Decimal(size), "\r\n\r\n");
  }

  lemma RequestLengthParsed(size: nat)
    requires |Decimal(size)| <= 63
    ensures ContentLengthIn(Joined(RequestLines(size)) + "\r\n") == Atoi(Decimal(size))
  {
    var p, d := Joined(FixedLines()), Decimal(size);
    FixedLinesArePlain();
    JoinedPlain(FixedLines());
    JoinedSnoc(FixedLines(), CONTENT_LENGTH + d);
    assert p + (CONTENT_LENGTH + d + "\r\n") + "\r\n" == p + CONTENT_LENGTH + (d + "\r\n\r\n");
    AnyLengthParsed(p, size);
  }

  lemma RequestLinesAreLines(size: nat)
    ensures |RequestLines(size)| == 6 && forall k :: 0 <= k < 6 ==> Line(RequestLines(size)[k])
  {
    FixedLinesArePlain();
    LengthLineIsLine(size);
    assert forall k :: 0 <= k < 5 ==> PlainLine(FixedLines()[k]) && RequestLines(size)[k] == FixedLines()[k];
  }

  /** Reading name and then length from a request gives the name and what atoi makes of the printed
      size, and leaves the body bytes. */
  lemma RequestReadBack(name: string, size: nat, body: string)
    requires CallName(name) && |Decimal(size)| <= 63
    ensures var (uri, rest) := ReadUri(RequestBytes(name, size, body));
            uri == Some(name) && ReadHttpContentLength(rest) == (Atoi(Decimal(size)), body)
  {
    UriRead(name, '/', Joined(RequestLines(size)) + "\r\n" + body);
    RequestLinesAreLines(size);
    ReadsWholeBlock(RequestLines(size), body);
    RequestLengthParsed(size);
  }

  /** The length that atoi makes of a printed size: the low 32 bits, and all ones beyond a long. */
  lemma PrintedLength(size: nat)
    ensures Atoi(Decimal(size)) == size <==> size <= INT_MAX
    ensures Atoi(Decimal(size)) == -1 <==> size % 0x1_0000_0000 == 0xFFFF_FFFF || size >= LONG_MAX
    ensures size <= LONG_MAX ==> (size - Atoi(Decimal(size))) % 0x1_0000_0000 == 0
  {
    DecimalValue(size);
    LowIntWraps(size);
    LongToIntIs(size);
  }

  lemma LongToIntIs(n: nat)
    ensures LongToInt(n) == n <==> n <= INT_MAX
    ensures LongToInt(n) == -1 <==> n % 0x1_0000_0000 == 0xFFFF_FFFF || n >= LONG_MAX
  {
    assert LONG_MAX % 0x1_0000_0000 == 0xFFFF_FFFF;
  }
}
