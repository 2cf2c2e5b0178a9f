/** The byte-at-a-time readers that both ends of the MPI socket use, over a socket whose pending
    bytes are `rest`. A character stands for one byte. */
module HttpReading {
  import opened Base

  const MAX_MPI_URI_LENGTH := 32
  const NUL: char := '\0'

  // ---------- C strings ----------

  /** The part of a buffer in front of its first NUL, which is all strstr and strlen see. */
  function CString(s: string): (r: string)
    ensures |r| <= |s| && r == s[..|r|] && NUL !in r
    ensures |r| < |s| ==> s[|r|] == NUL
  {
    if s == [] || s[0] == NUL then [] else [s[0]] + CString(s[1..])
  }

  lemma CStringWhole(s: string)
    requires NUL !in s
    ensures CString(s) == s
  {
  }

  predicate OccursAt(s: string, what: string, i: nat) {
    i + |what| <= |s| && s[i..i + |what|] == what
  }

  /** strstr: the first index at which `what` occurs. */
  function Strstr(s: string, what: string): (r: Option<nat>)
    ensures r.None? ==> forall i: nat :: !OccursAt(s, what, i)
    ensures r.Some? ==> OccursAt(s, what, r.value) && forall i: nat :: i < r.value ==> !OccursAt(s, what, i)
  {
    StrstrFrom(s, what, 0)
  }

  function StrstrFrom(s: string, what: string, from: nat): (r: Option<nat>)
    requires from <= |s|
    requires forall i: nat :: i < from ==> !OccursAt(s, what, i)
    ensures r.None? ==> forall i: nat :: !OccursAt(s, what, i)
    ensures r.Some? ==> OccursAt(s, what, r.value) && forall i: nat :: i < r.value ==> !OccursAt(s, what, i)
    decreases |s| - from
  {
    if OccursAt(s, what, from) then Some(from)
    else if from == |s| then None
    else StrstrFrom(s, what, from + 1)
  }

  predicate IsDigit(c: char) { '0' <= c <= '9' }
  predicate IsAlpha(c: char) { 'a' <= c <= 'z' || 'A' <= c <= 'Z' }

  function DigitValue(c: char): (d: nat)
    requires IsDigit(c)
    ensures d < 10
  {
    c as int - '0' as int
  }

  /** The value of a string of digits. */
  function DigitsValue(s: string): (n: nat)
    requires forall i :: 0 <= i < |s| ==> IsDigit(s[i])
  {
    if s == [] then 0 else 10 * DigitsValue(s[..|s| - 1]) + DigitValue(s[|s| - 1])
  }

  /** atoi on digits: glibc saturates at the largest long and keeps the low 32 bits. */
  function Atoi(s: string): (n: Int)
    requires forall i :: 0 <= i < |s| ==> IsDigit(s[i])
  {
    LongToInt(DigitsValue(s))
  }

  const LONG_MAX := 0x7FFF_FFFF_FFFF_FFFF

  function LongToInt(n: nat): Int {
    LowInt(if n > LONG_MAX then LONG_MAX else n)
  }

  /** The longest prefix of at most `limit` characters that all satisfy a test. */
  function PrefixOf(s: string, test: char -> bool, limit: nat): (r: string)
    ensures |r| <= limit && |r| <= |s| && r == s[..|r|]
    ensures forall i :: 0 <= i < |r| ==> test(s[i])
    ensures |r| < limit && |r| < |s| ==> !test(s[|r|])
  {
    if s == [] || limit == 0 || !test(s[0]) then [] else [s[0]] + PrefixOf(s[1..], test, limit - 1)
  }

  /** The longest such prefix is unique. */
  lemma PrefixOfIs(s: string, test: char -> bool, limit: nat, n: nat)
    requires n <= limit && n <= |s|
    requires forall i :: 0 <= i < n ==> test(s[i])
    requires n < limit && n < |s| ==> !test(s[n])
    ensures PrefixOf(s, test, limit) == s[..n]
  {
  }

  // ---------- What each reader returns and leaves unread ----------

  /** After k bytes the text has been seen. */
  predicate Seen(s: string, what: string, k: nat)
    requires k <= |s|
  {
    Strstr(CString(s[..k]), what).Some?
  }

  /** The least number of bytes, at least one, after which the text has been seen. */
  function FirstSeen(s: string, what: string, from: nat): (r: Option<nat>)
    requires 1 <= from
    ensures r.Some? ==> from <= r.value <= |s| && Seen(s, what, r.value) && forall k :: from <= k < r.value ==> !Seen(s, what, k)
    ensures r.None? ==> forall k :: from <= k <= |s| ==> !Seen(s, what, k)
    decreases |s| - from
  {
    if from > |s| then None else if Seen(s, what, from) then Some(from) else FirstSeen(s, what, from + 1)
  }

  /** ReadUntilStringFound: consumes everything when the text never comes. */
  function ReadUntil(s: string, what: string): (r: (Option<string>, string)) {
    match FirstSeen(s, what, 1)
    case None => (None, [])
    case Some(k) => (Some(s[..k]), s[k..])
  }

  function ReadUri(s: string): (r: (Option<string>, string)) {
    var (found, rest) := ReadUntil(s, "POST /");
    if found.None? then (None, rest)
    else
      var uri := PrefixOf(rest, IsAlpha, MAX_MPI_URI_LENGTH);
      var used := if |uri| < MAX_MPI_URI_LENGTH && |uri| < |rest| then |uri| + 1 else |uri|;
      (Some(uri), rest[used..])
  }

  predicate IsStatusCode(s: string) {
    |s| == 3 && '1' <= s[0] <= '5' && IsDigit(s[1]) && IsDigit(s[2])
  }

  function ReadHttpStatus(s: string): (r: (Int, string)) {
    var (found, rest) := ReadUntil(s, "HTTP/1.1");
    if found.None? || rest == [] then (404, rest)
    else if rest[0] != ' ' then (404, rest[1..])
    else
      var code := if |rest| < 4 then rest[1..] else rest[1..4];
      (if IsStatusCode(code) then Atoi(code) else 404, rest[1 + |code|..])
  }

  /** The value of the Content-Length field in a header block, 0 if there is none. */
  function ContentLengthIn(header: string): Int {
    match Strstr(CString(header), "Content-Length: ")
    case None => 0
    case Some(i) =>
      var digits := PrefixOf(CString(header)[i + 16..], IsDigit, 63);
      if digits == [] then 0 else Atoi(digits)
  }

  function ReadHttpContentLength(s: string): (r: (Int, string)) {
    var (header, rest) := ReadUntil(s, "\r\n\r\n");
    (if header.None? then 0 else ContentLengthIn(header.value), rest)
  }

  // ---------- The readers ----------

  class Socket {
    var rest: string

    constructor (bytes: string)
      ensures rest == bytes
    {
      rest := bytes;
    }

    /** read(socket, buffer, n): fewer bytes only when no more are pending. */
    method Read(n: nat) returns (bytes: string)
      modifies this
      ensures bytes == old(rest)[..if n < |old(rest)| then n else |old(rest)|]
      ensures rest == old(rest)[|bytes|..]
    {
      bytes := if n < |rest| then rest[..n] else rest;
      rest := rest[|bytes|..];
    }

    method ReadUntilStringFound(what: string) returns (buffer: Option<string>)
      modifies this
      ensures (buffer, rest) == ReadUntil(old(rest), what)
    {
      var input := rest;
      var text: string := [];
      while true
        invariant |text| <= |input| && text == input[..|text|] && rest == input[|text|..]
        invariant forall k :: 1 <= k <= |text| ==> !Seen(input, what, k)
        decreases |rest|
      {
        var byte := Read(1);
        if |byte| != 1 {
          return None;
        }
        text := text + byte;
        assert text == input[..|text|];
        if Strstr(CString(text), what).Some? {
          assert Seen(input, what, |text|);
          return Some(text);
        }
      }
    }

    method ReadUriFromSocket() returns (uri: Option<string>)
      modifies this
      ensures (uri, rest) == ReadUri(old(rest))
    {
      var found := ReadUntilStringFound("POST /");
      if found.None? {
        return None;
      }
      var pending := rest;
      var text: string := [];
      var i := 0;
      while i < MAX_MPI_URI_LENGTH
        invariant 0 <= i <= MAX_MPI_URI_LENGTH && |text| <= |pending| && text == pending[..|text|]
        invariant rest == pending[|text|..] && (i == |text| || rest == [])
        invariant |text| <= i && forall k :: 0 <= k < |text| ==> IsAlpha(pending[k])
      {
        var byte := Read(1);
        if |byte| == 1 {
          if !IsAlpha(byte[0]) {
            break;
          }
          text := text + byte;
        }
        i := i + 1;
      }
      PrefixOfIs(pending, IsAlpha, MAX_MPI_URI_LENGTH, |text|);
      uri := Some(text);
    }

    method ReadHttpStatusFromSocket() returns (status: Int)
      modifies this
      ensures (status, rest) == ReadHttpStatus(old(rest))
    {
      status := 404;
      var found := ReadUntilStringFound("HTTP/1.1");
      if found.None? {
        return;
      }
      ghost var pending := rest;
      var space := Read(1);
      if |space| == 1 && space[0] == ' ' {
        var code := Read(3);
        assert code == if |pending| < 4 then pending[1..] else pending[1..4];
        assert rest == pending[1 + |code|..];
        if IsStatusCode(code) {
          status := Atoi(code);
        }
      }
    }

    method ReadHttpContentLengthFromSocket() returns (length: Int)
      modifies this
      ensures (length, rest) == ReadHttpContentLength(old(rest))
    {
      length := 0;
      var buffer := ReadUntilStringFound("\r\n\r\n");
      if buffer.None? {
        return;
      }
      var at := Strstr(CString(buffer.value), "Content-Length: ");
      if at.Some? {
        var digits := IsolateDigits(CString(buffer.value)[at.value + 16..]);
        if digits != [] {
          length := Atoi(digits);
        }
      }
    }

    /** Copies up to 63 digits. */
    method IsolateDigits(field: string) returns (digits: string)
      ensures digits == PrefixOf(field, IsDigit, 63)
    {
      var i := 0;
      while i < 63 && i < |field| && IsDigit(field[i])
        invariant 0 <= i <= 63 && i <= |field|
        invariant forall k :: 0 <= k < i ==> IsDigit(field[k])
      {
        i := i + 1;
      }
      PrefixOfIs(field, IsDigit, 63, i);
      digits := field[..i];
    }
  }
}
