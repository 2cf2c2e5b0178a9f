/** What the readers take from a stream, byte by byte. */
module HttpReadingProperties {
  import opened Base
  import opened HttpReading
  import opened HttpFraming

  lemma OccursInPrefix(s: string, k: nat, what: string, i: nat)
    requires k <= |s|
    ensures OccursAt(s[..k], what, i) ==> OccursAt(s, what, i)
  {
    if i + |what| <= k {
      assert s[..k][i..i + |what|] == s[i..i + |what|];
    }
  }

  /** A text that never comes is looked for until the end. */
  lemma NeverRead(s: string, what: string)
    requires NUL !in s && Strstr(s, what).None?
    ensures ReadUntil(s, what) == (None, [])
  {
    forall k | 1 <= k <= |s| ensures !Seen(s, what, k) {
      CStringWhole(s[..k]);
      forall i: nat ensures !OccursAt(s[..k], what, i) {
        OccursInPrefix(s, k, what, i);
      }
    }
  }

  // ---------- The status ----------

  lemma StatusBehindSpace(code: string, rest: string)
    requires |code| == 3
    ensures ReadHttpStatus("HTTP/1.1" + (" " + code + rest)) == (if IsStatusCode(code) then Atoi(code) else 404, rest)
  {
    var pending := " " + code + rest;
    PrefixRead("HTTP/1.1", pending);
    assert pending[1..4] == code && pending[4..] == rest;
  }

  lemma StatusWithoutSpace(c: char, rest: string)
    requires c != ' '
    ensures ReadHttpStatus("HTTP/1.1" + ([c] + rest)) == (404, rest)
  {
    PrefixRead("HTTP/1.1", [c] + rest);
    assert ([c] + rest)[1..] == rest;
  }

  lemma ThreeDigitValue(a: char, b: char, c: char)
    requires IsDigit(a) && IsDigit(b) && IsDigit(c)
    ensures Atoi([a, b, c]) == 100 * (a as int - '0' as int) + 10 * (b as int - '0' as int) + (c as int - '0' as int)
  {
    var code := [a, b, c];
    assert code[..2] == [a, b] && [a, b][..1] == [a] && [a][..0] == [];
    assert DigitsValue([a]) == DigitValue(a);
    assert DigitsValue([a, b]) == 10 * DigitsValue([a]) + DigitValue(b);
  }

  /** Behind the protocol and a space the next three bytes are the status, if they are a digit from 1
      to 5 and two digits, and 404 stands for anything else. */
  lemma StatusTable(a: char, b: char, c: char, rest: string)
    ensures ReadHttpStatus("HTTP/1.1" + (" " + [a, b, c] + rest))
            == (if '1' <= a <= '5' && '0' <= b <= '9' && '0' <= c <= '9'
                then 100 * (a as int - '0' as int) + 10 * (b as int - '0' as int) + (c as int - '0' as int) else 404, rest)
  {
    StatusBehindSpace([a, b, c], rest);
    if IsStatusCode([a, b, c]) { ThreeDigitValue(a, b, c); }
  }

  // ---------- The name ----------

  predicate Letter(c: char) {
    'A' <= c <= 'Z' || 'a' <= c <= 'z'
  }

  /** Names of calls: letters that fit the buffer of the reader. */
  predicate CallName(name: string) {
    |name| < 32 && forall i :: 0 <= i < |name| ==> Letter(name[i])
  }

  /** The name is read up to the first byte that is no letter, which is consumed. */
  lemma UriRead(name: string, stop: char, rest: string)
    requires CallName(name) && !Letter(stop)
    ensures ReadUri("POST /" + (name + [stop] + rest)) == (Some(name), rest)
  {
    var pending := name + [stop] + rest;
    PrefixRead("POST /", pending);
    assert pending[|name|] == stop;
    assert forall i :: 0 <= i < |name| ==> pending[i] == name[i];
    PrefixOfIs(pending, IsAlpha, MAX_MPI_URI_LENGTH, |name|);
    assert pending[..|name|] == name && pending[|name| + 1..] == rest;
  }

  /** Of a longer one 32 letters are read. */
  lemma UriCut(letters: string, rest: string)
    requires |letters| == 32 && forall i :: 0 <= i < 32 ==> Letter(letters[i])
    ensures ReadUri("POST /" + (letters + rest)) == (Some(letters), rest)
  {
    var pending := letters + rest;
    PrefixRead("POST /", pending);
    assert forall i :: 0 <= i < 32 ==> pending[i] == letters[i];
    PrefixOfIs(pending, IsAlpha, MAX_MPI_URI_LENGTH, 32);
    assert pending[..32] == letters && pending[32..] == rest;
  }

  /** There is none without "POST /". */
  lemma UriMissing(s: string)
    requires NUL !in s && Strstr(s, "POST /").None?
    ensures ReadUri(s) == (None, [])
  {
    NeverRead(s, "POST /");
  }

  // ---------- The length ----------

  /** The length is the number right behind the label, up to the first byte that is no digit, or 0 if
      there is no digit. */
  lemma LengthOfDigits(p: string, digits: string, rest: string)
    requires 'L' !in p && NUL !in p && NUL !in rest && |digits| <= 63
    requires forall i :: 0 <= i < |digits| ==> '0' <= digits[i] <= '9'
    requires rest != [] && !('0' <= rest[0] <= '9')
    ensures ContentLengthIn(p + CONTENT_LENGTH + (digits + rest)) == if digits == "" then 0 else Atoi(digits)
  {
    var tail := digits + rest;
    var h := p + CONTENT_LENGTH + tail;
    assert NUL !in CONTENT_LENGTH && NUL !in digits;
    assert NUL !in h;
    CStringWhole(h);
    LabelFoundFirst(p, tail);
    assert h[|p| + 16..] == tail && tail[|digits|] == rest[0];
    assert forall i :: 0 <= i < |digits| ==> tail[i] == digits[i];
    PrefixOfIs(tail, IsDigit, 63, |digits|);
    assert tail[..|digits|] == digits;
  }

  /** Without the label it is 0. */
  lemma LengthMissing(header: string)
    requires NUL !in header && Strstr(header, "Content-Length: ").None?
    ensures ContentLengthIn(header) == 0
  {
    CStringWhole(header);
  }
}
