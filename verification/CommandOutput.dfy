/** The parent side of ExecuteCommand: a loop that polls a pipe, honours a timeout and a callback,
    and collects the child's output in a buffer that grows with every read. */
module CommandOutput {
  import opened Base

  type Byte = b: int | 0 <= b < 256

  const EOL: Byte := 10
  const TAB: Byte := 9
  const SPACE: Byte := 32
  const BUFFER_SIZE := 1024
  const UINT_MAX := 0xFFFF_FFFF
  const ETIME := 62
  const ECANCELED := 125
  const DEFAULT_COMMAND_TIMEOUT := 60
  const CALLBACK_INTERVAL := 5

  /** The arguments of a call. `charIsSigned` says how the compiler treats plain char; `wantText` is
      false when the caller passes no place for the output. */
  datatype Options = Options(
    replaceEol: bool, forJson: bool, maxBytes: nat, timeoutSeconds: nat, hasCallback: bool, wantText: bool,
    charIsSigned: bool, startTime: int)

  datatype ReadResult = Eof | Chunk(bytes: seq<Byte>) | ReadInterrupted | ReadFailed(error: int)

  /** What one pass of the loop meets: the outcome of select, the clock, what the callback would
      answer, and, when the pipe is ready, the outcome of read. */
  datatype Poll =
    | SelectInterrupted
    | SelectFailed(error: int)
    | ClockFailed(error: int)
    | Idle(time: int, cancel: bool)
    | Ready(time: int, cancel: bool, result: ReadResult)

  /** A read returns 1 to 1024 bytes. */
  predicate Possible(p: Poll) {
    p.Ready? && p.result.Chunk? ==> 1 <= |p.result.bytes| <= BUFFER_SIZE
  }

  // ---------- Specification ----------

  function Char(o: Options, b: Byte): int {
    if o.charIsSigned && b >= 128 then b - 256 else b
  }

  predicate Replaced(o: Options, b: Byte) {
    || (o.replaceEol && b == EOL)
    || (Char(o, b) < 0x20 && b != EOL)
    || b == 0x7F
    || (o.forJson && (b == '"' as int || b == TAB || b == '\\' as int))
  }

  function Sanitize(o: Options, b: Byte): Byte {
    if Replaced(o, b) then SPACE else b
  }

  function SanitizeAll(o: Options, s: seq<Byte>): (r: seq<Byte>)
    ensures |r| == |s|
  {
    seq(|s|, i requires 0 <= i < |s| => Sanitize(o, s[i]))
  }

  /** The part of the output that a caller who allows maxBytes gets, leaving room for the NUL. */
  function Kept(o: Options, data: seq<Byte>): seq<Byte> {
    if o.maxBytes > 0 && |data| > o.maxBytes - 1 then data[..o.maxBytes - 1] else data
  }

  function Timeout(o: Options): nat {
    if o.hasCallback && o.timeoutSeconds == 0 then DEFAULT_COMMAND_TIMEOUT else o.timeoutSeconds
  }

  predicate TimedOut(o: Options, time: int) {
    Timeout(o) > 0 && time - o.startTime >= Timeout(o)
  }

  predicate CallbackDue(o: Options, time: int, last: int) {
    o.hasCallback && time - last >= CALLBACK_INTERVAL
  }

  /** What one pass does: it ends the run with a status, or the run goes on with the time at which the
      callback was last asked and the bytes read, if any. */
  datatype Pass = Ends(status: int) | GoesOn(last: int, bytes: seq<Byte>)

  function PassOf(o: Options, p: Poll, last: int): Pass {
    match p
    case SelectInterrupted => GoesOn(last, [])
    case SelectFailed(e) => Ends(e)
    case ClockFailed(e) => Ends(e)
    case Idle(time, cancel) => PassAt(o, time, cancel, last, ReadInterrupted)
    case Ready(time, cancel, result) => PassAt(o, time, cancel, last, result)
  }

  /** A pass from the time test on; an idle one reads nothing, like an interrupted one. */
  function PassAt(o: Options, time: int, cancel: bool, last: int, result: ReadResult): Pass {
    if TimedOut(o, time) then Ends(ETIME)
    else if CallbackDue(o, time, last) && cancel then Ends(ECANCELED)
    else
      var last' := if CallbackDue(o, time, last) then time else last;
      match result
      case Eof => Ends(0)
      case ReadInterrupted => GoesOn(last', [])
      case ReadFailed(e) => Ends(e)
      case Chunk(bytes) => GoesOn(last', bytes)
  }

  /** How a run ends, None while it is still going, and everything it has read. */
  datatype Scanned = Scanned(status: Option<int>, data: seq<Byte>)

  /** The control flow of the loop without the buffer. */
  function Scan(o: Options, polls: seq<Poll>, last: int, data: seq<Byte>): Scanned {
    if polls == [] then Scanned(None, data)
    else
      match PassOf(o, polls[0], last)
      case Ends(status) => Scanned(Some(status), data)
      case GoesOn(last', bytes) => Scan(o, polls[1..], last', data + bytes)
  }

  function Unsigned(n: nat): nat {
    n % (UINT_MAX + 1)
  }

  /** The new output size, computed as the source does on unsigned ints. */
  function GrownSize(o: Options, pos: nat, n: nat): nat {
    var size := Unsigned(n + pos);
    if o.maxBytes > 0 && size > o.maxBytes - 1 then o.maxBytes - 1 else size
  }

  /** The size with unbounded numbers. */
  function WantedSize(o: Options, pos: nat, n: nat): nat {
    if o.maxBytes > 0 && n + pos > o.maxBytes - 1 then o.maxBytes - 1 else n + pos
  }

  /** The unsigned computation gives a block of the wanted size and its terminator. */
  predicate Counted(o: Options, pos: nat, n: nat) {
    GrownSize(o, pos, n) == WantedSize(o, pos, n) && Unsigned(GrownSize(o, pos, n) + 1) == WantedSize(o, pos, n) + 1
  }

  /** That is so iff the new position, and without a limit also the terminator, can be counted. */
  lemma CountedIff(o: Options, pos: nat, n: nat)
    requires o.maxBytes <= UINT_MAX && pos <= UINT_MAX && 1 <= n <= BUFFER_SIZE
    requires o.maxBytes > 0 ==> pos <= o.maxBytes - 1
    ensures Counted(o, pos, n) <==> n + pos < UINT_MAX || (o.maxBytes > 0 && n + pos == UINT_MAX)
  {
  }

  /** Some read of the run makes the unsigned position wrap around. */
  predicate Wraps(o: Options, polls: seq<Poll>, last: int, data: seq<Byte>) {
    if polls == [] then false
    else
      match PassOf(o, polls[0], last)
      case Ends(_) => false
      case GoesOn(last', bytes) =>
        (o.wantText && bytes != [] && !Counted(o, |Kept(o, data)|, |bytes|)) || Wraps(o, polls[1..], last', data + bytes)
  }

  /** Cutting after each chunk is cutting once at the end. */
  lemma KeptGrows(o: Options, data: seq<Byte>, bytes: seq<Byte>, size: nat)
    requires size == WantedSize(o, |Kept(o, data)|, |bytes|)
    ensures |Kept(o, data)| <= size <= |Kept(o, data)| + |bytes|
    ensures size == |Kept(o, data + bytes)|
    ensures SanitizeAll(o, Kept(o, data + bytes))
            == SanitizeAll(o, Kept(o, data)) + SanitizeAll(o, bytes[..size - |Kept(o, data)|])
  {
  }

  // ---------- Implementation ----------

  /** The buffer behind *textResult and the write position. */
  class Buffer {
    var text: array?<Byte>
    var pos: nat

    constructor ()
      ensures text == null && pos == 0
    {
      text, pos := null, 0;
    }

    /** realloc: a block of the new size that starts with what the old one held. */
    method Realloc(size: nat)
      requires text != null ==> pos <= text.Length
      requires text == null ==> pos == 0
      requires pos <= size
      modifies this`text
      ensures text != null && fresh(text) && text.Length == size
      ensures text[..pos] == if old(text) == null then [] else old(text[..pos])
    {
      var block := new Byte[size](_ => 0);
      if text != null {
        var was := text;
        for i := 0 to pos
          invariant block[..i] == was[..i]
        {
          block[i] := was[i];
        }
      }
      text := block;
    }

    /** One chunk: work out the new size in unsigned arithmetic, grow the buffer, copy with
        replacement until the chunk or the space is used up. */
    method Append(o: Options, bytes: seq<Byte>, ghost data: seq<Byte>)
      requires 1 <= |bytes| <= BUFFER_SIZE && Counted(o, |Kept(o, data)|, |bytes|)
      requires pos == |Kept(o, data)|
      requires text == null ==> pos == 0
      requires text != null ==> text.Length == pos + 1 && text[..pos] == SanitizeAll(o, Kept(o, data))
      modifies this, text
      ensures pos == |Kept(o, data + bytes)|
      ensures text != null && fresh(text) && text.Length == pos + 1
      ensures text[..pos] == SanitizeAll(o, Kept(o, data + bytes))
    {
      var size := GrownSize(o, pos, |bytes|);
      KeptGrows(o, data, bytes, size);
      Realloc(Unsigned(size + 1));
      Copy(o, bytes, size);
    }

    /** Copies with replacement from the current position on. */
    method Copy(o: Options, bytes: seq<Byte>, size: nat)
      requires text != null && text.Length == size + 1
      requires pos <= size <= pos + |bytes|
      modifies this`pos, text
      ensures pos == size
      ensures text[..pos] == old(text[..pos]) + SanitizeAll(o, bytes[..size - old(pos)])
    {
      var i := 0;
      while i < |bytes| && pos < size
        invariant 0 <= i <= |bytes| && pos <= size && pos == old(pos) + i
        invariant text[..pos] == old(text[..pos]) + SanitizeAll(o, bytes[..i])
      {
        text[pos] := Sanitize(o, bytes[i]);
        assert SanitizeAll(o, bytes[..i + 1]) == SanitizeAll(o, bytes[..i]) + [Sanitize(o, bytes[i])];
        i, pos := i + 1, pos + 1;
      }
    }
  }

  /** The read loop. The result is the buffer with its terminating NUL, or null when nothing was
      read or nothing was wanted. When a read makes the unsigned position wrap around, the source goes
      on with a block that is too small; here the loop stops and says so in `wrapped`. */
  method Collect(o: Options, polls: seq<Poll>) returns (wrapped: bool, status: Option<int>, text: array?<Byte>)
    requires o.maxBytes <= UINT_MAX
    requires forall i :: 0 <= i < |polls| ==> Possible(polls[i])
    ensures wrapped <==> Wraps(o, polls, 0, [])
    ensures !wrapped ==>
              var (end, data) := (Scan(o, polls, 0, []).status, Scan(o, polls, 0, []).data);
              && status == end
              && (text == null <==> !o.wantText || data == [])
              && (text != null ==> text[..] == SanitizeAll(o, Kept(o, data)) + [0])
  {
    var buffer := new Buffer();
    var last := 0;
    ghost var data: seq<Byte> := [];
    wrapped, status := false, None;
    var i := 0;
    while i < |polls|
      invariant 0 <= i <= |polls|
      invariant Scan(o, polls, 0, []) == Scan(o, polls[i..], last, data)
      invariant Wraps(o, polls, 0, []) <==> Wraps(o, polls[i..], last, data)
      invariant buffer.pos == if o.wantText then |Kept(o, data)| else 0
      invariant buffer.text == null <==> !o.wantText || data == []
      invariant buffer.text != null ==> fresh(buffer.text) && buffer.text.Length == buffer.pos + 1
      invariant buffer.text != null ==> buffer.text[..buffer.pos] == SanitizeAll(o, Kept(o, data))
    {
      var p := polls[i];
      assert data + [] == data && polls[i..][1..] == polls[i + 1..];
      i := i + 1;
      if p.SelectInterrupted? {
        continue;
      }
      if p.SelectFailed? || p.ClockFailed? {
        status := Some(p.error);
        break;
      }
      if TimedOut(o, p.time) {
        status := Some(ETIME);
        break;
      }
      if CallbackDue(o, p.time, last) {
        if p.cancel {
          status := Some(ECANCELED);
          break;
        }
        last := p.time;
      }
      if p.Idle? || p.result.ReadInterrupted? {
        continue;
      }
      if p.result.Eof? {
        status := Some(0);
        break;
      }
      if p.result.ReadFailed? {
        status := Some(p.result.error);
        break;
      }
      if (o.maxBytes > 0 && buffer.pos == o.maxBytes) || !o.wantText {
        data := data + p.result.bytes;
        continue;
      }
      if !Counted(o, buffer.pos, |p.result.bytes|) {
        return true, None, null;
      }
      buffer.Append(o, p.result.bytes, data);
      data := data + p.result.bytes;
    }
    text := buffer.text;
    if text != null {
      text[buffer.pos] := 0;
    }
  }

  // ---------- When the position wraps ----------

  lemma {:induction false} ScanGrows(o: Options, polls: seq<Poll>, last: int, data: seq<Byte>)
    ensures |data| <= |Scan(o, polls, last, data).data|
  {
    if polls != [] {
      match PassOf(o, polls[0], last) {
        case Ends(_) =>
        case GoesOn(last', bytes) => ScanGrows(o, polls[1..], last', data + bytes);
      }
    }
  }

  /** Without a limit a run wraps iff its output reaches the largest unsigned int. With a limit that
      leaves room for one more read it never does, nor when no text is wanted. */
  lemma {:induction false} WrapsIff(o: Options, polls: seq<Poll>, last: int, data: seq<Byte>)
    requires o.maxBytes <= UINT_MAX && forall i :: 0 <= i < |polls| ==> Possible(polls[i])
    requires o.wantText && o.maxBytes == 0 ==> |data| < UINT_MAX
    ensures !o.wantText || 0 < o.maxBytes <= UINT_MAX - BUFFER_SIZE + 1 ==> !Wraps(o, polls, last, data)
    ensures o.wantText && o.maxBytes == 0 ==> (Wraps(o, polls, last, data) <==> |Scan(o, polls, last, data).data| >= UINT_MAX)
  {
    if polls != [] {
      assert Possible(polls[0]);
      match PassOf(o, polls[0], last) {
        case Ends(_) =>
        case GoesOn(last', bytes) =>
          if o.wantText && bytes != [] { CountedIff(o, |Kept(o, data)|, |bytes|); }
          ScanGrows(o, polls[1..], last', data + bytes);
          if !o.wantText || o.maxBytes > 0 || |data + bytes| < UINT_MAX { WrapsIff(o, polls[1..], last', data + bytes); }
      }
    }
  }

  /** A position one short of the largest unsigned int, and a read of one byte: the computed size is
      one too large for its terminator, and with one byte more it is 0. */
  lemma PositionWraps(o: Options)
    requires o.maxBytes == 0
    ensures !Counted(o, UINT_MAX - 1, 1) && Unsigned(GrownSize(o, UINT_MAX - 1, 1) + 1) == 0
    ensures !Counted(o, UINT_MAX - 1, 2) && GrownSize(o, UINT_MAX - 1, 2) == 0
  {
  }

  // ---------- Independence of chunking ----------

  /** Everything the child wrote, in order. */
  function Output(polls: seq<Poll>): seq<Byte> {
    if polls == [] then []
    else (if polls[0].Ready? && polls[0].result.Chunk? then polls[0].result.bytes else []) + Output(polls[1..])
  }

  /** A pass that neither fails nor is cut short by the timeout or the callback. */
  predicate Smooth(o: Options, p: Poll) {
    match p
    case SelectInterrupted => true
    case SelectFailed(_) => false
    case ClockFailed(_) => false
    case Idle(time, cancel) => !TimedOut(o, time) && !(o.hasCallback && cancel)
    case Ready(time, cancel, result) =>
      !TimedOut(o, time) && !(o.hasCallback && cancel) && !result.ReadFailed?
  }

  predicate EndsAtEof(o: Options, polls: seq<Poll>) {
    && polls != [] && polls[|polls| - 1].Ready? && polls[|polls| - 1].result.Eof?
    && (forall i :: 0 <= i < |polls| ==> Smooth(o, polls[i]))
    && (forall i :: 0 <= i < |polls| - 1 ==> !(polls[i].Ready? && polls[i].result.Eof?))
  }

  /** However reads, idle polls and interruptions are interleaved, a run to the end of the output
      succeeds and has read exactly the output. */
  lemma {:induction false} ScanReadsOutput(o: Options, polls: seq<Poll>, last: int, data: seq<Byte>)
    requires EndsAtEof(o, polls)
    ensures Scan(o, polls, last, data) == Scanned(Some(0), data + Output(polls))
  {
    var p, rest := polls[0], polls[1..];
    assert Smooth(o, p);
    if |polls| == 1 {
      assert Output(rest) == [];
    } else {
      assert EndsAtEof(o, rest);
      var pass := PassOf(o, p, last);
      assert pass.GoesOn? && Output(polls) == pass.bytes + Output(rest);
      ScanReadsOutput(o, rest, pass.last, data + pass.bytes);
      assert data + pass.bytes + Output(rest) == data + (pass.bytes + Output(rest));
    }
  }

  /** When the callback was last asked, after passes that did not end the run. */
  function LastAsked(o: Options, polls: seq<Poll>, last: int): int {
    if polls == [] then last
    else
      match PassOf(o, polls[0], last)
      case Ends(_) => last
      case GoesOn(last', _) => LastAsked(o, polls[1..], last')
  }

  /** A run ends at the first pass that ends it, with the status of that pass and what was read
      before it; later passes do not matter. */
  lemma {:induction false} ScanStops(o: Options, before: seq<Poll>, p: Poll, after: seq<Poll>, last: int, data: seq<Byte>)
    requires forall i :: 0 <= i < |before| ==> PassOf(o, before[i], LastAsked(o, before[..i], last)).GoesOn?
    requires PassOf(o, p, LastAsked(o, before, last)).Ends?
    ensures Scan(o, before + [p] + after, last, data)
            == Scanned(Some(PassOf(o, p, LastAsked(o, before, last)).status), data + Output(before))
  {
    var polls := before + [p] + after;
    if before == [] {
      assert polls[0] == p && data + Output(before) == data;
    } else {
      var q, rest := before[0], before[1..];
      assert before[..0] == [];
      assert polls[0] == q && polls[1..] == rest + [p] + after;
      var pass := PassOf(o, q, last);
      assert pass.GoesOn? && Output(before) == pass.bytes + Output(rest);
      forall i | 0 <= i < |rest| ensures PassOf(o, rest[i], LastAsked(o, rest[..i], pass.last)).GoesOn? {
        assert before[..i + 1][0] == q && before[..i + 1][1..] == rest[..i];
        assert before[i + 1] == rest[i];
      }
      ScanStops(o, rest, p, after, pass.last, data + pass.bytes);
      assert data + pass.bytes + Output(rest) == data + (pass.bytes + Output(rest));
    }
  }

  /** Two runs over the same output give the caller the same status and text, whatever the chunks. If
      there is no limit, or one that leaves room for one more read, they also both wrap or both do not. */
  lemma ChunkingDoesNotMatter(o: Options, a: seq<Poll>, b: seq<Poll>)
    requires EndsAtEof(o, a) && EndsAtEof(o, b) && Output(a) == Output(b)
    requires o.maxBytes <= UINT_MAX
    requires (forall i :: 0 <= i < |a| ==> Possible(a[i])) && (forall i :: 0 <= i < |b| ==> Possible(b[i]))
    ensures Scan(o, a, 0, []) == Scan(o, b, 0, []) == Scanned(Some(0), Output(a))
    ensures o.maxBytes <= UINT_MAX - BUFFER_SIZE + 1 ==>
              (Wraps(o, a, 0, []) <==> Wraps(o, b, 0, [])) && (Wraps(o, a, 0, []) <==> o.wantText && o.maxBytes == 0 && |Output(a)| >= UINT_MAX)
  {
    ScanReadsOutput(o, a, 0, []);
    ScanReadsOutput(o, b, 0, []);
    assert [] + Output(a) == Output(a);
    WrapsIff(o, a, 0, []);
    WrapsIff(o, b, 0, []);
  }

  // ---------- What the caller can rely on ----------

  /** The characters that section 7 of RFC 8259 does not allow unescaped in a string. */
  predicate NeedsEscape(b: Byte) {
    b < 0x20 || b == '"' as int || b == '\\' as int
  }

  /** What the caller finds for byte i of the kept output: printable ASCII other than the quote and the
      backslash is kept under all options, those two iff the text is not for JSON, a line feed iff ends
      of lines are not replaced, bytes from 128 on iff plain char is unsigned, and a space stands for
      everything else. */
  lemma TextAt(o: Options, s: seq<Byte>, i: nat)
    requires i < |s|
    ensures var (b, t) := (s[i], SanitizeAll(o, s)[i]);
            && |SanitizeAll(o, s)| == |s|
            && (0x20 <= b <= 0x7E && b != 0x22 && b != 0x5C ==> t == b)
            && (b == 0x22 || b == 0x5C ==> t == if o.forJson then 0x20 else b)
            && (b == 0x0A ==> t == if o.replaceEol then 0x20 else 0x0A)
            && (b < 0x20 && b != 0x0A ==> t == 0x20)
            && (b == 0x7F ==> t == 0x20)
            && (b >= 0x80 ==> t == if o.charIsSigned then 0x20 else b)
  {
  }

  /** The output kept for a limit, 0 meaning none: its first maxBytes - 1 bytes, or all if there are
      fewer. */
  lemma KeptIsPrefix(o: Options, data: seq<Byte>)
    ensures Kept(o, data) <= data
    ensures |Kept(o, data)| == if o.maxBytes == 0 || |data| < o.maxBytes then |data| else o.maxBytes - 1
  {
  }

  /** What a pass that comes to the time test does. A run is timed out after the given number of
      seconds, after 60 if only a callback is given, and else never; the callback is asked when five
      seconds have passed since it was last. */
  lemma PassDecides(o: Options, time: int, cancel: bool, last: int, result: ReadResult)
    ensures var limit := if o.timeoutSeconds > 0 then o.timeoutSeconds else if o.hasCallback then 60 else 0;
            var asked := o.hasCallback && time - last >= 5;
            var now := if asked then time else last;
            && PassOf(o, Idle(time, cancel), last) == (
                 if limit > 0 && time - o.startTime >= limit then Ends(62)
                 else if asked && cancel then Ends(125)
                 else GoesOn(now, []))
            && PassOf(o, Ready(time, cancel, result), last) == (
                 if limit > 0 && time - o.startTime >= limit then Ends(62)
                 else if asked && cancel then Ends(125)
                 else match result
                      case Eof => Ends(0)
                      case Chunk(bytes) => GoesOn(now, bytes)
                      case ReadInterrupted => GoesOn(now, [])
                      case ReadFailed(error) => Ends(error))
  {
  }

  /** Nor does an interrupted select count, while a failing select or clock ends the run. */
  lemma PassBeforeTime(o: Options, last: int, error: int)
    ensures PassOf(o, SelectInterrupted, last) == GoesOn(last, [])
    ensures PassOf(o, SelectFailed(error), last) == PassOf(o, ClockFailed(error), last) == Ends(error)
  {
  }

  /** With both replacements on, the text can be put between quotes in a JSON document as it is. */
  lemma SafeForJson(o: Options, s: seq<Byte>, i: nat)
    requires o.replaceEol && o.forJson && i < |s|
    ensures !NeedsEscape(SanitizeAll(o, s)[i])
  {
  }

  /** Whatever the options, the text holds no NUL, so it ends where the terminator is, and cleaning
      it again changes nothing. */
  lemma SanitizedIsStable(o: Options, s: seq<Byte>)
    ensures 0 !in SanitizeAll(o, s)
    ensures SanitizeAll(o, SanitizeAll(o, s)) == SanitizeAll(o, s)
  {
    assert !Replaced(o, SPACE);
    forall i | 0 <= i < |s| ensures SanitizeAll(o, s)[i] != 0 {
      assert Replaced(o, 0);
    }
  }
}
