/** The JSON-lines event file shared by every logger of a data directory (buffer.go). Each method
    runs under the file lock, so it is one atomic step on the file's bytes. */
module Buffer {
  import opened Basics
  import opened Events

  newtype Byte = b: int | 0 <= b < 256

  const NEWLINE: Byte := 10
  const CARRIAGE_RETURN: Byte := 13

  /** The scanner gives up at a line that does not fit its buffer together with the line break. */
  const MAX_TOKEN: nat := 1024 * 1024

  const DEFAULT_MAX_EVENTS: nat := 1000

  /** The JSON codec. Encoding may fail; decoding rejects what is not an event. */
  datatype Codec = Codec(encode: LogEvent -> Option<seq<Byte>>, decode: seq<Byte> -> Option<LogEvent>)
  {
    /** What the model assumes of JSON, and only of lines that it wrote itself: an encoding is one line, and what is
        read back from it is settled. Reading back may fail, and it may normalize the event (nil data becomes
        empty, an int a float). */
    ghost predicate Lawful() {
      forall e :: encode(e).Some? ==>
        GoodLine(encode(e).value) && forall r | r in Stored(e) :: IsSettled(r)
    }

    predicate IsStable(e: LogEvent) {
      encode(e).Some? && decode(encode(e).value) == Some(e)
    }

    /** Written and read back, e is itself, whatever its count. */
    ghost predicate IsSettled(e: LogEvent) {
      forall n :: IsStable(e.WithCount(n))
    }

    /** What a reader will find after e was written: an event, or nothing. */
    function Stored(e: LogEvent): seq<LogEvent> {
      match encode(e)
      case None => []
      case Some(line) => match decode(line) case None => [] case Some(r) => [r]
    }

    /** The event's line fits the scanner. */
    predicate Fits(e: LogEvent) {
      encode(e).Some? ==> |encode(e).value| < MAX_TOKEN
    }

    lemma WrittenIsGood(e: LogEvent)
      requires Lawful() && encode(e).Some?
      ensures GoodLine(encode(e).value) && forall r | r in Stored(e) :: IsSettled(r)
    {
    }

    lemma SettledIsStored(e: LogEvent, n: Int64)
      requires IsSettled(e)
      ensures IsSettled(e.WithCount(n)) && Stored(e.WithCount(n)) == [e.WithCount(n)] && Stored(e) == [e]
    {
      assert IsStable(e.WithCount(n));
      assert e.WithCount(e.Count()) == e;
      forall m ensures IsStable(e.WithCount(n).WithCount(m)) {
        assert e.WithCount(n).WithCount(m) == e.WithCount(m);
      }
    }
  }

  /** The law says nothing about lines that the program never writes: the codec may read such a line as any event,
      also as one that it would not write the same way again. */
  lemma ForeignLinesDoNotMatter(c: Codec, line: seq<Byte>, r: Option<LogEvent>)
    requires c.Lawful() && forall e :: c.encode(e) != Some(line)
    ensures Codec(c.encode, (l: seq<Byte>) => if l == line then r else c.decode(l)).Lawful()
  {
    var d := Codec(c.encode, (l: seq<Byte>) => if l == line then r else c.decode(l));
    forall e | d.encode(e).Some?
      ensures GoodLine(d.encode(e).value) && forall x | x in d.Stored(e) :: d.IsSettled(x)
    {
      assert d.Stored(e) == c.Stored(e);
      forall x | x in d.Stored(e) ensures d.IsSettled(x) {
        assert c.IsSettled(x);
        forall n ensures d.IsStable(x.WithCount(n)) {
          assert c.IsStable(x.WithCount(n));
        }
      }
    }
  }

  predicate GoodLine(line: seq<Byte>) {
    line != [] && NEWLINE !in line && line[|line| - 1] != CARRIAGE_RETURN
  }

  // ---------- Scanning ----------

  /** Where the first line ends: at its line break, or at the end of the input. */
  function LineEnd(b: seq<Byte>): (n: nat)
    ensures n <= |b| && NEWLINE !in b[..n] && (n < |b| ==> b[n] == NEWLINE)
  {
    if b == [] || b[0] == NEWLINE then 0 else 1 + LineEnd(b[1..])
  }

  function DropCR(line: seq<Byte>): seq<Byte> {
    if line != [] && line[|line| - 1] == CARRIAGE_RETURN then line[..|line| - 1] else line
  }

  /** The event on a line, if there is one: blank and undecodable lines are skipped. */
  function DecodeLine(c: Codec, line: seq<Byte>): seq<LogEvent> {
    if line == [] then []
    else match c.decode(line) case None => [] case Some(e) => [e]
  }

  /** The events of a file, up to the first line that is too long. */
  function Scan(c: Codec, b: seq<Byte>): seq<LogEvent> {
    if b == [] then []
    else
      var n := LineEnd(b);
      if n >= MAX_TOKEN then []
      else DecodeLine(c, DropCR(b[..n])) + if n < |b| then Scan(c, b[n + 1..]) else []
  }

  method FindLineEnd(b: seq<Byte>) returns (n: nat)
    ensures n == LineEnd(b)
  {
    n := 0;
    while n < |b| && b[n] != NEWLINE
      invariant n <= |b| && LineEnd(b) == n + LineEnd(b[n..])
    {
      assert b[n..][1..] == b[n + 1..];
      n := n + 1;
    }
  }

  /** What follows the first line. */
  function AfterLine(b: seq<Byte>): seq<Byte> {
    if LineEnd(b) < |b| then b[LineEnd(b) + 1..] else []
  }

  lemma ScanLine(c: Codec, b: seq<Byte>, before: seq<LogEvent>)
    requires b != [] && LineEnd(b) < MAX_TOKEN
    ensures before + Scan(c, b) == before + DecodeLine(c, DropCR(b[..LineEnd(b)])) + Scan(c, AfterLine(b))
  {
    hide LineEnd, DecodeLine, DropCR;
  }

  lemma ScanStops(c: Codec, b: seq<Byte>)
    requires b == [] || LineEnd(b) >= MAX_TOKEN
    ensures Scan(c, b) == []
  {
    hide LineEnd;
  }

  method ScanEvents(c: Codec, b: seq<Byte>) returns (events: seq<LogEvent>)
    ensures events == Scan(c, b)
  {
    hide LineEnd, DropCR, Scan;
    events := [];
    var rest := b;
    assert events + Scan(c, b) == Scan(c, b);
    while rest != []
      invariant events + Scan(c, rest) == Scan(c, b)
      decreases |rest|
    {
      var n := FindLineEnd(rest);
      if n >= MAX_TOKEN {
        ScanStops(c, rest);
        return;
      }
      var line := DropCR(rest[..n]);
      ScanLine(c, rest, events);
      rest := if n < |rest| then rest[n + 1..] else [];
      if line == [] {
        continue;
      }
      match c.decode(line) {
        case None =>
        case Some(e) => events := events + [e];
      }
    }
    ScanStops(c, rest);
  }

  // ---------- Operations ----------

  function AppendBytes(c: Codec, b: seq<Byte>, e: LogEvent): seq<Byte> {
    match c.encode(e)
    case None => b
    case Some(line) => b + line + [NEWLINE]
  }

  function Frame(c: Codec, events: seq<LogEvent>): seq<Byte> {
    if events == [] then [] else AppendBytes(c, Frame(c, events[..|events| - 1]), events[|events| - 1])
  }

  function TrimBytes(c: Codec, b: seq<Byte>, maxSize: nat): seq<Byte> {
    var events := Scan(c, b);
    if |events| <= maxSize then b else Frame(c, LastOf(events, maxSize))
  }

  /** The file on disk; None until somebody creates it. */
  class File {
    var content: Option<seq<Byte>>

    constructor (content: Option<seq<Byte>>)
      ensures this.content == content
    {
      this.content := content;
    }

    function Bytes(): seq<Byte>
      reads this
    {
      if content.None? then [] else content.value
    }
  }

  class Buffer {
    const file: File
    const codec: Codec
    const maxSize: nat

    constructor (file: File, codec: Codec, maxSize: int)
      ensures this.file == file && this.codec == codec
      ensures this.maxSize == if maxSize > 0 then maxSize else 1000
    {
      this.file := file;
      this.codec := codec;
      this.maxSize := if maxSize > 0 then maxSize else DEFAULT_MAX_EVENTS;
    }

    function Events(): seq<LogEvent>
      reads file
    {
      Scan(codec, file.Bytes())
    }

    /** Writes the event's line at the end. A failed encoding leaves the file's bytes alone (but creates the file). */
    method Append(e: LogEvent) returns (ok: bool)
      modifies file
      ensures ok <==> codec.encode(e).Some?
      ensures file.content == Some(AppendBytes(codec, old(file.Bytes()), e))
    {
      var bytes := file.Bytes();
      file.content := Some(bytes);
      match codec.encode(e) {
        case None => ok := false;
        case Some(line) =>
          var data := line + [NEWLINE];
          file.content := Some(bytes + data);
          assert bytes + data == bytes + line + [NEWLINE];
          ok := true;
      }
    }

    method ReadAndClear() returns (events: seq<LogEvent>)
      modifies file
      ensures events == old(Events())
      ensures file.content == if old(file.content).None? then None else Some([])
    {
      if file.content.None? {
        return [];
      }
      events := ScanEvents(codec, file.Bytes());
      file.content := Some([]);
    }

    method Trim()
      modifies file
      ensures file.content ==
              if old(file.content).None? then None else Some(TrimBytes(codec, old(file.Bytes()), maxSize))
    {
      hide Scan, Frame;
      if file.content.None? {
        return;
      }
      var events := ScanEvents(codec, file.Bytes());
      if |events| <= maxSize {
        return;
      }
      var out := WriteAll(codec, events[|events| - maxSize..]);
      file.content := Some(out);
    }
  }

  /** The trimmed events, each on its line; one that cannot be encoded is skipped. */
  method WriteAll(c: Codec, events: seq<LogEvent>) returns (out: seq<Byte>)
    ensures out == Frame(c, events)
  {
    out := [];
    for i := 0 to |events|
      invariant out == Frame(c, events[..i])
    {
      assert events[..i + 1][..i] == events[..i];
      match c.encode(events[i]) {
        case None => continue;
        case Some(line) =>
          assert out + (line + [NEWLINE]) == out + line + [NEWLINE];
          out := out + (line + [NEWLINE]);
      }
    }
    assert events[..|events|] == events;
  }

  // ---------- Exactly when an appended event can be read ----------

  /** The file is empty or ends with a line break. */
  predicate Closed(b: seq<Byte>) {
    b == [] || b[|b| - 1] == NEWLINE
  }

  /** No line is too long for the scanner. */
  predicate ShortLines(b: seq<Byte>) {
    b == [] || (var n := LineEnd(b); n < MAX_TOKEN && (n < |b| ==> ShortLines(b[n + 1..])))
  }

  lemma {:induction false} LineEndOf(line: seq<Byte>, rest: seq<Byte>)
    requires NEWLINE !in line
    ensures LineEnd(line + [NEWLINE] + rest) == |line|
  {
    var b := line + [NEWLINE] + rest;
    if line != [] {
      assert b[1..] == line[1..] + [NEWLINE] + rest;
      LineEndOf(line[1..], rest);
    }
  }

  lemma ScanFirstLine(c: Codec, first: seq<Byte>, rest: seq<Byte>)
    requires NEWLINE !in first
    ensures var b := first + [NEWLINE] + rest;
            && (ShortLines(b) <==> |first| < MAX_TOKEN && ShortLines(rest))
            && Scan(c, b) == if |first| < MAX_TOKEN then DecodeLine(c, DropCR(first)) + Scan(c, rest) else []
  {
    var b := first + [NEWLINE] + rest;
    LineEndOf(first, rest);
    assert b[..|first|] == first && b[|first| + 1..] == rest;
  }

  /** What a line yields, whether it ends with a line break, with a carriage return and a line break, or with the file:
      its event, if it is not blank and decodes; reading stops at a line of a mebibyte or more. */
  lemma ScanReadsLines(c: Codec, line: seq<Byte>, rest: seq<Byte>)
    requires 10 !in line && (line != [] ==> line[|line| - 1] != 13)
    ensures var here := if line == [] then [] else match c.decode(line) case None => [] case Some(e) => [e];
            && Scan(c, line + [10] + rest) == (if |line| < 1048576 then here + Scan(c, rest) else [])
            && Scan(c, line + [13, 10] + rest) == (if |line| + 1 < 1048576 then here + Scan(c, rest) else [])
            && Scan(c, line) == (if |line| < 1048576 then here else [])
  {
    LineFeedEnds(c, line, rest);
    ReturnAndLineFeedEnd(c, line, rest);
    LineEndOfLast(line);
    ScanOfLast(c, line);
    EventOnLine(c, line);
    hide Scan, DecodeLine, DropCR;
  }

  lemma EventOnLine(c: Codec, line: seq<Byte>)
    requires line != [] ==> line[|line| - 1] != CARRIAGE_RETURN
    ensures DecodeLine(c, DropCR(line)) ==
            if line == [] then [] else match c.decode(line) case None => [] case Some(e) => [e]
  {
  }

  lemma LineFeedEnds(c: Codec, line: seq<Byte>, rest: seq<Byte>)
    requires NEWLINE !in line
    ensures Scan(c, line + [10] + rest) == if |line| < 1048576 then DecodeLine(c, DropCR(line)) + Scan(c, rest) else []
  {
    hide Scan, DecodeLine, DropCR;
    ScanFirstLine(c, line, rest);
  }

  lemma ReturnAndLineFeedEnd(c: Codec, line: seq<Byte>, rest: seq<Byte>)
    requires NEWLINE !in line && (line != [] ==> line[|line| - 1] != CARRIAGE_RETURN)
    ensures Scan(c, line + [13, 10] + rest) ==
            if |line| + 1 < 1048576 then DecodeLine(c, DropCR(line)) + Scan(c, rest) else []
  {
    DropReturn(line);
    hide Scan, DecodeLine, DropCR;
    ScanFirstLine(c, line + [13], rest);
    TwoBytes(line, rest);
  }

  lemma DropReturn(line: seq<Byte>)
    requires line != [] ==> line[|line| - 1] != CARRIAGE_RETURN
    ensures DropCR(line + [13]) == DropCR(line)
  {
    assert (line + [13])[..|line|] == line;
  }

  lemma TwoBytes(line: seq<Byte>, rest: seq<Byte>)
    ensures line + [13] + [10] + rest == line + [13, 10] + rest
  {
  }

  lemma {:induction false} LineEndOfLast(line: seq<Byte>)
    requires NEWLINE !in line
    ensures LineEnd(line) == |line|
  {
    if line != [] {
      LineEndOfLast(line[1..]);
    }
  }

  lemma ScanOfLast(c: Codec, line: seq<Byte>)
    requires LineEnd(line) == |line|
    ensures Scan(c, line) == if |line| < MAX_TOKEN then DecodeLine(c, DropCR(line)) else []
  {
    hide LineEnd, DropCR, DecodeLine;
    assert line[..|line|] == line;
    if line == [] {
      assert DecodeLine(c, DropCR(line)) == [] by { NothingOnLine(c); }
    }
  }

  lemma NothingOnLine(c: Codec)
    ensures DecodeLine(c, DropCR([])) == []
  {
  }

  lemma {:induction false} ClosedHasLineEnd(b: seq<Byte>)
    requires Closed(b) && b != []
    ensures LineEnd(b) < |b|
  {
    if |b| > 1 && b[0] != NEWLINE {
      ClosedHasLineEnd(b[1..]);
    }
  }

  lemma FirstLineOfClosed(b: seq<Byte>) returns (first: seq<Byte>, rest: seq<Byte>)
    requires Closed(b) && b != []
    ensures b == first + [NEWLINE] + rest && NEWLINE !in first && Closed(rest)
  {
    ClosedHasLineEnd(b);
    var n := LineEnd(b);
    first, rest := b[..n], b[n + 1..];
  }

  /** One more line at the end of a closed file. */
  lemma {:induction false} ScanOneMore(c: Codec, b: seq<Byte>, line: seq<Byte>)
    requires Closed(b) && NEWLINE !in line
    ensures var b' := b + line + [NEWLINE];
            && (ShortLines(b') <==> ShortLines(b) && |line| < MAX_TOKEN)
            && Scan(c, b') == Scan(c, b) + if ShortLines(b') then DecodeLine(c, DropCR(line)) else []
    decreases |b|
  {
    hide Scan, ShortLines, DecodeLine, DropCR, MAX_TOKEN, NEWLINE;
    if b == [] {
      assert [] + line + [NEWLINE] == line + [NEWLINE] + [];
      ScanFirstLine(c, line, []);
      ScanNothing(c);
    } else {
      var first, rest := FirstLineOfClosed(b);
      ScanFirstLine(c, first, rest);
      ScanFirstLine(c, first, rest + line + [NEWLINE]);
      LinesConcat(first, rest, line);
      ScanOneMore(c, rest, line);
    }
  }

  lemma LinesConcat(first: seq<Byte>, rest: seq<Byte>, line: seq<Byte>)
    ensures first + [NEWLINE] + rest + line + [NEWLINE] == first + [NEWLINE] + (rest + line + [NEWLINE])
  {
  }

  lemma ScanNothing(c: Codec)
    ensures Scan(c, []) == [] && ShortLines([]) && Closed([])
  {
  }

  /** What an append stores is read back, after all others, if and only if its line and every line before it fits the
      scanner; behind an over-long line it is lost with everything else that follows. */
  lemma AppendedIsReadIffShort(c: Codec, b: seq<Byte>, e: LogEvent)
    requires c.Lawful() && Closed(b) && c.encode(e).Some?
    ensures var b' := AppendBytes(c, b, e);
            && Closed(b')
            && (ShortLines(b') <==> ShortLines(b) && c.Fits(e))
            && Scan(c, b') == Scan(c, b) + if ShortLines(b) && c.Fits(e) then c.Stored(e) else []
  {
    c.WrittenIsGood(e);
    hide Scan, ShortLines, LineEnd, Codec.Lawful;
    ScanOneMore(c, b, c.encode(e).value);
  }

  /** What a reader finds after the events were written one after the other. */
  function StoredAll(c: Codec, events: seq<LogEvent>): seq<LogEvent> {
    if events == [] then [] else StoredAll(c, events[..|events| - 1]) + c.Stored(events[|events| - 1])
  }

  /** Events written to an empty file are read back as what is stored of them, provided every line fits the scanner. */
  lemma {:induction false} FrameIsRead(c: Codec, events: seq<LogEvent>)
    requires c.Lawful() && forall i | 0 <= i < |events| :: c.Fits(events[i])
    ensures var b := Frame(c, events); Closed(b) && ShortLines(b) && Scan(c, b) == StoredAll(c, events)
  {
    hide Codec.Lawful, Codec.Fits, Scan, ShortLines, Closed;
    if events == [] {
      ScanNothing(c);
    } else {
      var front, e := events[..|events| - 1], events[|events| - 1];
      FrameIsRead(c, front);
      if c.encode(e).Some? {
        AppendedIsReadIffShort(c, Frame(c, front), e);
      } else {
        assert StoredAll(c, front) + [] == StoredAll(c, front);
      }
    }
  }

  lemma {:induction false} SettledAreStored(c: Codec, events: seq<LogEvent>)
    requires forall i | 0 <= i < |events| :: c.IsSettled(events[i])
    ensures StoredAll(c, events) == events
  {
    if events != [] {
      var front, e := events[..|events| - 1], events[|events| - 1];
      SettledAreStored(c, front);
      c.SettledIsStored(e, e.Count());
      assert front + [e] == events;
    }
  }

  // ---------- The file refines a queue ----------

  datatype Op = OpAppend(e: LogEvent) | OpReadAndClear | OpTrim(maxSize: nat)

  /** An operation's effect on the bytes, and the events it returns. */
  function FileStep(c: Codec, b: seq<Byte>, op: Op): (seq<Byte>, seq<LogEvent>) {
    match op
    case OpAppend(e) => (AppendBytes(c, b, e), [])
    case OpReadAndClear => ([], Scan(c, b))
    case OpTrim(k) => (TrimBytes(c, b, k), [])
  }

  /** The same operation on a queue of events. */
  function QueueStep(c: Codec, q: seq<LogEvent>, op: Op): (seq<LogEvent>, seq<LogEvent>) {
    match op
    case OpAppend(e) => (q + c.Stored(e), [])
    case OpReadAndClear => ([], q)
    case OpTrim(k) => (LastOf(q, k), [])
  }

  function FileRun(c: Codec, b: seq<Byte>, ops: seq<Op>): (seq<Byte>, seq<seq<LogEvent>>)
    decreases |ops|
  {
    if ops == [] then (b, [])
    else
      var (b', out) := FileStep(c, b, ops[0]);
      var (last, outs) := FileRun(c, b', ops[1..]);
      (last, [out] + outs)
  }

  function QueueRun(c: Codec, q: seq<LogEvent>, ops: seq<Op>): (seq<LogEvent>, seq<seq<LogEvent>>)
    decreases |ops|
  {
    if ops == [] then (q, [])
    else
      var (q', out) := QueueStep(c, q, ops[0]);
      var (last, outs) := QueueRun(c, q', ops[1..]);
      (last, [out] + outs)
  }

  /** Both the event's line and the line it is rewritten as after a read fit the scanner. */
  predicate AppendFits(c: Codec, e: LogEvent) {
    c.encode(e).Some? ==> c.Fits(e) && forall r | r in c.Stored(e) :: c.Fits(r)
  }

  predicate OpFits(c: Codec, op: Op) {
    op.OpAppend? ==> AppendFits(c, op.e)
  }

  /** b is a file of complete short lines holding the queue q, whose events can be rewritten. */
  ghost predicate Holds(c: Codec, b: seq<Byte>, q: seq<LogEvent>) {
    Closed(b) && ShortLines(b) && Scan(c, b) == q && forall e | e in q :: c.IsSettled(e) && c.Fits(e)
  }

  lemma NothingHeld(c: Codec)
    ensures Holds(c, [], [])
  {
  }

  /** One more append, of any event whose lines fit. */
  lemma AppendHolds(c: Codec, b: seq<Byte>, q: seq<LogEvent>, e: LogEvent)
    requires c.Lawful() && Holds(c, b, q) && AppendFits(c, e)
    ensures Holds(c, AppendBytes(c, b, e), q + c.Stored(e))
  {
    hide Scan, ShortLines, Codec.Lawful, Codec.IsSettled;
    if c.encode(e).Some? {
      c.WrittenIsGood(e);
      AppendedIsReadIffShort(c, b, e);
    } else {
      assert q + [] == q;
    }
  }

  /** Rewriting settled events. */
  lemma FrameHolds(c: Codec, q: seq<LogEvent>)
    requires c.Lawful() && forall i | 0 <= i < |q| :: c.IsSettled(q[i]) && c.Fits(q[i])
    ensures Holds(c, Frame(c, q), q)
  {
    hide Codec.Lawful, Codec.Fits, Codec.IsSettled, Scan, ShortLines, Closed;
    FrameIsRead(c, q);
    SettledAreStored(c, q);
  }

  lemma StepRefines(c: Codec, b: seq<Byte>, q: seq<LogEvent>, op: Op)
    requires c.Lawful() && Holds(c, b, q) && OpFits(c, op)
    ensures FileStep(c, b, op).1 == QueueStep(c, q, op).1
    ensures Holds(c, FileStep(c, b, op).0, QueueStep(c, q, op).0)
  {
    hide Codec.Lawful, Codec.Fits, Codec.IsSettled;
    match op
    case OpAppend(e) => AppendHolds(c, b, q, e);
    case OpReadAndClear => NothingHeld(c);
    case OpTrim(k) =>
      if |q| > k {
        FrameHolds(c, LastOf(q, k));
      }
  }

  /** Over every history of appends, reads and trims, the bytes of the file hold exactly the queue, and
      every read returns what the queue returns. */
  lemma {:induction false} FileRefinesQueue(c: Codec, b: seq<Byte>, q: seq<LogEvent>, ops: seq<Op>)
    requires c.Lawful() && Holds(c, b, q) && forall op | op in ops :: OpFits(c, op)
    ensures FileRun(c, b, ops).1 == QueueRun(c, q, ops).1
    ensures Holds(c, FileRun(c, b, ops).0, QueueRun(c, q, ops).0)
    decreases |ops|
  {
    if ops != [] {
      StepRefines(c, b, q, ops[0]);
      FileRefinesQueue(c, FileStep(c, b, ops[0]).0, QueueStep(c, q, ops[0]).0, ops[1..]);
    }
  }

  lemma LastOfMeaning(q: seq<LogEvent>, k: nat)
    ensures var n := Min(|q|, k); |LastOf(q, k)| == n && LastOf(q, k) == q[|q| - n..]
  {
  }

  lemma HeldIsScanned(c: Codec, b: seq<Byte>, q: seq<LogEvent>)
    requires Holds(c, b, q)
    ensures Scan(c, b) == q
  {
  }

  lemma TrimOfShort(c: Codec, b: seq<Byte>, k: nat)
    requires |Scan(c, b)| <= k
    ensures TrimBytes(c, b, k) == b
  {
  }

  /** Trimming keeps exactly the last min(n, k) events, and trimming a file twice is trimming it once. */
  lemma TrimIsIdempotent(c: Codec, b: seq<Byte>, q: seq<LogEvent>, k: nat)
    requires c.Lawful() && Holds(c, b, q)
    ensures TrimBytes(c, TrimBytes(c, b, k), k) == TrimBytes(c, b, k)
    ensures var n := Min(|q|, k); |Scan(c, TrimBytes(c, b, k))| == n && Scan(c, TrimBytes(c, b, k)) == q[|q| - n..]
  {
    hide Holds, Codec.Lawful, Codec.Fits, TrimBytes, LastOf;
    assert OpFits(c, OpTrim(k));
    StepRefines(c, b, q, OpTrim(k));
    LastOfMeaning(q, k);
    HeldIsScanned(c, TrimBytes(c, b, k), LastOf(q, k));
    TrimOfShort(c, TrimBytes(c, b, k), k);
  }
}
