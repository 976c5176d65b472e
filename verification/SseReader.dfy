/** internal/app/backend.go, `readSSELine` and the framing half of `streamOnce`: server-sent
    events (sections 9.2.5 and 9.2.6 of the WHATWG HTML Living Standard) read the looser
    way the code reads them, and internal/app/server.go `writeSSE`, which prints them. */
module SseReader {
  import opened Prelude

  newtype byte = x: int | 0 <= x < 256

  type Bytes = seq<byte>

  const LF: byte := 10
  const CR: byte := 13
  const MAX_EVENT_BYTES: nat := 134217728 // 128 << 20
  const DATA: Bytes := [100, 97, 116, 97, 58] // "data:"
  const DONE: Bytes := [91, 68, 79, 78, 69, 93] // "[DONE]"

  /** How the transport ends: end of file, a read error, or a read cut off because no event
      came for too long. */
  datatype End = Eof | Broken | Idle

  /** What decoding a payload tells the reader about the event. */
  datatype Decoded = Junk | ErrorEvent | FailedEvent | EndedEvent | OtherEvent

  type Decoder = Bytes -> Decoded

  predicate Terminal(d: Decoded) {
    d.ErrorEvent? || Finishing(d)
  }

  predicate Finishing(d: Decoded) {
    d.FailedEvent? || d.EndedEvent?
  }

  // ------------------------------------------------------------------ lines

  datatype LineRead = Line(text: Bytes, atEof: bool, rest: Bytes) | TooLong | ReadFailed(idle: bool)

  /** The position of the first LF, or the length when there is none. */
  function FindLF(s: Bytes): (n: nat)
    ensures n <= |s| && LF !in s[..n] && (n < |s| ==> s[n] == LF)
  {
    if s == [] || s[0] == LF then 0 else FindLF(s[1..]) + 1
  }

  function TrimSuffix(s: Bytes, b: byte): Bytes {
    if s != [] && Last(s) == b then DropLast(s) else s
  }

  function NextLine(rest: Bytes, end: End, limit: nat): LineRead {
    var n := FindLF(rest);
    var raw := if n < |rest| then rest[..n + 1] else rest;
    if |raw| > limit then TooLong
    else if n == |rest| && end != Eof then ReadFailed(end.Idle?)
    else Line(TrimSuffix(TrimSuffix(raw, LF), CR), n == |rest|, rest[|raw|..])
  }

  datatype SliceStatus = Found | BufferFull | AtEnd

  /** A buffered reader: a slice is cut at an LF, or when the buffer is full, or at the end. */
  class BufferedReader {
    const input: Bytes
    const end: End
    const size: nat
    var pos: nat

    ghost predicate Valid()
      reads this
    {
      size > 0 && pos <= |input|
    }

    function Rest(): Bytes
      reads this
      requires Valid()
    {
      input[pos..]
    }

    constructor (input: Bytes, end: End, size: nat)
      requires size > 0
      ensures Valid() && Rest() == input && this.end == end
    {
      this.input, this.end, this.size, pos := input, end, size, 0;
    }

    method ReadSlice() returns (fragment: Bytes, status: SliceStatus)
      requires Valid()
      modifies this
      ensures Valid() && old(Rest()) == fragment + Rest()
      ensures status == Found ==> fragment != [] && Last(fragment) == LF && LF !in DropLast(fragment)
      ensures status == BufferFull ==> fragment != [] && LF !in fragment
      ensures status == AtEnd ==> Rest() == [] && LF !in fragment
    {
      var n := 0;
      while n < size && pos + n < |input| && input[pos + n] != LF
        invariant n <= size && pos + n <= |input| && LF !in input[pos..pos + n]
      {
        n := n + 1;
      }
      if n == size {
        status := BufferFull;
      } else if pos + n == |input| {
        status := AtEnd;
      } else {
        assert input[pos..pos + n + 1] == input[pos..pos + n] + [LF];
        n := n + 1;
        status := Found;
      }
      fragment := input[pos..pos + n];
      assert status == Found ==> DropLast(fragment) == input[pos..pos + n - 1];
      assert input[pos..] == fragment + input[pos + n..];
      pos := pos + n;
    }
  }

  lemma FindLFIn(a: Bytes, b: Bytes)
    requires LF !in a
    ensures FindLF(a + b) == |a| + FindLF(b)
  {
    if a == [] {
      assert a + b == b;
    } else {
      assert (a + b)[1..] == a[1..] + b;
      FindLFIn(a[1..], b);
    }
  }

  lemma LineFound(line: Bytes, rest: Bytes, end: End, limit: nat)
    requires line != [] && Last(line) == LF && LF !in DropLast(line)
    ensures NextLine(line + rest, end, limit) ==
      if |line| > limit then TooLong else Line(TrimSuffix(TrimSuffix(line, LF), CR), false, rest)
  {
    assert line + rest == DropLast(line) + ([LF] + rest);
    FindLFIn(DropLast(line), [LF] + rest);
    assert (line + rest)[..|line|] == line && (line + rest)[|line|..] == rest;
  }

  lemma LineTooLong(line: Bytes, rest: Bytes, end: End, limit: nat)
    requires LF !in line && |line| > limit
    ensures NextLine(line + rest, end, limit) == TooLong
  {
    FindLFIn(line, rest);
  }

  lemma LineAtEnd(line: Bytes, end: End, limit: nat)
    requires LF !in line && |line| <= limit
    ensures NextLine(line, end, limit) ==
      if end != Eof then ReadFailed(end.Idle?) else Line(TrimSuffix(TrimSuffix(line, LF), CR), true, [])
  {
    FindLFIn(line, []);
    assert line + [] == line;
  }

  /** `readSSELine`: the line does not depend on where the buffer cuts it. */
  method ReadLine(reader: BufferedReader, limit: nat) returns (r: LineRead)
    requires reader.Valid()
    modifies reader
    ensures reader.Valid()
    ensures r == NextLine(old(reader.Rest()), reader.end, limit)
    ensures r.Line? ==> r.rest == reader.Rest()
  {
    var line: Bytes := [];
    ghost var all := reader.Rest();
    while true
      invariant reader.Valid() && all == line + reader.Rest()
      invariant LF !in line && |line| <= limit
      decreases |reader.Rest()|
    {
      var fragment, status := reader.ReadSlice();
      ghost var next := line + fragment;
      assert all == next + reader.Rest();
      if status == Found {
        assert DropLast(next) == line + DropLast(fragment);
        LineFound(next, reader.Rest(), reader.end, limit);
      } else if |next| > limit {
        LineTooLong(next, reader.Rest(), reader.end, limit);
      } else if status == AtEnd {
        assert all == next;
        LineAtEnd(next, reader.end, limit);
      }
      if |line| + |fragment| > limit {
        return TooLong;
      }
      line := line + fragment;
      if status == BufferFull {
        continue;
      }
      if status == AtEnd && reader.end != Eof {
        return ReadFailed(reader.end.Idle?);
      }
      return Line(TrimSuffix(TrimSuffix(line, LF), CR), status == AtEnd, reader.Rest());
    }
  }

  // ------------------------------------------------------------------ events

  datatype Ending = Clean | Closed | StreamFailed | TimedOut | SizeExceeded

  datatype Parsed = Parsed(events: seq<Bytes>, ending: Ending)

  predicate IsSpace(b: byte) {
    9 <= b <= 13 || b == 32
  }

  /** The white space of two bytes: U+0085 and U+00A0. */
  predicate IsLatinSpace(a: byte, b: byte) {
    a == 0xC2 && (b == 0x85 || b == 0xA0)
  }

  /** The white space of three bytes: U+1680, U+2000 to U+200A, U+2028, U+2029, U+202F, U+205F and U+3000. */
  predicate IsWideSpace(a: byte, b: byte, c: byte) {
    || (a == 0xE1 && b == 0x9A && c == 0x80)
    || (a == 0xE2 && b == 0x80 && (0x80 <= c <= 0x8A || c == 0xA8 || c == 0xA9 || c == 0xAF))
    || (a == 0xE2 && b == 0x81 && c == 0x9F)
    || (a == 0xE3 && b == 0x80 && c == 0x80)
  }

  /** The bytes of the white space that `s` starts with. */
  function SpaceAtStart(s: Bytes): (n: nat)
    ensures n <= |s|
  {
    if |s| >= 1 && IsSpace(s[0]) then 1
    else if |s| >= 2 && IsLatinSpace(s[0], s[1]) then 2
    else if |s| >= 3 && IsWideSpace(s[0], s[1], s[2]) then 3
    else 0
  }

  /** The bytes of the white space that `s` ends with. */
  function SpaceAtEnd(s: Bytes): (n: nat)
    ensures n <= |s|
  {
    var k := |s|;
    if k >= 1 && IsSpace(s[k - 1]) then 1
    else if k >= 2 && IsLatinSpace(s[k - 2], s[k - 1]) then 2
    else if k >= 3 && IsWideSpace(s[k - 3], s[k - 2], s[k - 1]) then 3
    else 0
  }

  function TrimLeft(s: Bytes): (t: Bytes)
    ensures |t| <= |s|
  {
    if SpaceAtStart(s) > 0 then TrimLeft(s[SpaceAtStart(s)..]) else s
  }

  function TrimRight(s: Bytes): (t: Bytes)
    ensures |t| <= |s|
  {
    if SpaceAtEnd(s) > 0 then TrimRight(s[..|s| - SpaceAtEnd(s)]) else s
  }

  /** All Unicode white space is trimmed, in UTF-8. */
  function TrimSpace(s: Bytes): (t: Bytes)
    ensures |t| <= |s|
  {
    TrimRight(TrimLeft(s))
  }

  /** The payload an event delivers, if it is one: not empty, not `[DONE]`, and decodable. */
  function Delivered(decode: Decoder, data: Bytes): seq<Bytes> {
    if data == [] || data == DONE || decode(data).Junk? then [] else [data]
  }

  predicate DeliversTerminal(decode: Decoder, data: Bytes) {
    Delivered(decode, data) != [] && Terminal(decode(data))
  }

  predicate DeliversFinishing(decode: Decoder, data: Bytes) {
    Delivered(decode, data) != [] && Finishing(decode(data))
  }

  function EndOf(terminal: bool, otherwise: Ending): Ending {
    if terminal then Clean else otherwise
  }

  function Joined(data: Bytes, part: Bytes): Bytes {
    data + (if data == [] then [] else [LF]) + part
  }

  /** The last event may come without an empty line after it. */
  function Flushed(decode: Decoder, data: Bytes, terminal: bool): Parsed {
    Parsed(Delivered(decode, data), EndOf(terminal || DeliversTerminal(decode, data), Closed))
  }

  function Prepend(events: seq<Bytes>, p: Parsed): Parsed {
    Parsed(events + p.events, p.ending)
  }

  /** One line either ends the reading or delivers something and leaves pending data. */
  datatype LineStep = Stop(result: Parsed) | Go(events: seq<Bytes>, data: Bytes, terminal: bool)

  function StepOf(decode: Decoder, line: LineRead, data: Bytes, terminal: bool): LineStep {
    match line
    case TooLong => Stop(Parsed([], EndOf(terminal, SizeExceeded)))
    case ReadFailed(idle) => Stop(Parsed([], EndOf(terminal, if idle then TimedOut else StreamFailed)))
    case Line(text, atEof, _) =>
      if text == [] then
        if atEof || DeliversFinishing(decode, data) then Stop(Flushed(decode, data, terminal))
        else Go(Delivered(decode, data), [], terminal || DeliversTerminal(decode, data))
      else if DATA <= text then
        var part := TrimSpace(text[|DATA|..]);
        if |data| + |part| + 1 > MAX_EVENT_BYTES then Stop(Parsed([], SizeExceeded))
        else if atEof then Stop(Flushed(decode, Joined(data, part), terminal))
        else Go([], Joined(data, part), terminal)
      else if atEof then Stop(Flushed(decode, data, terminal))
      else Go([], data, terminal)
  }

  /** What reading `rest` delivers when `data` is pending and `terminal` events came before. */
  function Parse(decode: Decoder, rest: Bytes, end: End, data: Bytes, terminal: bool): Parsed
    decreases |rest|
  {
    var line := NextLine(rest, end, MAX_EVENT_BYTES);
    match StepOf(decode, line, data, terminal)
    case Stop(result) => result
    case Go(events, data', terminal') => Prepend(events, Parse(decode, line.rest, end, data', terminal'))
  }

  lemma PrependTwice(a: seq<Bytes>, b: seq<Bytes>, p: Parsed)
    ensures Prepend(a, Prepend(b, p)) == Prepend(a + b, p)
  {
  }

  lemma PrependNothing(p: Parsed)
    ensures Prepend([], p) == p
  {
    assert [] + p.events == p.events;
  }

  /** No pending or delivered event exceeds the size limit. */
  lemma {:induction false} EventsFit(decode: Decoder, rest: Bytes, end: End, data: Bytes, terminal: bool)
    requires |data| <= MAX_EVENT_BYTES
    ensures forall e <- Parse(decode, rest, end, data, terminal).events :: |e| <= MAX_EVENT_BYTES
    decreases |rest|
  {
    var line := NextLine(rest, end, MAX_EVENT_BYTES);
    var step := StepOf(decode, line, data, terminal);
    if step.Go? {
      EventsFit(decode, line.rest, end, step.data, step.terminal);
    }
  }

  /** What a line makes the reading loop do. */
  datatype Control = Continue | Break | Return(ending: Ending)

  /** The body of the reading loop: one line ends the reading, leaves the loop for the last
      flush, or goes on. */
  method HandleLine(decode: Decoder, line: LineRead, data: Bytes, terminal: bool, events: seq<Bytes>)
    returns (control: Control, data': Bytes, terminal': bool, events': seq<Bytes>)
    ensures var step := StepOf(decode, line, data, terminal);
      match control
      case Return(ending) => step == Stop(Parsed([], ending)) && events' == events
      case Break => step.Stop? && Prepend(events, step.result) == Prepend(events', Flushed(decode, data', terminal'))
      case Continue => step.Go? && data' == step.data && terminal' == step.terminal && events' == events + step.events
  {
    control, data', terminal', events' := Continue, data, terminal, events;
    if !line.Line? {
      control := Return(
        if terminal then Clean
        else if line.TooLong? then SizeExceeded
        else if line.idle then TimedOut
        else StreamFailed);
      return;
    }
    if line.text == [] {
      var finished;
      events', terminal', finished := Flush(decode, data, events, terminal);
      data' := [];
      control := if finished || line.atEof then Break else Continue;
      assert events' + [] == events';
      return;
    }
    if DATA <= line.text {
      var part := TrimSpace(line.text[|DATA|..]);
      if |data| + |part| + 1 > MAX_EVENT_BYTES {
        control := Return(SizeExceeded);
        return;
      }
      data' := Append(data, part);
    }
    control := if line.atEof then Break else Continue;
    assert events + [] == events;
  }

  /** The reading loop of `streamOnce`: what it delivers does not depend on the buffer. */
  method StreamOnce(decode: Decoder, input: Bytes, end: End, size: nat) returns (events: seq<Bytes>, ending: Ending)
    requires size > 0
    ensures Parsed(events, ending) == Parse(decode, input, end, [], false)
  {
    ghost var whole := Parse(decode, input, end, [], false);
    var reader := new BufferedReader(input, end, size);
    var data: Bytes := [];
    var terminal := false;
    events := [];
    PrependNothing(whole);
    while true
      invariant fresh(reader) && reader.Valid() && reader.end == end
      invariant whole == Prepend(events, Parse(decode, reader.Rest(), end, data, terminal))
      decreases |reader.Rest()|
    {
      ghost var before, step := events, StepOf(decode, NextLine(reader.Rest(), end, MAX_EVENT_BYTES), data, terminal);
      var line := ReadLine(reader, MAX_EVENT_BYTES);
      var control;
      control, data, terminal, events := HandleLine(decode, line, data, terminal, events);
      match control {
        case Return(failure) =>
          assert events + [] == events;
          return events, failure;
        case Break =>
          break;
        case Continue =>
          PrependTwice(before, step.events, Parse(decode, reader.Rest(), end, data, terminal));
      }
    }
    var finished;
    events, terminal, finished := Flush(decode, data, events, terminal);
    ending := if terminal then Clean else Closed;
  }

  method Append(data: Bytes, part: Bytes) returns (joined: Bytes)
    ensures joined == Joined(data, part)
  {
    joined := data;
    if |data| > 0 {
      joined := joined + [LF];
    }
    joined := joined + part;
  }

  method Flush(decode: Decoder, data: Bytes, events: seq<Bytes>, terminal: bool)
    returns (events': seq<Bytes>, terminal': bool, finished: bool)
    ensures events' == events + Delivered(decode, data)
    ensures terminal' == (terminal || DeliversTerminal(decode, data))
    ensures finished == DeliversFinishing(decode, data)
  {
    events', terminal', finished := events, terminal, false;
    if data == [] || data == DONE || decode(data).Junk? {
      return;
    }
    match decode(data) {
      case ErrorEvent =>
        terminal' := true;
      case FailedEvent =>
        terminal', finished := true, true;
      case EndedEvent =>
        terminal', finished := true, true;
      case OtherEvent =>
    }
    events' := events + [data];
  }

  // ------------------------------------------------------------------ what an attempt is

  lemma NextLineShrinks(rest: Bytes, end: End, limit: nat)
    ensures var line := NextLine(rest, end, limit); line.Line? && !line.atEof ==> |line.rest| < |rest|
  {
  }

  /** A finishing event is the last one; a clean end means a terminal event was delivered,
      and a closed or failed stream means none was. */
  lemma {:induction false} AttemptsEndOnce(decode: Decoder, rest: Bytes, end: End, data: Bytes, terminal: bool)
    ensures var p := Parse(decode, rest, end, data, terminal);
      && (forall e <- p.events :: Delivered(decode, e) == [e])
      && (forall k :: 0 <= k < |p.events| - 1 ==> !Finishing(decode(p.events[k])))
      && (p.ending == Clean ==> terminal || exists e <- p.events :: Terminal(decode(e)))
      && (p.ending.Closed? || p.ending.StreamFailed? || p.ending.TimedOut? ==>
            !terminal && forall e <- p.events :: !Terminal(decode(e)))
    decreases |rest|
  {
    hide NextLine, TrimSpace;
    var line := NextLine(rest, end, MAX_EVENT_BYTES);
    var step := StepOf(decode, line, data, terminal);
    if step.Go? {
      NextLineShrinks(rest, end, MAX_EVENT_BYTES);
      AttemptsEndOnce(decode, line.rest, end, step.data, step.terminal);
    }
  }

  // ------------------------------------------------------------------ round trip

  /** `writeSSE` */
  function Frame(payload: Bytes): Bytes {
    DATA + [32] + payload + [LF, LF]
  }

  function Frames(payloads: seq<Bytes>): Bytes {
    if payloads == [] then [] else Frame(payloads[0]) + Frames(payloads[1..])
  }

  /** What a printed JSON object is: one trimmed line that fits. */
  predicate Printable(payload: Bytes) {
    && payload != [] && LF !in payload
    && SpaceAtStart(payload) == 0 && SpaceAtEnd(payload) == 0
    && |DATA| + 1 + |payload| + 1 <= MAX_EVENT_BYTES
  }

  /** The payloads a reader is to see: those that are events, through the first finishing one. */
  function Through(decode: Decoder, payloads: seq<Bytes>): seq<Bytes> {
    if payloads == [] then []
    else if DeliversFinishing(decode, payloads[0]) then [payloads[0]]
    else Delivered(decode, payloads[0]) + Through(decode, payloads[1..])
  }

  lemma TrimmedStays(payload: Bytes)
    requires payload != [] && SpaceAtStart(payload) == 0 && SpaceAtEnd(payload) == 0
    ensures TrimSpace([32] + payload) == payload
  {
    var padded := [32] + payload;
    assert padded[1..] == payload && SpaceAtStart(padded) == 1;
    assert TrimLeft(padded) == TrimLeft(payload) == payload;
  }

  lemma FrameLines(payload: Bytes, rest: Bytes, end: End)
    requires Printable(payload)
    ensures NextLine(Frame(payload) + rest, end, MAX_EVENT_BYTES) == Line(DATA + [32] + payload, false, [LF] + rest)
    ensures NextLine([LF] + rest, end, MAX_EVENT_BYTES) == Line([], false, rest)
  {
    var text := DATA + [32] + payload;
    var raw := text + [LF];
    assert Frame(payload) + rest == raw + ([LF] + rest);
    assert DropLast(raw) == text && Last(text) == Last(payload);
    LineFound(raw, [LF] + rest, end, MAX_EVENT_BYTES);
    assert DropLast([LF]) == [];
    LineFound([LF], rest, end, MAX_EVENT_BYTES);
  }

  lemma PayloadIsData(decode: Decoder, payload: Bytes, rest: Bytes, terminal: bool)
    requires Printable(payload)
    ensures StepOf(decode, Line(DATA + [32] + payload, false, rest), [], terminal) == Go([], payload, terminal)
  {
    hide TrimSpace, SpaceAtStart, SpaceAtEnd;
    var text := DATA + [32] + payload;
    assert text[|DATA|..] == [32] + payload && text[..|DATA|] == DATA;
    TrimmedStays(payload);
    assert Joined([], payload) == payload;
  }

  /** The payload line makes the payload pending. */
  lemma PayloadStep(decode: Decoder, payload: Bytes, rest: Bytes, end: End, terminal: bool)
    requires Printable(payload)
    ensures Parse(decode, Frame(payload) + rest, end, [], terminal)
      == Parse(decode, [LF] + rest, end, payload, terminal)
  {
    FrameLines(payload, rest, end);
    PayloadIsData(decode, payload, [LF] + rest, terminal);
    PrependNothing(Parse(decode, [LF] + rest, end, payload, terminal));
  }

  /** The blank line delivers it. */
  lemma BlankStep(decode: Decoder, payload: Bytes, rest: Bytes, end: End, terminal: bool)
    requires Printable(payload)
    ensures Parse(decode, [LF] + rest, end, payload, terminal) ==
      if DeliversFinishing(decode, payload) then Parsed([payload], Clean)
      else Prepend(Delivered(decode, payload),
                   Parse(decode, rest, end, [], terminal || DeliversTerminal(decode, payload)))
  {
    FrameLines(payload, rest, end);
  }

  /** How reading ends when nothing is left and nothing terminal came. */
  function AtTheEnd(end: End): Ending {
    match end case Eof => Closed case Broken => StreamFailed case Idle => TimedOut
  }

  lemma NothingLeft(decode: Decoder, end: End, terminal: bool)
    ensures Parse(decode, [], end, [], terminal) == Parsed([], EndOf(terminal, AtTheEnd(end)))
  {
    LineAtEnd([], end, MAX_EVENT_BYTES);
  }

  /** Reading back what was printed gives the printed events, in order, through the first
      that finishes the response. */
  lemma {:induction false} PrintedEventsReadBack(decode: Decoder, payloads: seq<Bytes>, end: End, terminal: bool)
    requires forall p <- payloads :: Printable(p)
    ensures Parse(decode, Frames(payloads), end, [], terminal) == Parsed(
      Through(decode, payloads),
      EndOf(terminal || exists e <- Through(decode, payloads) :: Terminal(decode(e)),
            AtTheEnd(end)))
  {
    if payloads == [] {
      NothingLeft(decode, end, terminal);
    } else {
      var p := payloads[0];
      PayloadStep(decode, p, Frames(payloads[1..]), end, terminal);
      BlankStep(decode, p, Frames(payloads[1..]), end, terminal);
      PrintedEventsReadBack(decode, payloads[1..], end, terminal || DeliversTerminal(decode, p));
      var before, after := Delivered(decode, p), Through(decode, payloads[1..]);
      if DeliversFinishing(decode, p) {
        assert p in [p];
      } else {
        assert forall e <- before + after :: e in before || e in after;
        assert forall e <- after :: e in before + after;
        assert forall e <- before :: e in before + after;
      }
    }
  }

  /** A `[DONE]` frame, wherever it stands, changes nothing. */
  lemma {:induction false} DoneIsIgnored(decode: Decoder, a: seq<Bytes>, b: seq<Bytes>)
    ensures Through(decode, a + [DONE] + b) == Through(decode, a + b)
  {
    if a == [] {
      assert [] + [DONE] + b == [DONE] + b && ([DONE] + b)[1..] == b && [] + b == b;
    } else {
      assert (a + [DONE] + b)[1..] == a[1..] + [DONE] + b && (a + b)[1..] == a[1..] + b;
      DoneIsIgnored(decode, a[1..], b);
    }
  }

  // ------------------------------------------------------------------ other ways to write a stream

  /** A whole line, without its end, that is not too long for its end. */
  predicate IsLine(line: Bytes, eol: Bytes) {
    && LF !in line && (eol == [LF] || eol == [CR, LF]) && |line| + |eol| <= MAX_EVENT_BYTES
    && (eol == [LF] && line != [] ==> Last(line) != CR)
  }

  lemma LineIsRead(line: Bytes, eol: Bytes, rest: Bytes, end: End)
    requires IsLine(line, eol)
    ensures NextLine(line + eol + rest, end, MAX_EVENT_BYTES) == Line(line, false, rest)
  {
    var raw := line + eol;
    assert Last(raw) == LF;
    if eol == [LF] {
      assert DropLast(raw) == line;
    } else {
      assert DropLast(raw) == line + [CR] && DropLast(line + [CR]) == line;
    }
    LineFound(raw, rest, end, MAX_EVENT_BYTES);
  }

  /** A line that is neither empty nor data, like a comment, an event name or an id, is passed over. */
  lemma OtherLinesArePassedOver(decode: Decoder, line: Bytes, eol: Bytes, rest: Bytes, end: End, data: Bytes,
                                terminal: bool)
    requires IsLine(line, eol) && line != [] && !(DATA <= line)
    ensures Parse(decode, line + eol + rest, end, data, terminal) == Parse(decode, rest, end, data, terminal)
  {
    LineIsRead(line, eol, rest, end);
    PrependNothing(Parse(decode, rest, end, data, terminal));
  }

  /** A data line makes its text pending, after a line feed when something was. */
  lemma DataLinesJoin(decode: Decoder, text: Bytes, eol: Bytes, rest: Bytes, end: End, data: Bytes, terminal: bool)
    requires IsLine(DATA + text, eol)
    ensures var part := TrimSpace(text);
      Parse(decode, DATA + text + eol + rest, end, data, terminal) ==
        if |data| + |part| + 1 > MAX_EVENT_BYTES then Parsed([], SizeExceeded)
        else Parse(decode, rest, end, if data == [] then part else data + [LF] + part, terminal)
  {
    var line := DATA + text;
    LineIsRead(line, eol, rest, end);
    DataStep(decode, text, false, rest, data, terminal);
    var part := TrimSpace(text);
    assert data == [] ==> Joined(data, part) == part;
    hide NextLine, TrimSpace, StepOf;
    PrependNothing(Parse(decode, rest, end, Joined(data, part), terminal));
  }

  lemma DataStep(decode: Decoder, text: Bytes, atEof: bool, rest: Bytes, data: Bytes, terminal: bool)
    ensures var part := TrimSpace(text);
      StepOf(decode, Line(DATA + text, atEof, rest), data, terminal) ==
        if |data| + |part| + 1 > MAX_EVENT_BYTES then Stop(Parsed([], SizeExceeded))
        else if atEof then Stop(Flushed(decode, Joined(data, part), terminal))
        else Go([], Joined(data, part), terminal)
  {
    hide TrimSpace;
    var line := DATA + text;
    assert line[..|DATA|] == DATA && line[|DATA|..] == text;
  }

  /** An empty line delivers what is pending: nothing when that is nothing, the end marker or
      not JSON; a finished or failed response ends the reading. */
  lemma EmptyLinesDeliver(decode: Decoder, eol: Bytes, rest: Bytes, end: End, data: Bytes, terminal: bool)
    requires IsLine([], eol)
    ensures Parse(decode, eol + rest, end, data, terminal) ==
      if data == [] || data == DONE || decode(data).Junk? then Parse(decode, rest, end, [], terminal)
      else match decode(data)
        case EndedEvent => Parsed([data], Clean)
        case FailedEvent => Parsed([data], Clean)
        case ErrorEvent => Prepend([data], Parse(decode, rest, end, [], true))
        case _ => Prepend([data], Parse(decode, rest, end, [], terminal))
  {
    assert [] + eol + rest == eol + rest;
    LineIsRead([], eol, rest, end);
    hide NextLine;
    PrependNothing(Parse(decode, rest, end, [], terminal));
  }

  /** At the end of the file a data line that was cut off still counts, and the event it ends is
      delivered without an empty line. */
  lemma CutOffLinesCount(decode: Decoder, text: Bytes, data: Bytes, terminal: bool)
    requires LF !in text && |DATA + text| <= MAX_EVENT_BYTES && (text != [] ==> Last(text) != CR)
    requires |data| + |TrimSpace(text)| + 1 <= MAX_EVENT_BYTES
    ensures var event := if data == [] then TrimSpace(text) else data + [LF] + TrimSpace(text);
      Parse(decode, DATA + text, Eof, data, terminal) ==
        if event == [] || event == DONE || decode(event).Junk? then Parsed([], if terminal then Clean else Closed)
        else Parsed([event], if terminal || !decode(event).OtherEvent? then Clean else Closed)
  {
    var line := DATA + text;
    assert Last(line) != LF && Last(line) != CR;
    LineAtEnd(line, Eof, MAX_EVENT_BYTES);
    DataStep(decode, text, true, [], data, terminal);
    var part := TrimSpace(text);
    assert data == [] ==> Joined(data, part) == part;
    hide NextLine, TrimSpace, StepOf;
  }

  /** And so does what is pending when the file ends in any other line. */
  lemma PendingCountsAtTheEnd(decode: Decoder, line: Bytes, data: Bytes, terminal: bool)
    requires LF !in line && |line| <= MAX_EVENT_BYTES && !(DATA <= line) && (line != [] ==> Last(line) != CR)
    ensures Parse(decode, line, Eof, data, terminal) ==
      if data == [] || data == DONE || decode(data).Junk? then Parsed([], if terminal then Clean else Closed)
      else Parsed([data], if terminal || !decode(data).OtherEvent? then Clean else Closed)
  {
    LineAtEnd(line, Eof, MAX_EVENT_BYTES);
    assert line != [] ==> Last(line) != LF;
    hide NextLine, TrimSpace;
    assert StepOf(decode, Line(line, true, []), data, terminal) == Stop(Flushed(decode, data, terminal));
  }

  /** Before any other end it is lost. */
  lemma BrokenLinesAreLost(decode: Decoder, line: Bytes, end: End, data: Bytes, terminal: bool)
    requires LF !in line && |line| <= MAX_EVENT_BYTES && end != Eof
    ensures Parse(decode, line, end, data, terminal)
         == Parsed([], if terminal then Clean else if end == Idle then TimedOut else StreamFailed)
  {
    LineAtEnd(line, end, MAX_EVENT_BYTES);
  }

  function Lines(lines: seq<Bytes>, eol: Bytes): Bytes {
    if lines == [] then [] else lines[0] + eol + Lines(lines[1..], eol)
  }

  /** A stream with CRLF line ends reads as the same stream with LF. */
  lemma {:induction false} CrlfReadsAsLf(decode: Decoder, lines: seq<Bytes>, end: End, data: Bytes, terminal: bool)
    requires forall line <- lines :: IsLine(line, [LF]) && IsLine(line, [CR, LF])
    ensures Parse(decode, Lines(lines, [CR, LF]), end, data, terminal)
         == Parse(decode, Lines(lines, [LF]), end, data, terminal)
  {
    if lines != [] {
      var line, more := lines[0], lines[1..];
      LineIsRead(line, [CR, LF], Lines(more, [CR, LF]), end);
      LineIsRead(line, [LF], Lines(more, [LF]), end);
      var step := StepOf(decode, Line(line, false, []), data, terminal);
      StepIgnoresRest(decode, line, Lines(more, [CR, LF]), data, terminal);
      StepIgnoresRest(decode, line, Lines(more, [LF]), data, terminal);
      hide NextLine, StepOf;
      if step.Go? {
        CrlfReadsAsLf(decode, more, end, step.data, step.terminal);
      }
    }
  }

  lemma StepIgnoresRest(decode: Decoder, line: Bytes, rest: Bytes, data: Bytes, terminal: bool)
    ensures StepOf(decode, Line(line, false, rest), data, terminal)
         == StepOf(decode, Line(line, false, []), data, terminal)
  {
  }

  /** More texts of one event, each after a line feed. */
  function JoinedTexts(data: Bytes, texts: seq<Bytes>): Bytes
    decreases |texts|
  {
    if texts == [] then data
    else JoinedTexts(if data == [] then texts[0] else data + [LF] + texts[0], texts[1..])
  }

  function DataLine(text: Bytes): Bytes {
    DATA + [32] + text + [LF]
  }

  lemma OneMoreLine(decode: Decoder, text: Bytes, rest: Bytes, end: End, data: Bytes, terminal: bool)
    requires Printable(text) && |data| + |text| + 1 <= MAX_EVENT_BYTES
    ensures Parse(decode, DataLine(text) + rest, end, data, terminal)
         == Parse(decode, rest, end, if data == [] then text else data + [LF] + text, terminal)
  {
    var line := DATA + ([32] + text);
    TrimmedStays(text);
    assert DATA + [32] + text == line && Last(line) == Last(text) != CR;
    hide TrimSpace, SpaceAtStart, SpaceAtEnd, Parse;
    DataLinesJoin(decode, [32] + text, [LF], rest, end, data, terminal);
  }

  function DataLines(texts: seq<Bytes>): Bytes {
    if texts == [] then [] else DataLine(texts[0]) + DataLines(texts[1..])
  }

  /** An event written over several data lines is their texts, joined by line feeds. */
  lemma {:induction false} SeveralLinesAreOneEvent(decode: Decoder, texts: seq<Bytes>, rest: Bytes, end: End,
                                                   data: Bytes, terminal: bool)
    requires forall text <- texts :: Printable(text)
    requires |data| + |DataLines(texts)| <= MAX_EVENT_BYTES
    ensures Parse(decode, DataLines(texts) + rest, end, data, terminal)
         == Parse(decode, rest, end, JoinedTexts(data, texts), terminal)
    decreases |texts|
  {
    hide Parse, Printable;
    if texts == [] {
      assert [] + rest == rest;
    } else {
      var line, more := DataLine(texts[0]), texts[1..];
      assert |line| == |texts[0]| + 7;
      assert DataLines(texts) + rest == line + (DataLines(more) + rest);
      hide DataLine;
      OneMoreLine(decode, texts[0], DataLines(more) + rest, end, data, terminal);
      var next := if data == [] then texts[0] else data + [LF] + texts[0];
      SeveralLinesAreOneEvent(decode, more, rest, end, next, terminal);
    }
  }

  // ------------------------------------------------------------------ how reading ends

  /** The transport decides: only an idle one times out, only a broken one fails, and only one
      that reached its end closes. */
  lemma {:induction false} EndingsTell(decode: Decoder, rest: Bytes, end: End, data: Bytes, terminal: bool)
    ensures var p := Parse(decode, rest, end, data, terminal);
      (p.ending == TimedOut ==> end == Idle) && (p.ending == StreamFailed ==> end == Broken) &&
      (p.ending == Closed ==> end == Eof)
    decreases |rest|
  {
    hide TrimSpace, Joined;
    var line := NextLine(rest, end, MAX_EVENT_BYTES);
    var step := StepOf(decode, line, data, terminal);
    if step.Go? {
      NextLineShrinks(rest, end, MAX_EVENT_BYTES);
      EndingsTell(decode, line.rest, end, step.data, step.terminal);
    }
  }

  lemma TrimmingShortens(s: Bytes)
    ensures |TrimSpace(s)| <= |s|
  {
  }

  lemma NextLineConsumes(rest: Bytes, end: End, limit: nat)
    ensures var line := NextLine(rest, end, limit); line.Line? && !line.atEof ==> |line.text| + |line.rest| < |rest|
    ensures |rest| <= limit ==> !NextLine(rest, end, limit).TooLong?
    ensures var line := NextLine(rest, end, limit); line.Line? ==> |line.text| <= |rest|
  {
  }

  /** A stream within the limit never exceeds it. */
  lemma {:induction false} SmallStreamsFit(decode: Decoder, rest: Bytes, end: End, data: Bytes, terminal: bool)
    requires |data| + |rest| <= MAX_EVENT_BYTES
    ensures Parse(decode, rest, end, data, terminal).ending != SizeExceeded
    decreases |rest|
  {
    var line := NextLine(rest, end, MAX_EVENT_BYTES);
    NextLineConsumes(rest, end, MAX_EVENT_BYTES);
    if line.Line? && DATA <= line.text {
      TrimmingShortens(line.text[|DATA|..]);
    }
    hide NextLine, TrimSpace;
    var step := StepOf(decode, line, data, terminal);
    if step.Go? {
      SmallStreamsFit(decode, line.rest, end, step.data, step.terminal);
    }
  }

  // ------------------------------------------------------------------ white space

  /** Unicode white space. */
  predicate WhiteSpace(c: int) {
    || 0x09 <= c <= 0x0D || c == 0x20 || c == 0x85 || c == 0xA0 || c == 0x1680 || 0x2000 <= c <= 0x200A
    || c == 0x2028 || c == 0x2029 || c == 0x202F || c == 0x205F || c == 0x3000
  }

  /** A code point in UTF-8 (section 3 of RFC 3629). */
  function Utf8(c: int): Bytes
    requires 0 <= c < 0x110000
  {
    if c < 0x80 then [c as byte]
    else if c < 0x800 then [(0xC0 + c / 0x40) as byte, (0x80 + c % 0x40) as byte]
    else if c < 0x10000 then
      [(0xE0 + c / 0x1000) as byte, (0x80 + c / 0x40 % 0x40) as byte, (0x80 + c % 0x40) as byte]
    else
      [(0xF0 + c / 0x40000) as byte, (0x80 + c / 0x1000 % 0x40) as byte, (0x80 + c / 0x40 % 0x40) as byte,
       (0x80 + c % 0x40) as byte]
  }

  /** What is trimmed off either side is Unicode white space, and all of it. */
  lemma WhiteSpaceIsTrimmed(c: int, s: Bytes)
    requires 0 <= c < 0x110000
    ensures SpaceAtStart(Utf8(c) + s) == if WhiteSpace(c) then |Utf8(c)| else 0
    ensures SpaceAtEnd(s + Utf8(c)) == if WhiteSpace(c) then |Utf8(c)| else 0
  {
    SpaceStarts(c, s);
    SpaceEnds(c, s);
  }

  lemma SpaceStarts(c: int, s: Bytes)
    requires 0 <= c < 0x110000
    ensures SpaceAtStart(Utf8(c) + s) == if WhiteSpace(c) then |Utf8(c)| else 0
  {
    var u := Utf8(c);
    assert forall i :: 0 <= i < |u| ==> (u + s)[i] == u[i];
  }

  lemma SpaceEnds(c: int, s: Bytes)
    requires 0 <= c < 0x110000
    ensures SpaceAtEnd(s + Utf8(c)) == if WhiteSpace(c) then |Utf8(c)| else 0
  {
    var u := Utf8(c);
    assert forall i :: 0 <= i < |u| ==> (s + u)[|s| + i] == u[i];
  }
}
