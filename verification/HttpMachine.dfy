/**
 The response half of the parser as a machine that eats one byte at a time.

 `Switch` is the `switch (state)` of `http_parser_execute` for the states that handle one
 character; what it does to the data marks is left to its caller as an `Op`. `Step` adds the
 body states and reports every byte of data on its own. `Run` is `Step` over a string: the
 simple form that the buffered parser in HttpParser.dfy refines.
 */
module HttpMachine {
  import opened Octets
  import opened HttpEvents

  const MAX_HEADER_SIZE: nat := 80 * 1024

  datatype State =
    | Dead
    | StartRes
    | ResH | ResHT | ResHTT | ResHTTP
    | ResFirstMajor | ResMajor | ResFirstMinor | ResMinor
    | ResFirstStatusCode | ResStatusCode | ResStatus | ResLineAlmostDone
    | HeaderFieldStart | HeaderField | HeaderValueStart | HeaderValue
    | HeaderAlmostDone | HeadersAlmostDone
    | ChunkSizeStart | ChunkSize | ChunkSizeAlmostDone | ChunkParameters
    | ChunkData | ChunkDataAlmostDone | ChunkDataDone
    | BodyIdentity | BodyIdentityEof

  /** The states in which a mark is set. */
  predicate Marking(s: State) { s == HeaderField || s == HeaderValue }

  /** The states in which the stream may end. */
  predicate AtRest(s: State) { s == BodyIdentityEof || s == Dead || s == StartRes }

  datatype HeaderState =
    | General
    | C | CO | CON
    | MatchingConnection | MatchingProxyConnection | MatchingContentLength
    | MatchingTransferEncoding | MatchingUpgrade
    | Connection | ContentLength | TransferEncoding | Upgrade
    | MatchingChunked | MatchingKeepAlive | MatchingClose
    | Chunked | KeepAlive | Close

  datatype Flags = Flags(chunked: bool, keepAlive: bool, close: bool,
                         trailing: bool, upgrade: bool, skipBody: bool)

  const NO_FLAGS := Flags(false, false, false, false, false, false)

  /** The fields of `struct http_parser` that a response parser uses. */
  datatype Machine = Machine(
    state: State, hstate: HeaderState, index: nat, nread: nat,
    flags: Flags, contentLength: int, major: nat, minor: nat, status: nat, upgrade: bool)
  {
    /** `http_should_keep_alive` */
    predicate ShouldKeepAlive() {
      if major > 0 && minor > 0 then !flags.close else flags.keepAlive
    }

    /** `NEW_MESSAGE()` in strict mode */
    function NewMessage(): State {
      if ShouldKeepAlive() then StartRes else Dead
    }

    predicate BodyState() {
      match state
      case ChunkSizeStart | ChunkSize | ChunkSizeAlmostDone | ChunkParameters | ChunkData
         | ChunkDataAlmostDone | ChunkDataDone | BodyIdentity | BodyIdentityEof => true
      case _ => false
    }

    /** The `PARSING_HEADER` macro: these bytes count towards the header size limit. */
    predicate ParsingHeader() {
      !BodyState() && !flags.trailing
    }

    /** The three states in which the parser copies body bytes in bulk. */
    predicate BulkState() {
      state == ChunkData || state == BodyIdentity || state == BodyIdentityEof
    }

    function Completion(): Event { MessageComplete(ShouldKeepAlive()) }
  }

  /** A parser after `http_parser_init(p, HTTP_RESPONSE)` on zeroed memory. */
  const INITIAL := Machine(StartRes, General, 0, 0, NO_FLAGS, 0, 0, 0, 0, false)

  /** What one character does to the data marks and which callbacks it makes. */
  datatype Op =
    | Nothing
    | MarkField | MarkValue
    | FlushField | FlushValue
    | MarkFlushValue
    | Notify(events: seq<Event>)

  datatype Verdict =
    | Next(m: Machine, op: Op)
    | Error(m: Machine, op: Op)
    | Handover(m: Machine, op: Op)  // the rest of the stream is another protocol
    | AssertFailed

  function Counted(m: Machine): Machine {
    if m.ParsingHeader() then m.(nread := m.nread + 1) else m
  }

  function Switch(skip: bool, m0: Machine, ch: char): Verdict
    requires !m0.BulkState()
  {
    var m := Counted(m0);
    if m0.ParsingHeader() && m.nread > MAX_HEADER_SIZE then Error(m, Nothing)
    else match m.state
      case Dead => Error(m, Nothing)
      case StartRes => StartLine(m, ch)
      case ResH => Literal(m, ch, 'T', ResHT)
      case ResHT => Literal(m, ch, 'T', ResHTT)
      case ResHTT => Literal(m, ch, 'P', ResHTTP)
      case ResHTTP => Literal(m, ch, '/', ResFirstMajor)
      case ResFirstMajor => FirstMajor(m, ch)
      case ResMajor => Major(m, ch)
      case ResFirstMinor => FirstMinor(m, ch)
      case ResMinor => Minor(m, ch)
      case ResFirstStatusCode => FirstStatusCode(m, ch)
      case ResStatusCode => StatusCode(m, ch)
      case ResStatus => Reason(m, ch)
      case ResLineAlmostDone => Literal(m, ch, LF, HeaderFieldStart)
      case HeaderFieldStart => FieldStart(skip, m, ch)
      case HeaderField => FieldChar(m, ch)
      case HeaderValueStart => ValueStart(m, ch)
      case HeaderValue => ValueChar(m, ch)
      case HeaderAlmostDone => LineEnd(m, ch, Nothing)
      case HeadersAlmostDone => BlockEnd(skip, m, ch)
      case ChunkSizeStart | ChunkSize | ChunkParameters | ChunkSizeAlmostDone
         | ChunkDataAlmostDone | ChunkDataDone => ChunkChar(m, ch)
      case ChunkData | BodyIdentity | BodyIdentityEof => AssertFailed
  }

  function StartLine(m0: Machine, ch: char): Verdict {
    var m := m0.(flags := NO_FLAGS, contentLength := -1);
    if ch == 'H' then Next(m.(state := ResH), Notify([Begin]))
    else if ch == CR || ch == LF then Next(m, Notify([Begin]))
    else Error(m, Notify([Begin]))
  }

  function Literal(m: Machine, ch: char, expected: char, next: State): Verdict {
    if ch == expected then Next(m.(state := next), Nothing) else Error(m, Nothing)
  }

  function FirstMajor(m: Machine, ch: char): Verdict {
    if ch < '1' || ch > '9' then Error(m, Nothing)
    else Next(m.(major := DigitOf(ch), state := ResMajor), Nothing)
  }

  function Major(m: Machine, ch: char): Verdict {
    if ch == '.' then Next(m.(state := ResFirstMinor), Nothing)
    else if !IsDigit(ch) then Error(m, Nothing)
    else
      var v := m.major * 10 + DigitOf(ch);
      if v > 999 then Error(m.(major := v), Nothing) else Next(m.(major := v), Nothing)
  }

  function FirstMinor(m: Machine, ch: char): Verdict {
    if !IsDigit(ch) then Error(m, Nothing)
    else Next(m.(minor := DigitOf(ch), state := ResMinor), Nothing)
  }

  function Minor(m: Machine, ch: char): Verdict {
    if ch == ' ' then Next(m.(state := ResFirstStatusCode), Nothing)
    else if !IsDigit(ch) then Error(m, Nothing)
    else
      var v := m.minor * 10 + DigitOf(ch);
      if v > 999 then Error(m.(minor := v), Nothing) else Next(m.(minor := v), Nothing)
  }

  function FirstStatusCode(m: Machine, ch: char): Verdict {
    if IsDigit(ch) then Next(m.(status := DigitOf(ch), state := ResStatusCode), Nothing)
    else if ch == ' ' then Next(m, Nothing)
    else Error(m, Nothing)
  }

  function StatusCode(m: Machine, ch: char): Verdict {
    if IsDigit(ch) then
      var v := m.status * 10 + DigitOf(ch);
      if v > 999 then Error(m.(status := v), Nothing) else Next(m.(status := v), Nothing)
    else if ch == ' ' then Next(m.(state := ResStatus), Nothing)
    else if ch == CR then Next(m.(state := ResLineAlmostDone), Nothing)
    else if ch == LF then Next(m.(state := HeaderFieldStart), Nothing)
    else Error(m, Nothing)
  }

  function Reason(m: Machine, ch: char): Verdict {
    if ch == CR then Next(m.(state := ResLineAlmostDone), Nothing)
    else if ch == LF then Next(m.(state := HeaderFieldStart), Nothing)
    else Next(m, Nothing)
  }

  function FieldStart(skip: bool, m: Machine, ch: char): Verdict {
    if ch == CR then Next(m.(state := HeadersAlmostDone), Nothing)
    else if ch == LF then BlockEnd(skip, m.(state := HeadersAlmostDone), ch)
    else
      var c := Token(ch);
      if c == NUL then Error(m, Nothing)
      else
        var h := if c == 'c' then C
                 else if c == 'p' then MatchingProxyConnection
                 else if c == 't' then MatchingTransferEncoding
                 else if c == 'u' then MatchingUpgrade
                 else General;
        Next(m.(index := 0, state := HeaderField, hstate := h), MarkField)
  }

  /** One more character of a word that is being matched at `m.index`. */
  function Match(m0: Machine, c: char, word: string, done: HeaderState): Machine {
    var m := m0.(index := m0.index + 1);
    if m.index > |word| || c != CharAt(word, m.index) then m.(hstate := General)
    else if m.index == |word| - 1 then m.(hstate := done)
    else m
  }

  /** A token character `c` (lower case of `ch`) inside a field name. */
  function NameChar(m: Machine, ch: char, c: char): Verdict {
    match m.hstate
    case General => Next(m, Nothing)
    case C => Next(m.(index := m.index + 1, hstate := if c == 'o' then CO else General), Nothing)
    case CO => Next(m.(index := m.index + 1, hstate := if c == 'n' then CON else General), Nothing)
    case CON =>
      var h := if c == 'n' then MatchingConnection
               else if c == 't' then MatchingContentLength
               else General;
      Next(m.(index := m.index + 1, hstate := h), Nothing)
    case MatchingConnection => Next(Match(m, c, "connection", Connection), Nothing)
    case MatchingProxyConnection => Next(Match(m, c, "proxy-connection", Connection), Nothing)
    case MatchingContentLength => Next(Match(m, c, "content-length", ContentLength), Nothing)
    case MatchingTransferEncoding => Next(Match(m, c, "transfer-encoding", TransferEncoding), Nothing)
    case MatchingUpgrade => Next(Match(m, c, "upgrade", Upgrade), Nothing)
    case Connection | ContentLength | TransferEncoding | Upgrade =>
      Next(if ch != ' ' then m.(hstate := General) else m, Nothing)
    case _ => AssertFailed
  }

  function FieldChar(m: Machine, ch: char): Verdict {
    if Token(ch) != NUL then NameChar(m, ch, Token(ch))
    else if ch == ':' then Next(m.(state := HeaderValueStart), FlushField)
    else if ch == CR then Next(m.(state := HeaderAlmostDone), FlushField)
    else if ch == LF then Next(m.(state := HeaderFieldStart), FlushField)
    else Error(m, Nothing)
  }

  function ValueStart(m0: Machine, ch: char): Verdict {
    if ch == ' ' then Next(m0, Nothing)
    else
      var m := m0.(state := HeaderValue, index := 0);
      var c := OrBit5(ch);
      if ch == CR then Next(m.(hstate := General, state := HeaderAlmostDone), MarkFlushValue)
      else if ch == LF then Next(m.(state := HeaderFieldStart), MarkFlushValue)
      else match m.hstate
        case Upgrade =>
          Next(m.(flags := m.flags.(upgrade := true), hstate := General), MarkValue)
        case TransferEncoding =>
          Next(m.(hstate := if c == 'c' then MatchingChunked else General), MarkValue)
        case ContentLength =>
          if !IsDigit(ch) then Error(m, Nothing)
          else Next(m.(contentLength := DigitOf(ch)), MarkValue)
        case Connection =>
          Next(m.(hstate := if c == 'k' then MatchingKeepAlive
                            else if c == 'c' then MatchingClose
                            else General), MarkValue)
        case _ => Next(m.(hstate := General), MarkValue)
  }

  function ValueChar(m: Machine, ch: char): Verdict {
    var c := OrBit5(ch);
    if ch == CR then Next(m.(state := HeaderAlmostDone), FlushValue)
    else if ch == LF then LineEnd(m, ch, FlushValue)
    else match m.hstate
      case General => Next(m, Nothing)
      case Connection | TransferEncoding => AssertFailed
      case ContentLength =>
        if ch == ' ' then Next(m, Nothing)
        else if !IsDigit(ch) then Error(m, Nothing)
        else Next(m.(contentLength := m.contentLength * 10 + DigitOf(ch)), Nothing)
      case MatchingChunked => Next(Match(m, c, "chunked", Chunked), Nothing)
      case MatchingKeepAlive => Next(Match(m, c, "keep-alive", KeepAlive), Nothing)
      case MatchingClose => Next(Match(m, c, "close", Close), Nothing)
      case Chunked | KeepAlive | Close =>
        Next(if ch != ' ' then m.(hstate := General) else m, Nothing)
      case _ => Next(m.(hstate := General), Nothing)
  }

  /** The flag that the last sub-state of a value sets at the end of its line. */
  function ClosedFlags(h: HeaderState, f: Flags): Flags {
    match h
    case KeepAlive => f.(keepAlive := true)
    case Close => f.(close := true)
    case Chunked => f.(chunked := true)
    case _ => f
  }

  /** `header_almost_done`: the line feed that ends a header line. */
  function LineEnd(m0: Machine, ch: char, op: Op): Verdict {
    if ch != LF then Error(m0, op)
    else Next(m0.(state := HeaderFieldStart, flags := ClosedFlags(m0.hstate, m0.flags)), op)
  }

  /** `headers_almost_done`: the line feed that ends a header block or the trailer. */
  function BlockEnd(skip: bool, m0: Machine, ch: char): Verdict {
    if ch != LF then Error(m0, Nothing)
    else if m0.flags.trailing then
      Next(m0.(state := m0.NewMessage()), Notify([m0.Completion()]))
    else
      var m := m0.(nread := 0,
                   upgrade := m0.upgrade || m0.flags.upgrade,
                   flags := m0.flags.(skipBody := m0.flags.skipBody || skip));
      var done := HeadersComplete(m.major, m.minor, m.status, m.ShouldKeepAlive());
      if m.upgrade then Handover(m, Notify([done, m.Completion()]))
      else if m.flags.skipBody then
        Next(m.(state := m.NewMessage()), Notify([done, m.Completion()]))
      else if m.flags.chunked then Next(m.(state := ChunkSizeStart), Notify([done]))
      else if m.contentLength == 0 then
        Next(m.(state := m.NewMessage()), Notify([done, m.Completion()]))
      else if m.contentLength > 0 then Next(m.(state := BodyIdentity), Notify([done]))
      else if m.ShouldKeepAlive() then
        Next(m.(state := m.NewMessage()), Notify([done, m.Completion()]))
      else Next(m.(state := BodyIdentityEof), Notify([done]))
  }

  function ChunkChar(m: Machine, ch: char): Verdict {
    if !m.flags.chunked then AssertFailed
    else match m.state
      case ChunkSizeStart =>
        var c := Unhex(ch);
        if c == -1 then Error(m, Nothing)
        else Next(m.(contentLength := c, state := ChunkSize), Nothing)
      case ChunkSize =>
        var c := Unhex(ch);
        if ch == CR then Next(m.(state := ChunkSizeAlmostDone), Nothing)
        else if c != -1 then Next(m.(contentLength := m.contentLength * 16 + c), Nothing)
        else if ch == ';' || ch == ' ' then Next(m.(state := ChunkParameters), Nothing)
        else Error(m, Nothing)
      case ChunkParameters =>
        Next(if ch == CR then m.(state := ChunkSizeAlmostDone) else m, Nothing)
      case ChunkSizeAlmostDone =>
        if ch != LF then Error(m, Nothing)
        else if m.contentLength == 0 then
          Next(m.(flags := m.flags.(trailing := true), state := HeaderFieldStart), Nothing)
        else Next(m.(state := ChunkData), Nothing)
      case ChunkDataAlmostDone => Literal(m, ch, CR, ChunkDataDone)
      case ChunkDataDone => Literal(m, ch, LF, ChunkSizeStart)
      case _ => AssertFailed
  }

  // ----- one byte at a time

  datatype Why = Malformed | SwitchedProtocol | Assertion

  datatype Result =
    | Live(m: Machine, out: seq<Event>)
    | Stopped(why: Why, at: nat, m: Machine, out: seq<Event>)

  /** The events of one character when data is reported byte by byte. */
  function Emitted(op: Op, after: State, ch: char): seq<Event> {
    match op
    case Notify(es) => es
    case FlushField => [Data(Field, [])]
    case FlushValue => [Data(Value, [])]
    case MarkFlushValue => [Data(Value, [])]
    case _ =>
      if after == HeaderField then [Data(Field, [ch])]
      else if after == HeaderValue then [Data(Value, [ch])]
      else []
  }

  /** Events that were delivered before the parser gave up on this character. */
  function EmittedBeforeError(op: Op): seq<Event> {
    if op.Notify? then op.events else []
  }

  /**
   A bulk state given exactly one byte. An empty piece of body data marks the end of a chunk, as
   an empty piece of a field or value marks the end of that.
   */
  function BodyByte(m: Machine, ch: char): Result
    requires m.BulkState()
  {
    var b := [Data(Body, [ch])];
    if m.state == BodyIdentityEof then Live(m, b)
    else if m.state == BodyIdentity then
      if m.contentLength <= 0 then Live(m, [])
      else if m.contentLength == 1 then
        var m1 := m.(contentLength := 0);
        Live(m1.(state := m1.NewMessage()), b + [m1.Completion()])
      else Live(m.(contentLength := m.contentLength - 1), b)
    else
      if !m.flags.chunked then Stopped(Assertion, 0, m, [])
      else if m.contentLength <= 0 then Live(m.(state := ChunkDataAlmostDone, contentLength := 0), [])
      else if m.contentLength == 1 then
        Live(m.(state := ChunkDataAlmostDone, contentLength := 0), b + [Data(Body, [])])
      else Live(m.(contentLength := m.contentLength - 1), b)
  }

  /** A verdict on one character, as a result. */
  function Report(m: Machine, v: Verdict, ch: char): Result {
    match v
    case Next(m1, op) => Live(m1, Emitted(op, m1.state, ch))
    case Error(m1, op) => Stopped(Malformed, 0, m1, EmittedBeforeError(op))
    case Handover(m1, op) => Stopped(SwitchedProtocol, 0, m1, EmittedBeforeError(op))
    case AssertFailed => Stopped(Assertion, 0, m, [])
  }

  function Step(skip: bool, m: Machine, ch: char): Result {
    if m.BulkState() then BodyByte(m, ch) else Report(m, Switch(skip, m, ch), ch)
  }

  /** The parser fed one byte at a time: where it stops, or its fields and callbacks so far. */
  function Run(skip: bool, m: Machine, data: string): Result {
    if data == [] then Live(m, [])
    else match Run(skip, m, data[..|data|-1])
      case Live(m1, out) => After(out, |data| - 1, Step(skip, m1, data[|data|-1]))
      case stopped => stopped
  }

  /** `r`, which happened after `n` bytes had caused the events `out`. */
  function After(out: seq<Event>, n: nat, r: Result): Result {
    match r
    case Live(m, more) => Live(m, out + more)
    case Stopped(why, at, m, more) => Stopped(why, n + at, m, out + more)
  }

  /** What follows once `r` has happened: nothing after a stop, else `data`. */
  function Then(skip: bool, r: Result, n: nat, data: string): Result {
    match r
    case Live(m, out) => After(out, n, Run(skip, m, data))
    case stopped => stopped
  }

  lemma AfterAfter(out: seq<Event>, n: nat, out': seq<Event>, n': nat, r: Result)
    ensures After(out, n, After(out', n', r)) == After(out + out', n + n', r)
  {
    assert out + (out' + r.out) == (out + out') + r.out;
  }

  lemma AfterNothing(r: Result)
    ensures After([], 0, r) == r
  {
    assert [] + r.out == r.out;
  }

  lemma RunEmpty(skip: bool, m: Machine)
    ensures Run(skip, m, []) == Live(m, [])
  {}

  lemma RunSnoc(skip: bool, m: Machine, data: string, ch: char)
    ensures Run(skip, m, data + [ch]) ==
            match Run(skip, m, data)
            case Live(m1, out) => After(out, |data|, Step(skip, m1, ch))
            case stopped => stopped
  {
    assert (data + [ch])[..|data + [ch]|-1] == data;
  }

  lemma RunOne(skip: bool, m: Machine, ch: char)
    ensures Run(skip, m, [ch]) == Step(skip, m, ch)
  {
    RunSnoc(skip, m, [], ch);
    assert [] + [ch] == [ch];
    AfterNothing(Step(skip, m, ch));
  }

  /** Feeding a + b is feeding a and then b: the byte-at-a-time form of split independence. */
  lemma {:induction false} RunConcat(skip: bool, m: Machine, a: string, b: string)
    ensures Run(skip, m, a + b) == Then(skip, Run(skip, m, a), |a|, b)
    decreases |b|
  {
    hide Step;
    var first := Run(skip, m, a);
    if b == [] {
      assert a + b == a;
      if first.Live? {
        assert first.out + [] == first.out;
      }
    } else {
      var b1, ch := b[..|b|-1], b[|b|-1];
      assert b == b1 + [ch];
      assert a + b == (a + b1) + [ch];
      RunConcat(skip, m, a, b1);
      RunSnoc(skip, m, a + b1, ch);
      if first.Live? {
        RunSnoc(skip, first.m, b1, ch);
        var second := Run(skip, first.m, b1);
        if second.Live? {
          AfterAfter(first.out, |a|, second.out, |b1|, Step(skip, second.m, ch));
        }
      }
    }
  }
}
