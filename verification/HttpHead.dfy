/**
 The head of a response: status line and header block, and how its end decides where the body ends.
 */
module HttpHead {
  import opened Octets
  import opened HttpEvents
  import opened HttpMachine
  import opened HttpLines
  import opened Options

  datatype StatusLine = StatusLine(major: string, minor: string, spaces: nat, status: string,
                                   reason: Option<string>, crlf: bool)

  function ReasonText(reason: Option<string>): string {
    if reason.None? then "" else " " + reason.value
  }

  function StatusText(l: StatusLine): string {
    "HTTP/" + l.major + "." + l.minor + " " + Spaces(l.spaces) + l.status
    + ReasonText(l.reason) + EndOfLine(l.crlf)
  }

  /** A decimal number of at most 999. */
  predicate NumberOk(s: string) {
    s != [] && AllDigits(s) && DecimalValue(s) <= 999
  }

  ghost predicate StatusLineOk(l: StatusLine) {
    && NumberOk(l.major) && l.major[0] != '0'
    && NumberOk(l.minor) && NumberOk(l.status)
    && (l.reason.Some? ==> PlainText(l.reason.value))
  }

  lemma ByteInStatusLine(skip: bool, m: Machine, ch: char)
    requires m.ParsingHeader() && Room(m, 1)
    ensures var n := Advanced(m, 1); var r := Step(skip, m, ch);
      && (m.state == StartRes ==> r == Report(m, StartLine(n, ch), ch))
      && (m.state == ResH ==> r == Report(m, Literal(n, ch, 'T', ResHT), ch))
      && (m.state == ResHT ==> r == Report(m, Literal(n, ch, 'T', ResHTT), ch))
      && (m.state == ResHTT ==> r == Report(m, Literal(n, ch, 'P', ResHTTP), ch))
      && (m.state == ResHTTP ==> r == Report(m, Literal(n, ch, '/', ResFirstMajor), ch))
      && (m.state == ResFirstMajor ==> r == Report(m, FirstMajor(n, ch), ch))
      && (m.state == ResMajor ==> r == Report(m, Major(n, ch), ch))
      && (m.state == ResFirstMinor ==> r == Report(m, FirstMinor(n, ch), ch))
      && (m.state == ResMinor ==> r == Report(m, Minor(n, ch), ch))
      && (m.state == ResFirstStatusCode ==> r == Report(m, FirstStatusCode(n, ch), ch))
      && (m.state == ResStatusCode ==> r == Report(m, StatusCode(n, ch), ch))
      && (m.state == ResStatus ==> r == Report(m, Reason(n, ch), ch))
      && (m.state == ResLineAlmostDone ==> r == Report(m, Literal(n, ch, LF, HeaderFieldStart), ch))
  {
    hide StartLine, Literal, FirstMajor, Major, FirstMinor, Minor, FirstStatusCode, StatusCode, Reason, Report,
         FieldStart, FieldChar, ValueStart, ValueChar, LineEnd, BlockEnd, ChunkChar;
  }

  /** The status line has been started: the fields of the last message are gone. */
  function Fresh(m: Machine): Machine {
    Counted(m).(flags := NO_FLAGS, contentLength := -1, state := ResH)
  }

  lemma FirstByte(skip: bool, m: Machine)
    requires m.state == StartRes && Room(m, 1)
    ensures Goes(skip, m, "H", Fresh(m), [Begin])
  {
    RunOne(skip, m, 'H');
    hide Run;
  }

  /** One more byte of the status line. */
  lemma StatusByte(skip: bool, m: Machine, a: string, m1: Machine, ch: char, m2: Machine)
    requires Goes(skip, m, a, m1, []) && m1.ParsingHeader() && Room(m1, 1)
    requires !Marking(m2.state) && Step(skip, m1, ch) == Report(m1, Next(m2, Nothing), ch)
    ensures Goes(skip, m, a + [ch], m2, [])
  {
    RunSnoc(skip, m, a, ch);
    assert [] + Emitted(Nothing, m2.state, ch) == [];
    hide Step, Run;
  }

  lemma ProtocolStart(skip: bool, m: Machine)
    requires m.state == ResH && m.ParsingHeader() && Room(m, 4)
    ensures Goes(skip, m, "TT", Advanced(m, 2).(state := ResHTT), [])
  {
    hide Step, Run, Goes;
    GoesNowhere(skip, m);
    var m1 := Advanced(m, 1).(state := ResHT);
    ByteInStatusLine(skip, m, 'T');
    StatusByte(skip, m, [], m, 'T', m1);
    ByteInStatusLine(skip, m1, 'T');
    assert [] + ['T'] == "T" && "T" + ['T'] == "TT";
    StatusByte(skip, m, "T", m1, 'T', Advanced(m, 2).(state := ResHTT));
  }

  lemma GoesNowhere(skip: bool, m: Machine)
    ensures Goes(skip, m, [], m, [])
  {
    hide Step;
    RunEmpty(skip, m);
  }

  lemma ProtocolName(skip: bool, m: Machine)
    requires m.state == ResH && m.ParsingHeader() && Room(m, 4)
    ensures Goes(skip, m, "TTP/", Advanced(m, 4).(state := ResFirstMajor), [])
  {
    hide Step, Run, Goes;
    ProtocolStart(skip, m);
    var m2 := Advanced(m, 2).(state := ResHTT);
    var m3 := Advanced(m, 3).(state := ResHTTP);
    ByteInStatusLine(skip, m2, 'P');
    StatusByte(skip, m, "TT", m2, 'P', m3);
    ByteInStatusLine(skip, m3, '/');
    assert "TT" + ['P'] == "TTP" && "TTP" + ['/'] == "TTP/";
    StatusByte(skip, m, "TTP", m3, '/', Advanced(m, 4).(state := ResFirstMajor));
  }

  lemma DigitsInit(s: string)
    requires AllDigits(s) && s != []
    ensures AllDigits(s[..|s|-1]) && IsDigit(s[|s|-1])
  {
    assert forall c :: c in s[..|s|-1] ==> c in s;
    assert s[|s|-1] in s;
  }

  /** The three numbers of a status line are read by the same rule into different fields. */
  datatype Number = MajorNumber | MinorNumber | StatusNumber

  function FirstState(k: Number): State {
    match k case MajorNumber => ResFirstMajor case MinorNumber => ResFirstMinor case StatusNumber => ResFirstStatusCode
  }

  function WithNumber(k: Number, m: Machine, v: nat): Machine {
    match k
    case MajorNumber => m.(state := ResMajor, major := v)
    case MinorNumber => m.(state := ResMinor, minor := v)
    case StatusNumber => m.(state := ResStatusCode, status := v)
  }

  function NumberState(k: Number): State {
    match k case MajorNumber => ResMajor case MinorNumber => ResMinor case StatusNumber => ResStatusCode
  }

  lemma FirstDigit(skip: bool, k: Number, m: Machine, ch: char)
    requires m.state == FirstState(k) && m.ParsingHeader() && Room(m, 1)
    requires IsDigit(ch) && (k == MajorNumber ==> ch != '0')
    ensures Step(skip, m, ch) == Report(m, Next(WithNumber(k, Advanced(m, 1), DigitOf(ch)), Nothing), ch)
  {
    hide Step, Report;
    ByteInStatusLine(skip, m, ch);
  }

  lemma NextDigit(skip: bool, k: Number, m0: Machine, v: nat, ch: char)
    requires m0.ParsingHeader() && Room(m0, 1) && m0.state == NumberState(k) && m0 == WithNumber(k, m0, v)
    requires IsDigit(ch) && 10 * v + DigitOf(ch) <= 999
    ensures Step(skip, m0, ch) == Report(m0, Next(WithNumber(k, Advanced(m0, 1), 10 * v + DigitOf(ch)), Nothing), ch)
  {
    hide Step, Report;
    ByteInStatusLine(skip, m0, ch);
  }

  lemma {:induction false} NumberRun(skip: bool, k: Number, m: Machine, s: string)
    requires m.state == FirstState(k) && m.ParsingHeader() && NumberOk(s) && Room(m, |s|)
    requires k == MajorNumber ==> s[0] != '0'
    ensures Goes(skip, m, s, WithNumber(k, Advanced(m, |s|), DecimalValue(s)), [])
    decreases |s|
  {
    hide Step, Run, Goes, Report, DecimalValue, AllDigits;
    var init, ch := s[..|s|-1], s[|s|-1];
    assert s == init + [ch];
    DigitsInit(s);
    DecimalSnoc(init, ch);
    if init == [] {
      GoesNowhere(skip, m);
      NoDecimal();
      assert [] + [ch] == s;
      FirstDigit(skip, k, m, ch);
      StatusByte(skip, m, [], m, ch, WithNumber(k, Advanced(m, 1), DigitOf(ch)));
    } else {
      assert init[0] == s[0];
      NumberRun(skip, k, m, init);
      var m1 := WithNumber(k, Advanced(m, |init|), DecimalValue(init));
      NextDigit(skip, k, m1, DecimalValue(init), ch);
      StatusByte(skip, m, init, m1, ch, WithNumber(k, Advanced(m, |s|), DecimalValue(s)));
    }
  }

  lemma NoDecimal()
    ensures DecimalValue([]) == 0
  {}

  lemma {:induction false} StatusSpaces(skip: bool, m: Machine, n: nat)
    requires m.state == ResFirstStatusCode && m.ParsingHeader() && Room(m, n)
    ensures Goes(skip, m, Spaces(n), Advanced(m, n), [])
    decreases n
  {
    hide Step, Run;
    if n == 0 {
      RunEmpty(skip, m);
      assert Spaces(0) == [];
    } else {
      StatusSpaces(skip, m, n - 1);
      assert Spaces(n) == Spaces(n - 1) + [' '];
      ByteInStatusLine(skip, Advanced(m, n - 1), ' ');
      StatusByte(skip, m, Spaces(n - 1), Advanced(m, n - 1), ' ', Advanced(m, n));
    }
  }

  lemma {:induction false} ReasonRun(skip: bool, m: Machine, s: string)
    requires m.state == ResStatus && m.ParsingHeader() && PlainText(s) && Room(m, |s|)
    ensures Goes(skip, m, s, Advanced(m, |s|), [])
    decreases |s|
  {
    hide Step, Run;
    if s == [] {
      RunEmpty(skip, m);
    } else {
      var init, ch := s[..|s|-1], s[|s|-1];
      assert s == init + [ch];
      ReasonRun(skip, m, init);
      ByteInStatusLine(skip, Advanced(m, |init|), ch);
      StatusByte(skip, m, init, Advanced(m, |init|), ch, Advanced(m, |s|));
    }
  }

  lemma StatusLineEnd(skip: bool, m: Machine, crlf: bool)
    requires m.state == ResStatusCode || m.state == ResStatus
    requires m.ParsingHeader() && Room(m, |EndOfLine(crlf)|)
    ensures Goes(skip, m, EndOfLine(crlf), Advanced(m, |EndOfLine(crlf)|).(state := HeaderFieldStart), [])
  {
    hide Step, Run;
    RunEmpty(skip, m);
    if crlf {
      var m1 := Advanced(m, 1).(state := ResLineAlmostDone);
      ByteInStatusLine(skip, m, CR);
      StatusByte(skip, m, [], m, CR, m1);
      assert [] + [CR] == [CR];
      ByteInStatusLine(skip, m1, LF);
      StatusByte(skip, m, [CR], m1, LF, Advanced(m, 2).(state := HeaderFieldStart));
      assert [CR] + [LF] == EndOfLine(true);
    } else {
      ByteInStatusLine(skip, m, LF);
      StatusByte(skip, m, [], m, LF, Advanced(m, 1).(state := HeaderFieldStart));
      assert [] + [LF] == [LF];
    }
  }

  lemma Silent(skip: bool, m: Machine, a: string, m1: Machine, b: string, m2: Machine)
    requires Goes(skip, m, a, m1, []) && Goes(skip, m1, b, m2, [])
    ensures Goes(skip, m, a + b, m2, [])
  {
    Chain(skip, m, a, m1, [], b, m2, []);
  }

  /** The machine after a status line. */
  function AfterStatusLine(m: Machine, l: StatusLine): Machine
    requires StatusLineOk(l)
  {
    Advanced(Fresh(m), |StatusText(l)| - 1).(state := HeaderFieldStart, major := DecimalValue(l.major),
                                             minor := DecimalValue(l.minor), status := DecimalValue(l.status))
  }

  function VersionText(l: StatusLine): string {
    "TTP/" + l.major + "." + l.minor + " "
  }

  function AfterVersion(f: Machine, l: StatusLine): Machine
    requires StatusLineOk(l)
  {
    Advanced(f, |VersionText(l)|).(state := ResFirstStatusCode, major := DecimalValue(l.major),
                                   minor := DecimalValue(l.minor))
  }

  /** The character that ends a version number, and what comes after it. */
  function Separator(k: Number): char { if k == MajorNumber then '.' else ' ' }

  function AfterNumber(k: Number): State { if k == MajorNumber then ResFirstMinor else ResFirstStatusCode }

  lemma SeparatorByte(skip: bool, m: Machine, k: Number)
    requires k != StatusNumber && m.state == NumberState(k) && m.ParsingHeader() && Room(m, 1)
    ensures Step(skip, m, Separator(k))
      == Report(m, Next(Advanced(m, 1).(state := AfterNumber(k)), Nothing), Separator(k))
  {
    hide Step, Report;
    ByteInStatusLine(skip, m, Separator(k));
  }

  /** A version number and its separator, after `a`. */
  lemma NumberThen(skip: bool, f: Machine, a: string, m: Machine, k: Number, s: string, n: Machine)
    requires Goes(skip, f, a, m, []) && k != StatusNumber && NumberOk(s) && (k == MajorNumber ==> s[0] != '0')
    requires m.state == FirstState(k) && m.ParsingHeader() && Room(m, |s| + 1)
    requires n == WithNumber(k, Advanced(m, |s|), DecimalValue(s)) && n.ParsingHeader() && Room(n, 1)
    requires n.state == NumberState(k)
    ensures Goes(skip, f, a + s + [Separator(k)], Advanced(n, 1).(state := AfterNumber(k)), [])
  {
    hide Step, Run, Goes, DecimalValue, WithNumber, Advanced, Report;
    NumberRun(skip, k, m, s);
    Silent(skip, f, a, m, s, n);
    SeparatorByte(skip, n, k);
    StatusByte(skip, f, a + s, n, Separator(k), Advanced(n, 1).(state := AfterNumber(k)));
  }

  lemma VersionRun(skip: bool, f: Machine, l: StatusLine)
    requires f.state == ResH && f.ParsingHeader() && StatusLineOk(l) && Room(f, |VersionText(l)|)
    ensures Goes(skip, f, VersionText(l), AfterVersion(f, l), [])
  {
    hide Step, Run, Goes, DecimalValue, AllDigits;
    ProtocolName(skip, f);
    var m1 := Advanced(f, 4).(state := ResFirstMajor);
    var n1 := WithNumber(MajorNumber, Advanced(m1, |l.major|), DecimalValue(l.major));
    NumberThen(skip, f, "TTP/", m1, MajorNumber, l.major, n1);
    var a := "TTP/" + l.major + ['.'];
    var m2 := Advanced(n1, 1).(state := ResFirstMinor);
    var n2 := WithNumber(MinorNumber, Advanced(m2, |l.minor|), DecimalValue(l.minor));
    NumberThen(skip, f, a, m2, MinorNumber, l.minor, n2);
    assert a + l.minor + [' '] == VersionText(l);
  }

  function CodeText(l: StatusLine): string {
    Spaces(l.spaces) + l.status + ReasonText(l.reason) + EndOfLine(l.crlf)
  }

  lemma CodeRun(skip: bool, m: Machine, l: StatusLine)
    requires m.state == ResFirstStatusCode && m.ParsingHeader() && StatusLineOk(l) && Room(m, |CodeText(l)|)
    ensures Goes(skip, m, CodeText(l),
                 Advanced(m, |CodeText(l)|).(state := HeaderFieldStart, status := DecimalValue(l.status)), [])
  {
    hide Step, Run, Goes, DecimalValue, AllDigits;
    StatusSpaces(skip, m, l.spaces);
    var m1 := Advanced(m, l.spaces);
    NumberRun(skip, StatusNumber, m1, l.status);
    var m2 := WithNumber(StatusNumber, Advanced(m1, |l.status|), DecimalValue(l.status));
    Silent(skip, m, Spaces(l.spaces), m1, l.status, m2);
    var m3 := StatusTail(skip, m, Spaces(l.spaces) + l.status, m2, l);
    var e := Spaces(l.spaces) + l.status + ReasonText(l.reason);
    StatusLineEnd(skip, m3, l.crlf);
    Silent(skip, m, e, m3, EndOfLine(l.crlf), Advanced(m3, |EndOfLine(l.crlf)|).(state := HeaderFieldStart));
  }

  lemma StatusTextParts(l: StatusLine)
    ensures StatusText(l) == "H" + (VersionText(l) + CodeText(l))
  {}

  /** Every well-formed status line is read into the three numbers it writes. */
  lemma StatusLineRun(skip: bool, m: Machine, l: StatusLine)
    requires m.state == StartRes && StatusLineOk(l) && Room(Fresh(m), |StatusText(l)| - 1) && Room(m, 1)
    ensures Goes(skip, m, StatusText(l), AfterStatusLine(m, l), [Begin])
  {
    StatusTextParts(l);
    hide Step, Run, Goes, DecimalValue, AllDigits, StatusText, VersionText, CodeText;
    var f := Fresh(m);
    FirstByte(skip, m);
    VersionRun(skip, f, l);
    CodeRun(skip, AfterVersion(f, l), l);
    Silent(skip, f, VersionText(l), AfterVersion(f, l), CodeText(l), AfterStatusLine(m, l));
    Chain(skip, m, "H", f, [Begin], VersionText(l) + CodeText(l), AfterStatusLine(m, l), []);
    assert [Begin] + [] == [Begin];
  }

  /** The optional reason phrase. */
  lemma StatusTail(skip: bool, f: Machine, d: string, m: Machine, l: StatusLine) returns (m1: Machine)
    requires m.state == ResStatusCode && m.ParsingHeader() && Room(m, |ReasonText(l.reason)|)
    requires Goes(skip, f, d, m, []) && (l.reason.Some? ==> PlainText(l.reason.value))
    ensures Goes(skip, f, d + ReasonText(l.reason), m1, [])
    ensures m1 == Advanced(m, |ReasonText(l.reason)|).(state := m1.state)
    ensures m1.state == ResStatusCode || m1.state == ResStatus
  {
    hide Step, Run, Goes;
    if l.reason.None? {
      assert d + [] == d;
      m1 := m;
    } else {
      var m2 := Advanced(m, 1).(state := ResStatus);
      ByteInStatusLine(skip, m, ' ');
      StatusByte(skip, f, d, m, ' ', m2);
      ReasonRun(skip, m2, l.reason.value);
      m1 := Advanced(m2, |l.reason.value|);
      Silent(skip, f, d + [' '], m2, l.reason.value, m1);
      assert d + [' '] + l.reason.value == d + ReasonText(l.reason);
    }
  }

  // ----- header blocks

  function BlockText(hs: seq<Header>): string {
    if hs == [] then [] else BlockText(hs[..|hs|-1]) + LineText(hs[|hs|-1])
  }

  function BlockEvents(hs: seq<Header>): seq<Event> {
    if hs == [] then [] else BlockEvents(hs[..|hs|-1]) + LineEvents(hs[|hs|-1])
  }

  /** The headers of a block, applied in order. */
  function ApplyBlock(s: Meaning, hs: seq<Header>): Option<Meaning> {
    if hs == [] then Some(s)
    else match ApplyBlock(s, hs[..|hs|-1])
      case Some(s1) => ApplyHeader(s1, hs[|hs|-1].name, hs[|hs|-1].value)
      case None => None
  }

  lemma {:induction false} BlockRun(skip: bool, m: Machine, hs: seq<Header>)
    requires m.state == HeaderFieldStart && Room(m, |BlockText(hs)|)
    requires forall h :: h in hs ==> HeaderOk(h)
    requires ApplyBlock(MeaningOf(m), hs).Some?
    ensures var r := Run(skip, m, BlockText(hs)); var s := ApplyBlock(MeaningOf(m), hs).value;
      && r.Live? && r.out == BlockEvents(hs)
      && r.m == Advanced(m, |BlockText(hs)|).(hstate := r.m.hstate, index := r.m.index,
                                              flags := s.flags, contentLength := s.contentLength)
      && s.flags.trailing == m.flags.trailing
    decreases |hs|
  {
    hide Step, Run, ApplyHeader;
    if hs == [] {
      RunEmpty(skip, m);
    } else {
      var init, h := hs[..|hs|-1], hs[|hs|-1];
      assert forall g :: g in init ==> g in hs;
      assert h in hs;
      BlockRun(skip, m, init);
      var m1 := Run(skip, m, BlockText(init)).m;
      HeaderKeepsTrailing(MeaningOf(m1), h);
      HeaderLine(skip, m1, h);
      Chain(skip, m, BlockText(init), m1, BlockEvents(init),
            LineText(h), Run(skip, m1, LineText(h)).m, LineEvents(h));
    }
  }

  lemma HeaderKeepsTrailing(s: Meaning, h: Header)
    ensures var r := ApplyHeader(s, h.name, h.value);
            r.Some? ==> && r.value.flags.trailing == s.flags.trailing
                        && r.value.flags.skipBody == s.flags.skipBody
                        && (s.flags.chunked ==> r.value.flags.chunked)
                        && (s.contentLength >= -1 ==> r.value.contentLength >= -1)
  {
    hide IsPadded, DecimalValue, Digits;
  }

  lemma {:induction false} BlockKeepsTrailing(s: Meaning, hs: seq<Header>)
    ensures var r := ApplyBlock(s, hs);
            r.Some? ==> && r.value.flags.trailing == s.flags.trailing
                        && r.value.flags.skipBody == s.flags.skipBody
                        && (s.flags.chunked ==> r.value.flags.chunked)
                        && (s.contentLength >= -1 ==> r.value.contentLength >= -1)
    decreases |hs|
  {
    if hs != [] {
      hide ApplyHeader;
      var init := hs[..|hs|-1];
      BlockKeepsTrailing(s, init);
      if ApplyBlock(s, init).Some? {
        HeaderKeepsTrailing(ApplyBlock(s, init).value, hs[|hs|-1]);
      }
    }
  }

  // ----- the end of a block

  datatype Framing = NoBody | Length(n: nat) | Chunks | ToEof

  /** Where the parser takes the body to end. HttpFraming.dfy compares it with section 4.4 of RFC 2616. */
  function FramingOf(skip: bool, s: Meaning, keepAlive: bool): Framing {
    if skip || s.flags.skipBody then NoBody
    else if s.flags.chunked then Chunks
    else if s.contentLength >= 0 then (if s.contentLength == 0 then NoBody else Length(s.contentLength))
    else if keepAlive then NoBody
    else ToEof
  }

  function FirstBodyState(m: Machine, f: Framing): State {
    match f
    case NoBody => m.NewMessage()
    case Length(_) => BodyIdentity
    case Chunks => ChunkSizeStart
    case ToEof => BodyIdentityEof
  }

  function HeadEvents(m: Machine, f: Framing): seq<Event> {
    [HeadersComplete(m.major, m.minor, m.status, m.ShouldKeepAlive())]
    + if f == NoBody then [m.Completion()] else []
  }

  lemma ByteInBlock(skip: bool, m: Machine, ch: char)
    requires Room(m, 1)
    ensures m.state == HeaderFieldStart ==> Step(skip, m, ch) == Report(m, FieldStart(skip, Advanced(m, 1), ch), ch)
    ensures m.state == HeadersAlmostDone ==> Step(skip, m, ch) == Report(m, BlockEnd(skip, Advanced(m, 1), ch), ch)
  {
    hide FieldStart, BlockEnd, Report;
  }

  /** The empty line that ends a block, as `BlockEnd` on a line feed. */
  lemma EmptyLine(skip: bool, m: Machine, crlf: bool)
    requires m.state == HeaderFieldStart && Room(m, |EndOfLine(crlf)|)
    requires BlockEnd(skip, Advanced(m, |EndOfLine(crlf)|).(state := HeadersAlmostDone), LF).Next?
    ensures var v := BlockEnd(skip, Advanced(m, |EndOfLine(crlf)|).(state := HeadersAlmostDone), LF);
            Goes(skip, m, EndOfLine(crlf), v.m, Emitted(v.op, v.m.state, LF))
  {
    hide Step, Run, BlockEnd;
    if crlf {
      var m1 := Advanced(m, 1).(state := HeadersAlmostDone);
      ByteInBlock(skip, m, CR);
      RunOne(skip, m, CR);
      assert Goes(skip, m, [CR], m1, []);
      ByteInBlock(skip, m1, LF);
      RunOne(skip, m1, LF);
      var r := Run(skip, m1, [LF]);
      Chain(skip, m, [CR], m1, [], [LF], r.m, r.out);
      assert [] + r.out == r.out;
      assert [CR] + [LF] == EndOfLine(true);
    } else {
      ByteInBlock(skip, m, LF);
      RunOne(skip, m, LF);
    }
  }

  /** How the end of the header block decides where the parser takes the body to end. */
  lemma HeadEnd(skip: bool, m: Machine, crlf: bool)
    requires m.state == HeaderFieldStart && Room(m, |EndOfLine(crlf)|)
    requires !m.flags.trailing && !m.upgrade && !m.flags.upgrade && m.contentLength >= -1
    ensures var r := Run(skip, m, EndOfLine(crlf)); var f := FramingOf(skip, MeaningOf(m), m.ShouldKeepAlive());
      && r.Live? && r.out == HeadEvents(m, f)
      && r.m == m.(nread := 0, flags := m.flags.(skipBody := m.flags.skipBody || skip), state := FirstBodyState(m, f))
  {
    var n := Advanced(m, |EndOfLine(crlf)|).(state := HeadersAlmostDone);
    var v := BlockEnd(skip, n, LF);
    var done := HeadersComplete(m.major, m.minor, m.status, m.ShouldKeepAlive());
    assert [done] + [m.Completion()] == [done, m.Completion()] && [done] + [] == [done];
    var f := FramingOf(skip, MeaningOf(m), m.ShouldKeepAlive());
    assert v == Next(m.(nread := 0, flags := m.flags.(skipBody := m.flags.skipBody || skip),
                        state := FirstBodyState(m, f)), Notify(HeadEvents(m, f)));
    EmptyLine(skip, m, crlf);
    hide Run, BlockEnd, HeadEvents;
  }

  lemma UpgradeEnd(skip: bool, m: Machine)
    requires m.state == HeadersAlmostDone && !m.flags.trailing && (m.upgrade || m.flags.upgrade)
    ensures BlockEnd(skip, m, LF)
      == Handover(m.(nread := 0, upgrade := true, flags := m.flags.(skipBody := m.flags.skipBody || skip)),
                  Notify([HeadersComplete(m.major, m.minor, m.status, m.ShouldKeepAlive()), m.Completion()]))
  {}

  /** A head with an Upgrade header ends the call: both completions, and the rest is another protocol. */
  lemma HeadEndUpgrade(skip: bool, m: Machine, crlf: bool)
    requires m.state == HeaderFieldStart && Room(m, |EndOfLine(crlf)|)
    requires !m.flags.trailing && (m.upgrade || m.flags.upgrade)
    ensures var r := Run(skip, m, EndOfLine(crlf));
      && r.Stopped? && r.why == SwitchedProtocol && r.at == |EndOfLine(crlf)| - 1
      && r.out == [HeadersComplete(m.major, m.minor, m.status, m.ShouldKeepAlive()), m.Completion()]
      && r.m.upgrade && r.m.nread == 0
  {
    hide Step, Run, BlockEnd;
    if crlf {
      var m1 := Advanced(m, 1).(state := HeadersAlmostDone);
      ByteInBlock(skip, m, CR);
      RunOne(skip, m, CR);
      ByteInBlock(skip, m1, LF);
      UpgradeEnd(skip, Advanced(m1, 1));
      assert [CR] + [LF] == EndOfLine(true);
      RunSnoc(skip, m, [CR], LF);
    } else {
      ByteInBlock(skip, m, LF);
      UpgradeEnd(skip, Advanced(m, 1).(state := HeadersAlmostDone));
      RunOne(skip, m, LF);
    }
  }

  /** The empty line that ends a trailer completes the message. */
  lemma TrailerEnd(skip: bool, m: Machine, crlf: bool)
    requires m.state == HeaderFieldStart && m.flags.trailing
    ensures Goes(skip, m, EndOfLine(crlf), m.(state := m.NewMessage()), [m.Completion()])
  {
    var n := m.(state := HeadersAlmostDone);
    assert BlockEnd(skip, n, LF) == Next(m.(state := m.NewMessage()), Notify([m.Completion()]));
    EmptyLine(skip, m, crlf);
    hide Run, BlockEnd;
  }
}
