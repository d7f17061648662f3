/**
 Whole streams: the texts that the parser takes are exactly the sequences of blank lines and well-formed
 responses, one after the other for as long as the connection is kept.
 */
module HttpStream {
  import opened Octets
  import opened HttpEvents
  import opened HttpMachine
  import opened HttpBody
  import L = HttpLines
  import opened HttpHead
  import opened HttpMessages
  import opened HttpGrammar
  import opened HttpLanguage
  import opened Options

  // ----- one response

  /** The response with no body in its place yet. */
  function HeadOf(l: StatusLine, hs: seq<L.Header>, crlf: bool): Response { Response(l, hs, crlf, NoText) }

  lemma AfterStatus(m: Machine, l: StatusLine)
    requires StatusLineOk(l) && m.state == StartRes && L.Room(m, 1) && L.Room(Fresh(m), |StatusText(l)| - 1)
    requires |StatusText(l)| > 0
    ensures var n := AfterStatusLine(m, l);
      && n.state == HeaderFieldStart && L.MeaningOf(n) == NO_MEANING && n.ParsingHeader() && n.upgrade == m.upgrade
      && n.nread == Counted(m).nread + |StatusText(l)| - 1 <= MAX_HEADER_SIZE
  {
    hide StatusText, DecimalValue;
  }

  /** A head without Upgrade header: with one the parser would have stopped. */
  lemma NoUpgrade(skip: bool, m: Machine, hs: seq<L.Header>, crlf: bool, rest: string)
    requires Done(skip, m, BlockText(hs) + (L.EndOfLine(crlf) + rest)) && m.state == HeaderFieldStart
    requires m.ParsingHeader() && L.Room(m, |BlockText(hs)| + |L.EndOfLine(crlf)|)
    requires (forall h :: h in hs ==> L.HeaderOk(h)) && ApplyBlock(L.MeaningOf(m), hs).Some?
    ensures !ApplyBlock(L.MeaningOf(m), hs).value.flags.upgrade
  {
    hide Step, Run, L.HeaderOk, ApplyBlock, BlockText;
    DoneSplit(skip, m, BlockText(hs), L.EndOfLine(crlf) + rest);
    BlockRun(skip, m, hs);
    var n := Run(skip, m, BlockText(hs)).m;
    DoneSplit(skip, n, L.EndOfLine(crlf), rest);
    if n.flags.upgrade {
      HeadEndUpgrade(skip, n, crlf);
    }
  }

  lemma ReadHead(skip: bool, m: Machine, text: string) returns (r: Response, rest: string)
    requires Done(skip, m, text) && m.state == StartRes && !m.upgrade && text != [] && text[0] == 'H'
    requires Valued(Run(skip, m, text).out)
    ensures r.body == NoText && HeadOk(skip, r) && text == HeadText(r) + rest && HeadFits(m, |HeadText(r)|)
  {
    hide Step, Run, L.HeaderOk, ApplyBlock, BlockText, StatusText, StatusLineOk, Valued, L.EndOfLine;
    var l, rest1 := ReadStatus(skip, m, text);
    DoneSplit(skip, m, StatusText(l), rest1);
    StatusLineRun(skip, m, l);
    AfterStatus(m, l);
    var n := AfterStatusLine(m, l);
    ValuedRest([Begin], Run(skip, n, rest1).out);
    var hs, crlf;
    hs, crlf, rest := ReadBlock(skip, n, rest1);
    NoUpgrade(skip, n, hs, crlf, rest);
    r := HeadOf(l, hs, crlf);
    assert StatusText(l) + (BlockText(hs) + (L.EndOfLine(crlf) + rest))
      == StatusText(l) + BlockText(hs) + L.EndOfLine(crlf) + rest;
  }

  /** The body that the head announces. */
  lemma ReadBody(skip: bool, m: Machine, r: Response, text: string) returns (b: BodyText, rest: string)
    requires r.body == NoText && HeadOk(skip, r) && AtBody(skip, r, m)
    requires Done(skip, m, text) && Valued(Run(skip, m, text).out)
    ensures ResponseOk(skip, r.(body := b)) && text == TextOfBody(b) + rest && (b.UntilEof? ==> rest == [])
  {
    hide Step, Run, L.HeaderOk, ApplyBlock, StatusLineOk, Valued, DecimalValue, ChunkOk, SizeOk, ExtOk, Persistent;
    var s := HeadMeaning(skip, r);
    BlockKeepsTrailing(NO_MEANING, r.headers);
    match FramingOf(skip, s, Persistent(r.status, s.flags))
    case NoBody =>
      b, rest := NoText, text;
    case Length(n) =>
      if |text| < n {
        IdentityPrefix(skip, m, text);
      }
      b, rest := Sized(text[..n]), text[n..];
    case ToEof =>
      b, rest := UntilEof(text), [];
    case Chunks =>
      b, rest := ReadChunks(skip, m, text);
  }

  /** A response at the front of a text that is taken. */
  lemma ReadResponse(skip: bool, m: Machine, text: string) returns (r: Response, rest: string)
    requires Done(skip, m, text) && m.state == StartRes && !m.upgrade && text != [] && text[0] == 'H'
    requires Valued(Run(skip, m, text).out)
    ensures ResponseOk(skip, r) && text == ResponseText(r) + rest && HeadFits(m, |HeadText(r)|)
    ensures r.body.UntilEof? ==> rest == []
  {
    hide Step, Run, HeadText, TextOfBody, HeadOk, Valued, HeadFits;
    var h, rest1 := ReadHead(skip, m, text);
    HeadRun(skip, m, h);
    DoneSplit(skip, m, HeadText(h), rest1);
    var n := Run(skip, m, HeadText(h)).m;
    ValuedRest(Run(skip, m, HeadText(h)).out, Run(skip, n, rest1).out);
    var b;
    b, rest := ReadBody(skip, n, h, rest1);
    r := h.(body := b);
    SameHeadText(h, b);
    assert HeadText(r) + (TextOfBody(b) + rest) == ResponseText(r) + rest;
  }

  lemma SameHeadText(r: Response, b: BodyText)
    ensures HeadText(r.(body := b)) == HeadText(r)
  {}

  // ----- blank lines

  predicate Blanks(s: string) { forall i :: 0 <= i < |s| ==> s[i] == CR || s[i] == LF }

  /** The machine after blank lines between messages. */
  function AfterBlanks(m: Machine, n: nat): Machine {
    if n == 0 then m else m.(nread := Counted(m).nread + n - 1, flags := NO_FLAGS, contentLength := -1)
  }

  lemma BlankByte(skip: bool, m: Machine, n: nat, ch: char)
    requires m.state == StartRes && m.nread <= MAX_HEADER_SIZE
    ensures var r := Step(skip, AfterBlanks(m, n), ch);
      r.Live? ==> ch == 'H' || ((ch == CR || ch == LF) && r.m == AfterBlanks(m, n + 1) && HeadFits(m, n + 1))
    ensures var r := Step(skip, AfterBlanks(m, n), ch);
      (ch == CR || ch == LF) && HeadFits(m, n + 1) ==> r.Live?
  {}

  lemma {:induction false} BlanksRun(skip: bool, m: Machine, s: string)
    requires m.state == StartRes && m.nread <= MAX_HEADER_SIZE && Blanks(s)
    ensures Run(skip, m, s).Live? <==> s == [] || HeadFits(m, |s|)
    ensures Run(skip, m, s).Live? ==> Run(skip, m, s).m == AfterBlanks(m, |s|)
    decreases |s|
  {
    hide Step, Run;
    if s == [] {
      RunEmpty(skip, m);
    } else {
      var init, ch := s[..|s|-1], s[|s|-1];
      assert s == init + [ch];
      BlanksRun(skip, m, init);
      RunSnoc(skip, m, init, ch);
      BlankByte(skip, m, |init|, ch);
    }
  }

  function BlankLength(text: string, i: nat := 0): (n: nat)
    requires i <= |text|
    ensures i <= n <= |text| && (forall j :: i <= j < n ==> text[j] == CR || text[j] == LF)
    ensures n < |text| ==> text[n] != CR && text[n] != LF
    decreases |text| - i
  {
    if i == |text| || (text[i] != CR && text[i] != LF) then i else BlankLength(text, i + 1)
  }

  // ----- the stream

  /** Responses with blank lines before them, and blank lines at the end. */
  datatype Stream = End(blanks: string) | More(blanks: string, response: Response, next: Stream)

  function StreamText(s: Stream): string {
    match s
    case End(b) => b
    case More(b, r, next) => b + (ResponseText(r) + StreamText(next))
  }

  /**
   Every response is well-formed, and only one that keeps the connection is followed by anything. Blank lines
   count towards the size of the head behind them; after a trailer, the first byte does not.
   */
  ghost predicate StreamOk(skip: bool, spare: nat, s: Stream)
    decreases s
  {
    Blanks(s.blanks) &&
    match s
    case End(b) => |b| <= MAX_HEADER_SIZE + spare
    case More(b, r, next) =>
      && ResponseOk(skip, r) && |b| + |HeadText(r)| <= MAX_HEADER_SIZE + spare
      && if EndState(skip, r) == StartRes then StreamOk(skip, if r.body.Coded? then 1 else 0, next) else next == End([])
  }

  /** Between two messages. */
  predicate Between(m: Machine, spare: nat) {
    m.state == StartRes && !m.upgrade && m.nread == 0 && spare == if m.flags.trailing then 1 else 0
  }

  lemma FitsFirst(m: Machine, spare: nat, k: nat)
    requires Between(m, spare) && k > 0
    ensures HeadFits(m, k) <==> k <= MAX_HEADER_SIZE + spare
  {}

  lemma FitsBehind(m: Machine, spare: nat, k: nat, n: nat)
    requires Between(m, spare) && (k == 0 || HeadFits(m, k)) && n > 0
    ensures HeadFits(AfterBlanks(m, k), n) <==> k + n <= MAX_HEADER_SIZE + spare
    ensures AfterBlanks(m, k).state == StartRes && !AfterBlanks(m, k).upgrade
  {}

  /** Where the parser is after a response that keeps the connection. */
  lemma AfterResponse(skip: bool, m: Machine, r: Response)
    requires m.state == StartRes && !m.upgrade && ResponseOk(skip, r) && HeadFits(m, |HeadText(r)|)
    ensures var res := Run(skip, m, ResponseText(r));
      && res.Live? && res.m.state == EndState(skip, r)
      && (EndState(skip, r) == StartRes ==> Between(res.m, if r.body.Coded? then 1 else 0))
  {
    ResponseRun(skip, m, r);
    TrailingAfter(skip, r);
    hide Run, HeadText, ResponseText, HeadOk, BodyOk, EndState, FinalMeaning, Equiv, Calls, DecimalValue;
  }

  lemma TrailingAfter(skip: bool, r: Response)
    requires HeadOk(skip, r)
    ensures FinalMeaning(skip, r).value.flags.trailing == r.body.Coded?
  {
    hide ApplyBlock, L.HeaderOk, StatusLineOk;
    BlockKeepsTrailing(NO_MEANING, r.headers);
    if r.body.Coded? {
      var s := HeadMeaning(skip, r);
      BlockKeepsTrailing(L.Meaning(s.flags.(trailing := true), 0), r.body.trailer);
    }
  }

  /** Every stream is taken. */
  lemma {:induction false} StreamRun(skip: bool, m: Machine, spare: nat, s: Stream)
    requires Between(m, spare) && StreamOk(skip, spare, s)
    ensures Done(skip, m, StreamText(s))
    decreases s
  {
    hide Step, Run, HeadText, ResponseText, ResponseOk, EndState, HeadFits, Blanks;
    var b := s.blanks;
    BlanksRun(skip, m, b);
    if b != [] {
      FitsFirst(m, spare, |b|);
    }
    if s.More? {
      var r := s.response;
      HeadNotEmpty(r);
      FitsBehind(m, spare, |b|, |HeadText(r)|);
      var n := AfterBlanks(m, |b|);
      AfterResponse(skip, n, r);
      var n2 := Run(skip, n, ResponseText(r)).m;
      if EndState(skip, r) == StartRes {
        StreamRun(skip, n2, if r.body.Coded? then 1 else 0, s.next);
      } else {
        RunEmpty(skip, n2);
        EndRests(skip, r);
      }
      DoneJoin(skip, n, ResponseText(r), StreamText(s.next));
      DoneJoin(skip, m, b, ResponseText(r) + StreamText(s.next));
    }
  }

  lemma EndRests(skip: bool, r: Response)
    requires ResponseOk(skip, r)
    ensures AtRest(EndState(skip, r))
  {
    hide ResponseOk, FinalMeaning;
  }

  lemma HeadNotEmpty(r: Response)
    ensures |HeadText(r)| > 0
  {
    StatusTextParts(r.status);
  }

  lemma DoneJoin(skip: bool, m: Machine, a: string, b: string)
    requires Run(skip, m, a).Live? && Done(skip, Run(skip, m, a).m, b)
    ensures Done(skip, m, a + b)
  {
    hide Step, Run;
    RunConcat(skip, m, a, b);
  }

  /** Every text that is taken is a stream. */
  lemma {:induction false} ReadStream(skip: bool, m: Machine, spare: nat, text: string) returns (s: Stream)
    requires Between(m, spare) && Done(skip, m, text) && Valued(Run(skip, m, text).out)
    ensures StreamOk(skip, spare, s) && StreamText(s) == text
    decreases |text|
  {
    hide Step, Run, HeadText, ResponseText, ResponseOk, EndState, HeadFits, Blanks, Valued;
    var k := BlankLength(text);
    var b, rest := text[..k], text[k..];
    assert text == b + rest;
    BlankFront(text, k);
    DoneSplit(skip, m, b, rest);
    BlanksRun(skip, m, b);
    var n := AfterBlanks(m, k);
    ValuedRest(Run(skip, m, b).out, Run(skip, n, rest).out);
    if b != [] {
      FitsFirst(m, spare, k);
    }
    if rest == [] {
      s := End(b);
    } else {
      StartsWithH(skip, m, k, rest);
      HeadNotEmptyAfter(m, spare, k);
      var r, rest2 := ReadResponse(skip, n, rest);
      HeadNotEmpty(r);
      FitsBehind(m, spare, k, |HeadText(r)|);
      AfterResponse(skip, n, r);
      DoneSplit(skip, n, ResponseText(r), rest2);
      var n2 := Run(skip, n, ResponseText(r)).m;
      ValuedRest(Run(skip, n, ResponseText(r)).out, Run(skip, n2, rest2).out);
      if EndState(skip, r) == StartRes {
        LongerText(r);
        var next := ReadStream(skip, n2, if r.body.Coded? then 1 else 0, rest2);
        s := More(b, r, next);
      } else {
        NothingBehind(skip, n2, r, rest2);
        s := More(b, r, End([]));
        BlanksNone();
      }
    }
  }

  lemma BlankFront(text: string, k: nat)
    requires k <= |text| && forall j :: 0 <= j < k ==> text[j] == CR || text[j] == LF
    ensures Blanks(text[..k])
  {}

  lemma BlanksNone()
    ensures Blanks([])
  {}

  lemma HeadNotEmptyAfter(m: Machine, spare: nat, k: nat)
    requires Between(m, spare)
    ensures AfterBlanks(m, k).state == StartRes && !AfterBlanks(m, k).upgrade
  {}

  lemma StartsWithH(skip: bool, m: Machine, k: nat, rest: string)
    requires m.state == StartRes && m.nread <= MAX_HEADER_SIZE && Done(skip, AfterBlanks(m, k), rest)
    requires rest != [] && rest[0] != CR && rest[0] != LF
    ensures rest[0] == 'H'
  {
    hide Step, Run;
    assert rest == [rest[0]] + rest[1..];
    DoneSplit(skip, AfterBlanks(m, k), [rest[0]], rest[1..]);
    RunOne(skip, AfterBlanks(m, k), rest[0]);
    BlankByte(skip, m, k, rest[0]);
  }

  lemma LongerText(r: Response)
    ensures |ResponseText(r)| > 0
  {
    StatusTextParts(r.status);
  }

  /** Nothing follows a response that ends the connection or goes on to the end of the stream. */
  lemma NothingBehind(skip: bool, m: Machine, r: Response, rest: string)
    requires ResponseOk(skip, r) && m.state == EndState(skip, r) != StartRes && Done(skip, m, rest)
    requires r.body.UntilEof? ==> rest == []
    ensures rest == []
  {
    hide Step, Run, ResponseOk, FinalMeaning;
    if rest != [] {
      assert rest == [rest[0]] + rest[1..];
      DoneSplit(skip, m, [rest[0]], rest[1..]);
      RunOne(skip, m, rest[0]);
      DeadEnd(skip, m, rest[0]);
    }
  }

  lemma DeadEnd(skip: bool, m: Machine, ch: char)
    requires m.state == Dead
    ensures !Step(skip, m, ch).Live?
  {}

  /**
   The language of the parser. A text in which every field has its value is consumed, in a state in which the
   stream may end, if and only if it is a stream of well-formed responses.
   */
  lemma Language(skip: bool, text: string)
    requires Valued(Run(skip, INITIAL, text).out)
    ensures Done(skip, INITIAL, text) <==> exists s :: StreamOk(skip, 0, s) && StreamText(s) == text
  {
    hide Step, Run, StreamOk, StreamText, Valued;
    if Done(skip, INITIAL, text) {
      var s := ReadStream(skip, INITIAL, 0, text);
    }
    forall s | StreamOk(skip, 0, s) && StreamText(s) == text
      ensures Done(skip, INITIAL, text)
    {
      StreamRun(skip, INITIAL, 0, s);
    }
  }

  /** Blank lines alone: the limit of a head, in bytes. */
  lemma BlankLimit(skip: bool, text: string)
    requires Blanks(text)
    ensures Done(skip, INITIAL, text) <==> |text| <= 81920
  {
    hide Run, Blanks;
    BlanksRun(skip, INITIAL, text);
  }

  // ----- lines without a colon

  /** A line with a name alone is taken as well; it delivers the name and no value, and means nothing. */
  lemma BareLine(skip: bool, m: Machine, name: string, crlf: bool)
    requires m.state == HeaderFieldStart && L.NameOk(name) && L.Room(m, |name| + |L.EndOfLine(crlf)|)
    ensures var r := Run(skip, m, name + L.EndOfLine(crlf));
      && r.Live? && r.out == Singles(Field, name) + [Data(Field, [])]
      && r.m.state == HeaderFieldStart && L.MeaningOf(r.m) == L.MeaningOf(m)
  {
    hide Step, Run, L.NameOk;
    L.NameRun(skip, m, name);
    var n := Run(skip, m, name).m;
    NotAName();
    if crlf {
      BareByte(skip, n, CR);
      var n2 := Step(skip, n, CR).m;
      RunOne(skip, n, CR);
      L.Chain(skip, m, name, n, Singles(Field, name), [CR], n2, [Data(Field, [])]);
      BareFeed(skip, n2);
      RunOne(skip, n2, LF);
      L.Chain(skip, m, name + [CR], n2, Singles(Field, name) + [Data(Field, [])], [LF], Step(skip, n2, LF).m, []);
      assert name + [CR] + [LF] == name + L.EndOfLine(true);
      assert Singles(Field, name) + [Data(Field, [])] + [] == Singles(Field, name) + [Data(Field, [])];
    } else {
      BareByte(skip, n, LF);
      RunOne(skip, n, LF);
      L.Chain(skip, m, name, n, Singles(Field, name), [LF], Step(skip, n, LF).m, [Data(Field, [])]);
    }
  }

  lemma NotAName()
    ensures Token(CR) == NUL && Token(LF) == NUL
  {}

  predicate NoValueState(h: HeaderState) { h != KeepAlive && h != Close && h != Chunked }

  lemma BareByte(skip: bool, m: Machine, ch: char)
    requires m.state == HeaderField && (ch == CR || ch == LF) && L.Room(m, 1)
    ensures var r := Step(skip, m, ch);
      && r.Live? && r.out == [Data(Field, [])] && L.MeaningOf(r.m) == L.MeaningOf(m)
      && r.m == L.Advanced(m, 1).(state := if ch == CR then HeaderAlmostDone else HeaderFieldStart)
  {}

  lemma BareFeed(skip: bool, m: Machine)
    requires m.state == HeaderAlmostDone && L.Room(m, 1) && NoValueState(m.hstate)
    ensures var r := Step(skip, m, LF);
      r.Live? && r.out == [] && r.m.state == HeaderFieldStart && L.MeaningOf(r.m) == L.MeaningOf(m)
  {}
}
