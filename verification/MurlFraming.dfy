/**
 What murl makes of responses that section 4.4 of RFC 2616 frames otherwise than the parser does.
 */
module MurlFraming {
  import opened Octets
  import opened HttpEvents
  import opened HttpMachine
  import opened HttpClient
  import opened HttpMarks
  import L = HttpLines
  import opened HttpHead
  import opened HttpMessages
  import opened HttpFraming
  import opened MurlHttp
  import opened MurlResponses
  import opened Options

  /** Every response framed by the standard, with a head that follows the rule, is taken if it fits. */
  lemma RfcEndToEnd(r: Response)
    requires HeadOk(false, r) && RfcBodyOk(false, r) && HeadFollows(false, r) && |HeadText(r)| <= MAX_HEADER_SIZE
    ensures var buf := ResponseText(r);
      && ResponseOk(false, r) && (WholeResponse(buf) <==> Fits(r))
      && BodyOf(RunOf(buf).out) == BodyBytes(r.body)
  {
    hide HeadOk, RfcBodyOk, HeadFollows, ResponseOk, RunOf, BodyOf, HeadText, ResponseText, Fits, WholeResponse;
    RfcResponses(false, r);
    EndToEnd(r);
  }

  /** A bodyless response whose head announces chunks or a length is refused. */
  lemma BodylessRefused(r: Response)
    requires HeadOk(false, r) && RfcBodyOk(false, r) && Bodyless(Status(r)) && |HeadText(r)| <= MAX_HEADER_SIZE
    requires HeadMeaning(false, r).flags.chunked || HeadMeaning(false, r).contentLength > 0
    ensures !GoodReturn(ResponseText(r))
  {
    hide HeadOk, RfcBodyOk, HeadText, ResponseText, Run, Accepted, CallsOf, Status, HeadMeaning;
    BodylessWaits(INITIAL, r);
  }

  /** A body that ends with the stream, on a connection that is kept, is refused unless it looks like a message. */
  lemma CloseRefused(r: Response)
    requires HeadOk(false, r) && RfcBodyOk(false, r) && |HeadText(r)| <= MAX_HEADER_SIZE
    requires !Bodyless(Status(r)) && !HeadFollows(false, r) && r.body.UntilEof?
    requires r.body.bytes != [] && r.body.bytes[0] != 'H' && r.body.bytes[0] != CR && r.body.bytes[0] != LF
    ensures !GoodReturn(ResponseText(r))
  {
    hide HeadOk, RfcBodyOk, HeadText, ResponseText, Run, Accepted, CallsOf, Status, HeadMeaning;
    CloseIgnored(INITIAL, r);
  }

  // ----- two such responses

  lemma Number(a: char, b: char, c: char)
    requires IsDigit(a) && IsDigit(b) && IsDigit(c)
    ensures AllDigits([a, b, c]) && DecimalValue([a, b, c]) == 100 * DigitOf(a) + 10 * DigitOf(b) + DigitOf(c)
  {
    DecimalSnoc([], a);
    assert [] + [a] == [a];
    DecimalSnoc([a], b);
    assert [a] + [b] == [a, b];
    DecimalSnoc([a, b], c);
    assert [a, b] + [c] == [a, b, c];
  }

  lemma Digit(a: char)
    requires IsDigit(a)
    ensures AllDigits([a]) && DecimalValue([a]) == DigitOf(a)
  {
    DecimalSnoc([], a);
    assert [] + [a] == [a];
  }

  function Length5(): L.Header { L.Header("Content-Length", 1, "5", true) }

  /** A 304 answer that says how long the entity would be. */
  function NotModified(): Response { Response(CodeLine("304"), [Length5()], true, NoText) }

  /** A 200 answer that ends with the stream and does not say that the connection will be closed. */
  function UntilClose(): Response { Response(CodeLine("200"), [], true, UntilEof("done")) }

  function CodeLine(code: string): StatusLine { StatusLine("1", "1", 0, code, None, true) }

  lemma CodeLineOk(code: string)
    requires NumberOk(code) && |code| == 3
    ensures StatusLineOk(CodeLine(code)) && |StatusText(CodeLine(code))| == 14
  {
    Digit('1');
    hide DecimalValue;
    StatusTextParts(CodeLine(code));
  }

  lemma Length5Read()
    ensures L.HeaderOk(Length5()) && |L.LineText(Length5())| == 19
    ensures L.ApplyHeader(NO_MEANING, Length5().name, Length5().value) == Some(L.Meaning(NO_FLAGS, 5))
  {
    Length5Name(Length5().name);
    Length5Value(Length5().value);
    hide L.Named, L.Digits, DecimalValue;
  }

  lemma Length5Name(name: string)
    requires name == "Content-Length"
    ensures L.NameOk(name) && L.Named(name, "content-length")
    ensures !L.Named(name, "connection") && !L.Named(name, "proxy-connection")
  {
    var low := Lowered(name);
    assert low == "content-length";
    assert low[3] == 't';
    assert low[..10][3] == 't' && low[0] == 'c';
  }

  lemma Length5Value(value: string)
    requires value == "5"
    ensures L.LengthText(value) && L.PlainText(value) && L.Digits(value) == value && DecimalValue(value) == 5
  {
    Digit('5');
    assert L.Digits([]) == [];
    assert value[..0] == [] && [] + [value[0]] == value;
  }

  lemma NotModifiedHead()
    ensures HeadOk(false, NotModified()) && Status(NotModified()) == 304
    ensures HeadMeaning(false, NotModified()) == L.Meaning(NO_FLAGS, 5)
    ensures |HeadText(NotModified())| <= MAX_HEADER_SIZE
  {
    Number('3', '0', '4');
    CodeLineOk("304");
    Length5Read();
    OneLine(Length5());
    hide StatusText, StatusLineOk, DecimalValue, L.ApplyHeader, L.HeaderOk, L.LineText, Length5, CodeLine, ApplyBlock,
         BlockText;
  }

  lemma OneLine(h: L.Header)
    ensures BlockText([h]) == L.LineText(h)
    ensures ApplyBlock(NO_MEANING, [h]) == L.ApplyHeader(NO_MEANING, h.name, h.value)
  {
    hide L.LineText, L.ApplyHeader;
    assert [h][..0] == [];
    assert BlockText([]) + L.LineText(h) == L.LineText(h);
  }

  /** The 304 is a whole response by the standard, but murl waits for five bytes of body and fails. */
  lemma NotModifiedRefused()
    ensures HeadOk(false, NotModified()) && RfcBodyOk(false, NotModified())
    ensures RunOf(ResponseText(NotModified())).Live?
    ensures RunOf(ResponseText(NotModified())).m.state == BodyIdentity
    ensures RunOf(ResponseText(NotModified())).m.contentLength == 5
    ensures !GoodReturn(ResponseText(NotModified()))
  {
    NotModifiedHead();
    assert NotModified().body == NoText;
    hide HeadOk, HeadText, Run, GoodReturn, HeadMeaning, NotModified, ResponseText;
    BodylessRefused(NotModified());
    BodylessWaits(INITIAL, NotModified());
  }

  /** The 200 is a whole response by the standard, but murl ends it at the head and rejects its body. */
  lemma UntilCloseRefused()
    ensures HeadOk(false, UntilClose()) && RfcBodyOk(false, UntilClose())
    ensures RunOf(HeadText(UntilClose())).Live? && RunOf(HeadText(UntilClose())).m.state == StartRes
    ensures RunOf(ResponseText(UntilClose())).Stopped?
    ensures !GoodReturn(ResponseText(UntilClose()))
  {
    UntilCloseHead();
    assert UntilClose().body == UntilEof("done");
    hide HeadOk, HeadText, Run, GoodReturn, HeadMeaning, UntilClose, ResponseText;
    CloseRefused(UntilClose());
    CloseIgnored(INITIAL, UntilClose());
  }

  lemma UntilCloseHead()
    ensures HeadOk(false, UntilClose()) && Status(UntilClose()) == 200 && !HeadFollows(false, UntilClose())
    ensures HeadMeaning(false, UntilClose()) == NO_MEANING
    ensures |HeadText(UntilClose())| <= MAX_HEADER_SIZE
  {
    Digit('1');
    Number('2', '0', '0');
    CodeLineOk("200");
    hide DecimalValue, StatusText, StatusLineOk;
  }
}
