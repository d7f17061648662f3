/**
 Responses written down from a status code and the data to send alone, with sizes in decimal or
 hexadecimal digits; murl hands back exactly that code and that data.
 */
module MurlWriter {
  import opened Octets
  import opened Numerals
  import opened HttpEvents
  import opened HttpMachine
  import opened HttpHeaders
  import L = HttpLines
  import opened HttpHead
  import opened HttpMessages
  import opened MurlHttp
  import opened MurlResponses
  import opened MurlTruncation
  import opened Options

  // ----- the texts

  function StatusWritten(code: nat): string { "HTTP/1.1 " + DecimalText(code) + CRLF }

  /** The data with its length. */
  function SizedText(code: nat, data: string): string {
    StatusWritten(code) + ("Content-Length: " + DecimalText(|data|) + CRLF) + CRLF + data
  }

  /** The data up to the end of the stream. */
  function OpenText(code: nat, data: string): string {
    StatusWritten(code) + ("Connection: close" + CRLF) + CRLF + data
  }

  /** The data in pieces, each with its length in base 16. */
  function PieceText(d: string): string { HexText(|d|) + CRLF + d + CRLF }

  function PiecesText(ds: seq<string>): string {
    if ds == [] then [] else PiecesText(ds[..|ds|-1]) + PieceText(ds[|ds|-1])
  }

  function ChunkedText(code: nat, ds: seq<string>): string {
    StatusWritten(code) + ("Transfer-Encoding: chunked" + CRLF) + CRLF + (PiecesText(ds) + (HexText(0) + CRLF + CRLF))
  }

  function Joined(ds: seq<string>): string {
    if ds == [] then [] else Joined(ds[..|ds|-1]) + ds[|ds|-1]
  }

  // ----- the same as responses

  function Line(code: nat): StatusLine { StatusLine("1", "1", 0, DecimalText(code), None, true) }

  function WithHeader(code: nat, name: string, value: string, body: BodyText): Response {
    Response(Line(code), [L.Header(name, 1, value, true)], true, body)
  }

  function SizedResponse(code: nat, data: string): Response {
    WithHeader(code, "Content-Length", DecimalText(|data|), if data == [] then NoText else Sized(data))
  }

  function OpenResponse(code: nat, data: string): Response {
    WithHeader(code, "Connection", "close", UntilEof(data))
  }

  function Chunks(ds: seq<string>): seq<Chunk> {
    seq(|ds|, i requires 0 <= i < |ds| => Chunk(HexText(|ds[i]|), "", ds[i]))
  }

  function ChunkedResponse(code: nat, ds: seq<string>): Response {
    WithHeader(code, "Transfer-Encoding", "chunked", Coded(Chunks(ds), HexText(0), "", [], true))
  }

  function OneChunk(d: string): Chunk { Chunk(HexText(|d|), "", d) }

  lemma ChunkWritten(d: string)
    requires d != []
    ensures ChunkText(OneChunk(d)) == PieceText(d) && ChunkOk(OneChunk(d))
  {
    HexReads(|d|);
    hide HexText, AllHex, HexValue;
    assert HexText(|d|) + "" == HexText(|d|);
  }

  lemma {:induction false} ChunksWritten(ds: seq<string>)
    requires forall d :: d in ds ==> d != []
    ensures ChunksText(Chunks(ds)) == PiecesText(ds) && ChunksData(Chunks(ds)) == Joined(ds)
    ensures forall c :: c in Chunks(ds) ==> ChunkOk(c)
    decreases |ds|
  {
    hide HexText, ChunkOk, ChunkText, PieceText;
    if ds != [] {
      var init, d := ds[..|ds|-1], ds[|ds|-1];
      assert d in ds && forall e :: e in init ==> e in ds;
      ChunksWritten(init);
      ChunkWritten(d);
      assert Chunks(ds) == Chunks(init) + [OneChunk(d)];
      assert Chunks(ds)[..|ds|-1] == Chunks(init);
    }
  }

  lemma OneIsOne()
    ensures AllDigits("1") && DecimalValue("1") == 1
  {
    DecimalReads(1);
    assert DecimalText(1) == "1";
  }

  lemma LineValues(code: nat)
    requires code <= 999
    ensures StatusLineOk(Line(code))
    ensures DecimalValue(Line(code).status) == code
    ensures DecimalValue(Line(code).major) == 1 && DecimalValue(Line(code).minor) == 1
  {
    DecimalReads(code);
    OneIsOne();
    hide DecimalText, DecimalValue, AllDigits;
  }

  lemma LineWritten(code: nat)
    requires code <= 999
    ensures StatusText(Line(code)) == StatusWritten(code) && |StatusWritten(code)| <= 14
  {
    DecimalShort(code);
    hide DecimalText;
    var t := DecimalText(code);
    assert "HTTP/" + "1" + "." + "1" + " " == "HTTP/1.1 ";
    assert L.Spaces(0) == [];
    assert "HTTP/1.1 " + [] + t + "" + CRLF == "HTTP/1.1 " + t + CRLF;
  }

  /** A name spelled as one of the words is no other word. */
  lemma NamedOnly(name: string, word: string, other: string)
    requires Lowered(name) == word && ' ' !in word
    ensures L.Named(name, other) <==> other == word
  {
    if |other| < |word| {
      assert word[|other|] in word;
    }
  }

  lemma HeaderSpelled()
    ensures Lowered("Content-Length") == CONTENT_LENGTH && Lowered("Connection") == CONNECTION
    ensures Lowered("Transfer-Encoding") == TRANSFER_ENCODING
    ensures Lowered("chunked") == CHUNKED && Lowered("close") == CLOSE
  {}

  lemma WordsDiffer()
    ensures CONTENT_LENGTH != CONNECTION && CONTENT_LENGTH != PROXY_CONNECTION && PROXY_CONNECTION != CONNECTION
    ensures TRANSFER_ENCODING != CONNECTION && TRANSFER_ENCODING != PROXY_CONNECTION
    ensures TRANSFER_ENCODING != CONTENT_LENGTH && CLOSE != KEEP_ALIVE
  {
    assert |CONNECTION| == 10 && |PROXY_CONNECTION| == 16 && |CONTENT_LENGTH| == 14 && |TRANSFER_ENCODING| == 17;
    assert |CLOSE| == 5 && |KEEP_ALIVE| == 10;
  }

  lemma NoSpaces()
    ensures ' ' !in CONTENT_LENGTH && ' ' !in CONNECTION && ' ' !in TRANSFER_ENCODING
    ensures ' ' !in CHUNKED && ' ' !in CLOSE
  {}

  lemma {:induction false} DigitsOnly(v: string)
    requires AllDigits(v)
    ensures L.Digits(v) == v
    decreases |v|
  {
    if v != [] {
      DigitsOnly(v[..|v|-1]);
      assert IsDigit(v[|v|-1]);
    }
  }

  function Closing(): Flags { NO_FLAGS.(close := true) }

  function Chunking(): Flags { NO_FLAGS.(chunked := true) }

  /** What the three headers mean. */
  lemma LengthMeans(n: nat)
    ensures L.ApplyHeader(NO_MEANING, "Content-Length", DecimalText(n)) == Some(L.Meaning(NO_FLAGS, n))
  {
    HeaderSpelled();
    WordsDiffer();
    NoSpaces();
    var name, v := "Content-Length", DecimalText(n);
    NamedOnly(name, CONTENT_LENGTH, CONNECTION);
    NamedOnly(name, CONTENT_LENGTH, PROXY_CONNECTION);
    NamedOnly(name, CONTENT_LENGTH, CONTENT_LENGTH);
    DecimalReads(n);
    DigitsOnly(v);
    assert L.LengthText(v);
    hide DecimalText, DecimalValue, L.Digits, L.Named, L.LengthText, AllDigits;
  }

  lemma CloseMeans()
    ensures L.ApplyHeader(NO_MEANING, "Connection", "close") == Some(L.Meaning(Closing(), -1))
  {
    HeaderSpelled();
    WordsDiffer();
    NoSpaces();
    NamedOnly("Connection", CONNECTION, CONNECTION);
    NamedOnly("close", CLOSE, KEEP_ALIVE);
    NamedOnly("close", CLOSE, CLOSE);
    hide L.Named;
  }

  lemma ChunkedMeans()
    ensures L.ApplyHeader(NO_MEANING, "Transfer-Encoding", "chunked") == Some(L.Meaning(Chunking(), -1))
  {
    HeaderSpelled();
    WordsDiffer();
    NoSpaces();
    NamedOnly("Transfer-Encoding", TRANSFER_ENCODING, CONNECTION);
    NamedOnly("Transfer-Encoding", TRANSFER_ENCODING, PROXY_CONNECTION);
    NamedOnly("Transfer-Encoding", TRANSFER_ENCODING, CONTENT_LENGTH);
    NamedOnly("Transfer-Encoding", TRANSFER_ENCODING, TRANSFER_ENCODING);
    NamedOnly("chunked", CHUNKED, CHUNKED);
    hide L.Named;
  }

  lemma HeadersWritten(v: string)
    requires v != [] && AllDigits(v)
    ensures L.HeaderOk(L.Header("Content-Length", 1, v, true))
    ensures L.HeaderOk(L.Header("Connection", 1, "close", true))
    ensures L.HeaderOk(L.Header("Transfer-Encoding", 1, "chunked", true))
  {}

  // ----- what murl makes of them

  /** The head of a response with one header. */
  lemma OneHeaderHead(code: nat, name: string, value: string, body: BodyText, s: L.Meaning)
    requires code <= 999 && L.HeaderOk(L.Header(name, 1, value, true)) && |name| <= 100 && |value| <= 100
    requires L.ApplyHeader(NO_MEANING, name, value) == Some(s)
    requires !s.flags.upgrade && !s.flags.skipBody && (body.Coded? ==> body.trailer == [])
    ensures var r := WithHeader(code, name, value, body);
      && HeadOk(false, r) && HeadMeaning(false, r) == s && Persistent(r.status, s.flags) == !s.flags.close
      && FinalMeaning(false, r).value.flags.(trailing := false) == s.flags.(trailing := false)
      && |HeadText(r)| <= MAX_HEADER_SIZE
  {
    hide ApplyBlock, BlockText, StatusText, DecimalText, DecimalValue, AllDigits, L.ApplyHeader, L.HeaderOk,
         StatusLineOk, StatusWritten;
    LineValues(code);
    LineWritten(code);
    OneHeaderBlock(L.Header(name, 1, value, true));
    assert s == s.(flags := s.flags.(skipBody := false));
    NoMoreHeaders(L.Meaning(s.flags.(trailing := true), 0));
  }

  /** A response with one header that is taken as a whole. */
  lemma OneHeaderResponse(code: nat, name: string, value: string, body: BodyText, s: L.Meaning)
    requires code <= 999 && L.HeaderOk(L.Header(name, 1, value, true)) && |name| <= 100 && |value| <= 100
    requires L.ApplyHeader(NO_MEANING, name, value) == Some(s)
    requires !s.flags.upgrade && !s.flags.skipBody && (body.Coded? ==> body.trailer == [])
    requires FramedAs(FramingOf(false, s, !s.flags.close), body)
    ensures var r := WithHeader(code, name, value, body);
      && ResponseOk(false, r) && |HeadText(r)| <= MAX_HEADER_SIZE && Fits(r)
  {
    hide HeadOk, HeadText, HeadMeaning, FinalMeaning, DecimalValue, AllDigits, L.ApplyHeader, L.HeaderOk, StatusLineOk,
         FramedAs, DecimalText, Persistent, Fits, FramingOf, HeadersFit;
    OneHeaderHead(code, name, value, body, s);
    OneHeaderFits(WithHeader(code, name, value, body));
  }

  lemma OneHeaderFits(r: Response)
    requires ResponseOk(false, r) && |r.headers| == 1 && |r.headers[0].name| <= 100 && |r.headers[0].value| <= 100
    requires r.body.Coded? ==> r.body.trailer == []
    requires FinalMeaning(false, r).value.flags.(trailing := false)
      == HeadMeaning(false, r).flags.(trailing := false)
    ensures Fits(r)
  {
    var f, g := FinalMeaning(false, r).value.flags, HeadMeaning(false, r).flags;
    hide HeadOk, BodyOk, HeadMeaning, FinalMeaning, DecimalValue;
    assert r.headers == [r.headers[0]];
    assert f.close == f.(trailing := false).close && f.keepAlive == f.(trailing := false).keepAlive;
  }

  lemma NoMoreHeaders(s: L.Meaning)
    ensures ApplyBlock(s, []) == Some(s)
  {}

  lemma OneHeaderBlock(h: L.Header)
    ensures BlockText([h]) == L.LineText(h) && |BlockText([h])| <= |h.name| + |h.value| + h.spaces + 3
    ensures ApplyBlock(NO_MEANING, [h]) == L.ApplyHeader(NO_MEANING, h.name, h.value)
  {
    hide L.ApplyHeader;
    assert [h][..0] == [];
    assert BlockText([]) + L.LineText(h) == L.LineText(h);
  }

  /** Success, the code and the data. */
  ghost predicate HandsBack(text: string, code: nat, data: string) {
    && WholeResponse(text) && GoodReturn(text) && StatusLeft(text) == code
    && BodyOf(RunOf(text).out) == data
  }

  lemma HandedBack(r: Response, code: nat)
    requires ResponseOk(false, r) && |HeadText(r)| <= MAX_HEADER_SIZE && Fits(r)
    requires DecimalValue(r.status.status) == code
    ensures HandsBack(ResponseText(r), code, BodyBytes(r.body))
  {
    hide Run, CallsOf, ReadUpTo, BodyOf, ResponseText, HeadText, Fits, ResponseOk, DecimalValue, AtRest,
         LostFlush, BodyBytes;
    EndToEnd(r);
    ReadAll(ResponseText(r));
    assert ResponseText(r)[..|ResponseText(r)|] == ResponseText(r);
  }

  /** With a length. */
  lemma SizedBack(code: nat, data: string)
    requires code <= 999 && |data| < 0x8000_0000_0000_0000
    ensures HandsBack(SizedText(code, data), code, data)
  {
    hide HandsBack, DecimalText, StatusText, StatusWritten;
    var n, body := |data|, if data == [] then NoText else Sized(data);
    DecimalReads(n);
    DecimalLong(n);
    HeadersWritten(DecimalText(n));
    LengthMeans(n);
    OneHeaderResponse(code, "Content-Length", DecimalText(n), body, L.Meaning(NO_FLAGS, n));
    LineValues(code);
    HandedBack(SizedResponse(code, data), code);
    SameText(code, "Content-Length", DecimalText(n), "Content-Length: " + DecimalText(n) + CRLF, body);
  }

  /** Up to the end of the stream. */
  lemma OpenBack(code: nat, data: string)
    requires code <= 999
    ensures HandsBack(OpenText(code, data), code, data)
  {
    hide HandsBack, DecimalText, StatusText, StatusWritten;
    DecimalReads(0);
    HeadersWritten(DecimalText(0));
    CloseMeans();
    OneHeaderResponse(code, "Connection", "close", UntilEof(data), L.Meaning(Closing(), -1));
    LineValues(code);
    HandedBack(OpenResponse(code, data), code);
    SameText(code, "Connection", "close", "Connection: close" + CRLF, UntilEof(data));
  }

  lemma CodedWritten(ds: seq<string>)
    requires forall d :: d in ds ==> d != []
    ensures var body := Coded(Chunks(ds), HexText(0), "", [], true);
      && TextOfBody(body) == PiecesText(ds) + (HexText(0) + CRLF + CRLF) && BodyBytes(body) == Joined(ds)
      && FramedAs(FramingOf(false, L.Meaning(Chunking(), -1), true), body)
  {
    hide HexText, Chunks, ChunksText, PiecesText, ChunkOk, AllHex, HexValue, SizeLine, BlockText, L.EndOfLine;
    ChunksWritten(ds);
    HexReads(0);
    NoTrailerText();
  }

  lemma NoTrailerText()
    ensures BlockText([]) == "" && SizeLine(HexText(0), "") + "" + L.EndOfLine(true) == HexText(0) + CRLF + CRLF
  {
    hide HexText;
    assert HexText(0) + "" == HexText(0);
  }

  /** In pieces of any sizes. */
  lemma ChunkedBack(code: nat, ds: seq<string>)
    requires code <= 999 && forall d :: d in ds ==> d != []
    ensures HandsBack(ChunkedText(code, ds), code, Joined(ds))
  {
    hide HandsBack, DecimalText, HexText, StatusText, StatusWritten, Chunks, FramedAs, TextOfBody, L.ApplyHeader,
         ResponseText, HeadText, Fits, ResponseOk, L.HeaderOk, AllDigits, DecimalValue, Joined;
    DecimalReads(0);
    HeadersWritten(DecimalText(0));
    ChunkedMeans();
    CodedWritten(ds);
    var body := Coded(Chunks(ds), HexText(0), "", [], true);
    OneHeaderResponse(code, "Transfer-Encoding", "chunked", body, L.Meaning(Chunking(), -1));
    LineValues(code);
    HandedBack(ChunkedResponse(code, ds), code);
    ChunkedLine();
    SameText(code, "Transfer-Encoding", "chunked", "Transfer-Encoding: chunked" + CRLF, body);
  }

  lemma ChunkedLine()
    ensures "Transfer-Encoding: chunked" + CRLF == "Transfer-Encoding" + ": " + "chunked" + CRLF
  {}

  lemma SameText(code: nat, name: string, value: string, line: string, body: BodyText)
    requires code <= 999 && line == name + ": " + value + CRLF
    ensures ResponseText(WithHeader(code, name, value, body)) == StatusWritten(code) + line + CRLF + TextOfBody(body)
  {
    LineWritten(code);
    var h := L.Header(name, 1, value, true);
    OneHeaderBlock(h);
    LineIs(name, value);
    hide StatusText, StatusWritten, BlockText, TextOfBody, L.LineText;
  }

  lemma LineIs(name: string, value: string)
    ensures L.LineText(L.Header(name, 1, value, true)) == name + ": " + value + CRLF
  {
    assert ":" + L.Spaces(1) == ": ";
    assert name + ":" + L.Spaces(1) == name + ": ";
  }
}
