/**
 The language of the parser: status lines, chunks and whole messages read back from any text that is
 taken, up to the theorem that characterises those texts.
 */
module HttpLanguage {
  import opened Octets
  import opened HttpEvents
  import opened HttpMachine
  import opened HttpBody
  import L = HttpLines
  import opened HttpHead
  import opened HttpMessages
  import opened HttpGrammar
  import opened Options

  // ----- status lines

  /** What may follow in a status line. */
  lemma LeaveProtocol(skip: bool, m: Machine, ch: char)
    requires m.ParsingHeader() && Step(skip, m, ch).Live?
    ensures var n := Step(skip, m, ch).m;
      && (m.state == ResH ==> ch == 'T' && n.state == ResHT && Moved(m, 1, n))
      && (m.state == ResHT ==> ch == 'T' && n.state == ResHTT && Moved(m, 1, n))
      && (m.state == ResHTT ==> ch == 'P' && n.state == ResHTTP && Moved(m, 1, n))
      && (m.state == ResHTTP ==> ch == '/' && n.state == ResFirstMajor && Moved(m, 1, n))
  {
    hide FieldChar, ValueStart, ValueChar, ChunkChar, BlockEnd, FieldStart, LineEnd, Major, Minor, StatusCode;
  }

  lemma LeaveNumber(skip: bool, m: Machine, ch: char)
    requires m.ParsingHeader() && Step(skip, m, ch).Live?
    ensures var n := Step(skip, m, ch).m;
      && (m.state == ResFirstMajor ==> IsDigit(ch) && n.state == ResMajor && Moved(m, 1, n))
      && (m.state == ResMajor && !IsDigit(ch) ==> ch == '.' && n.state == ResFirstMinor && Moved(m, 1, n))
      && (m.state == ResFirstMinor ==> IsDigit(ch) && n.state == ResMinor && Moved(m, 1, n))
      && (m.state == ResMinor && !IsDigit(ch) ==> ch == ' ' && n.state == ResFirstStatusCode && Moved(m, 1, n))
      && (m.state == ResFirstStatusCode && ch != ' ' ==> IsDigit(ch) && n.state == ResStatusCode && Moved(m, 1, n))
  {
    hide FieldChar, ValueStart, ValueChar, ChunkChar, BlockEnd, FieldStart, LineEnd;
  }

  lemma LeaveStatus(skip: bool, m: Machine, ch: char)
    requires m.ParsingHeader() && Step(skip, m, ch).Live?
    ensures var n := Step(skip, m, ch).m;
      && (m.state == ResStatusCode && !IsDigit(ch) ==>
            Moved(m, 1, n) && ((ch == ' ' && n.state == ResStatus) || (ch == CR && n.state == ResLineAlmostDone)
                               || (ch == LF && n.state == HeaderFieldStart)))
      && (m.state == ResStatus && (ch == CR || ch == LF) ==>
            Moved(m, 1, n) && n.state == if ch == CR then ResLineAlmostDone else HeaderFieldStart)
      && (m.state == ResLineAlmostDone ==> ch == LF && Moved(m, 1, n) && n.state == HeaderFieldStart)
  {
    hide FieldChar, ValueStart, ValueChar, ChunkChar, BlockEnd, FieldStart, LineEnd;
  }

  lemma ReadProtocol(skip: bool, m: Machine, text: string) returns (n: Machine, rest: string)
    requires Done(skip, m, text) && m.state == ResH && m.ParsingHeader()
    ensures text == "TTP/" + rest && Moved(m, 4, n) && n.state == ResFirstMajor && Done(skip, n, rest)
  {
    hide Step, Run;
    var a, n1, r1 := DoneByte(skip, m, text);
    LeaveProtocol(skip, m, a);
    var b, n2, r2 := DoneByte(skip, n1, r1);
    LeaveProtocol(skip, n1, b);
    var c, n3, r3 := DoneByte(skip, n2, r2);
    LeaveProtocol(skip, n2, c);
    var d;
    d, n, rest := DoneByte(skip, n3, r3);
    LeaveProtocol(skip, n3, d);
    assert text == ['T', 'T', 'P', '/'] + rest;
  }

  lemma OneDigit(skip: bool, k: Number, m: Machine, ch: char)
    requires m.state == FirstState(k) && m.ParsingHeader() && IsDigit(ch) && Run(skip, m, [ch]).Live?
    ensures NumberOk([ch]) && L.Room(m, 1) && (k == MajorNumber ==> ch != '0')
  {
    hide Step, Run, DecimalValue;
    DecimalSnoc([], ch);
    NoDecimal();
    assert [] + [ch] == [ch];
    RunOne(skip, m, ch);
    FirstTaken(skip, k, m, ch);
  }

  lemma MoreDigits(skip: bool, k: Number, m: Machine, s: string, ch: char)
    requires m.state == FirstState(k) && m.ParsingHeader() && NumberOk(s) && L.Room(m, |s|) && IsDigit(ch)
    requires k == MajorNumber ==> s[0] != '0'
    requires Run(skip, m, s + [ch]).Live?
    ensures NumberOk(s + [ch]) && L.Room(m, |s| + 1)
  {
    hide Step, Run, DecimalValue, AllDigits, L.Advanced, WithNumber;
    DecimalSnoc(s, ch);
    RunSnoc(skip, m, s, ch);
    NumberRun(skip, k, m, s);
    AdvancedBy(m, |s|);
    var m1 := WithNumber(k, L.Advanced(m, |s|), DecimalValue(s));
    InNumber(k, L.Advanced(m, |s|), DecimalValue(s));
    NextTaken(skip, k, m1, DecimalValue(s), ch);
  }

  lemma LiveInit(skip: bool, m: Machine, s: string, ch: char)
    requires Run(skip, m, s + [ch]).Live?
    ensures Run(skip, m, s).Live?
  {
    hide Step, Run;
    RunSnoc(skip, m, s, ch);
  }

  /** Digits that are taken are a number of at most 999. */
  lemma {:induction false} NumberTaken(skip: bool, k: Number, m: Machine, s: string)
    requires m.state == FirstState(k) && m.ParsingHeader() && s != [] && AllDigits(s) && Run(skip, m, s).Live?
    ensures NumberOk(s) && L.Room(m, |s|) && (k == MajorNumber ==> s[0] != '0')
    decreases |s|
  {
    hide *;
    var init, ch := s[..|s|-1], s[|s|-1];
    assert s == init + [ch];
    DigitsInit(s);
    if init == [] {
      assert s == [ch];
      OneDigit(skip, k, m, ch);
    } else {
      LiveInit(skip, m, init, ch);
      NumberTaken(skip, k, m, init);
      assert init[0] == s[0];
      MoreDigits(skip, k, m, init, ch);
    }
  }

  lemma InNumber(k: Number, m: Machine, v: nat)
    requires !m.flags.trailing
    ensures var n := WithNumber(k, m, v);
      n.ParsingHeader() && n.state == NumberState(k) && n == WithNumber(k, n, v) && n.nread == m.nread
  {}

  lemma AdvancedBy(m: Machine, k: nat)
    requires m.ParsingHeader()
    ensures L.Advanced(m, k) == m.(nread := m.nread + k)
  {}

  lemma FirstTaken(skip: bool, k: Number, m: Machine, ch: char)
    requires m.state == FirstState(k) && m.ParsingHeader() && IsDigit(ch) && Step(skip, m, ch).Live?
    ensures L.Room(m, 1) && (k == MajorNumber ==> ch != '0')
  {
    hide FieldChar, ValueStart, ValueChar, ChunkChar, BlockEnd, FieldStart, LineEnd;
  }

  lemma NextTaken(skip: bool, k: Number, m: Machine, v: nat, ch: char)
    requires m.state == NumberState(k) && m.ParsingHeader() && m == WithNumber(k, m, v)
    requires IsDigit(ch) && Step(skip, m, ch).Live?
    ensures L.Room(m, 1) && 10 * v + DigitOf(ch) <= 999
  {
    hide FieldChar, ValueStart, ValueChar, ChunkChar, BlockEnd, FieldStart, LineEnd;
  }

  /** A number and the byte behind it. */
  lemma ReadNumber(skip: bool, k: Number, m: Machine, text: string) returns (s: string, n: Machine, rest: string)
    requires Done(skip, m, text) && m.state == FirstState(k) && m.ParsingHeader()
    requires k == StatusNumber ==> text != [] && text[0] != ' '
    ensures NumberOk(s) && (k == MajorNumber ==> s[0] != '0') && text == s + rest && rest != [] && !IsDigit(rest[0])
    ensures Moved(m, |s|, n) && n.state == NumberState(k) && Done(skip, n, rest)
  {
    hide Step, Run, Moved, Keeps, IsDigit, DecimalValue;
    var d, n1, rest1 := DoneByte(skip, m, text);
    LeaveNumber(skip, m, d);
    MovedIn(m, 1, n1);
    var t;
    t, n, rest := DoneSpan(skip, n1, rest1);
    MovedOn(m, 1, n1, |t|, n);
    s := [d] + t;
    assert [d] + (t + rest) == s + rest;
    DigitsKept(k, t, rest[0]);
    AllAreDigits(d, t);
    DoneSplit(skip, m, s, rest);
    NumberTaken(skip, k, m, s);
  }

  lemma DigitsKept(k: Number, t: string, ch: char)
    requires forall i :: 0 <= i < |t| ==> Keeps(NumberState(k), t[i])
    ensures AllDigits(t) && (Keeps(NumberState(k), ch) <==> IsDigit(ch))
  {}

  lemma AllAreDigits(d: char, t: string)
    requires IsDigit(d) && AllDigits(t)
    ensures AllDigits([d] + t)
  {}

  lemma StillParsing(m: Machine, k: nat, n: Machine)
    requires Moved(m, k, n) && m.ParsingHeader()
    ensures n.ParsingHeader() && n.nread == m.nread + k <= MAX_HEADER_SIZE
  {}

  lemma ReadVersion(skip: bool, m: Machine, text: string)
    returns (major: string, minor: string, n: Machine, rest: string)
    requires Done(skip, m, text) && m.state == ResH && m.ParsingHeader()
    ensures NumberOk(major) && major[0] != '0' && NumberOk(minor)
    ensures text == "TTP/" + (major + ("." + (minor + (" " + rest))))
    ensures n.nread == m.nread + 6 + |major| + |minor| <= MAX_HEADER_SIZE && n.ParsingHeader()
    ensures n.state == ResFirstStatusCode && Done(skip, n, rest)
  {
    hide Step, Run, Moved, NumberOk, IsDigit;
    var n1, r1 := ReadProtocol(skip, m, text);
    StillParsing(m, 4, n1);
    var n2, r2;
    major, n2, r2 := ReadNumber(skip, MajorNumber, n1, r1);
    StillParsing(n1, |major|, n2);
    var dot, n3, r3 := DoneByte(skip, n2, r2);
    LeaveNumber(skip, n2, dot);
    StillParsing(n2, 1, n3);
    var n4, r4;
    minor, n4, r4 := ReadNumber(skip, MinorNumber, n3, r3);
    StillParsing(n3, |minor|, n4);
    var space;
    space, n, rest := DoneByte(skip, n4, r4);
    LeaveNumber(skip, n4, space);
    StillParsing(n4, 1, n);
  }

  /** The line end of a status line. */
  lemma ReadStatusEnd(skip: bool, m: Machine, text: string) returns (crlf: bool, n: Machine, rest: string)
    requires Done(skip, m, text) && (m.state == ResStatusCode || m.state == ResStatus) && m.ParsingHeader()
    requires text != [] && (text[0] == CR || text[0] == LF)
    ensures text == L.EndOfLine(crlf) + rest && n.state == HeaderFieldStart && Done(skip, n, rest)
    ensures n.ParsingHeader() && n.nread == m.nread + |L.EndOfLine(crlf)| <= MAX_HEADER_SIZE
  {
    hide Step, Run, Moved;
    var ch, n1, rest1 := DoneByte(skip, m, text);
    assert !IsDigit(CR) && !IsDigit(LF);
    LeaveStatus(skip, m, ch);
    StillParsing(m, 1, n1);
    crlf, n, rest := ch == CR, n1, rest1;
    if crlf {
      var lf;
      lf, n, rest := DoneByte(skip, n1, rest1);
      LeaveStatus(skip, n1, lf);
      StillParsing(n1, 1, n);
      assert text == [CR, LF] + rest;
    }
  }

  lemma ReadReason(skip: bool, m: Machine, text: string)
    returns (reason: Option<string>, crlf: bool, n: Machine, rest: string)
    requires Done(skip, m, text) && m.state == ResStatusCode && m.ParsingHeader() && text != [] && !IsDigit(text[0])
    ensures text == ReasonText(reason) + (L.EndOfLine(crlf) + rest) && (reason.Some? ==> L.PlainText(reason.value))
    ensures n.nread == m.nread + |ReasonText(reason)| + |L.EndOfLine(crlf)| <= MAX_HEADER_SIZE && n.ParsingHeader()
    ensures n.state == HeaderFieldStart && Done(skip, n, rest)
  {
    hide Step, Run, Moved, L.EndOfLine, IsDigit;
    var n1, rest1;
    reason, n1, rest1 := ReadPhrase(skip, m, text);
    crlf, n, rest := ReadStatusEnd(skip, n1, rest1);
  }

  lemma ReadPhrase(skip: bool, m: Machine, text: string) returns (reason: Option<string>, n: Machine, rest: string)
    requires Done(skip, m, text) && m.state == ResStatusCode && m.ParsingHeader() && text != [] && !IsDigit(text[0])
    ensures text == ReasonText(reason) + rest && (reason.Some? ==> L.PlainText(reason.value))
    ensures n.nread == m.nread + |ReasonText(reason)| && n.ParsingHeader()
    ensures (n.state == ResStatusCode || n.state == ResStatus) && Done(skip, n, rest)
    ensures rest != [] && (rest[0] == CR || rest[0] == LF)
  {
    hide Step, Run, Moved, IsDigit;
    if text[0] == ' ' {
      var space, n1, rest1 := DoneByte(skip, m, text);
      LeaveStatus(skip, m, space);
      StillParsing(m, 1, n1);
      var s;
      s, n, rest := DoneSpan(skip, n1, rest1);
      StillParsing(n1, |s|, n);
      reason := Some(s);
      assert [' '] + (s + rest) == " " + s + rest;
    } else {
      reason, n, rest := None, m, text;
      var ch, n1, rest1 := DoneByte(skip, m, text);
      LeaveStatus(skip, m, ch);
      assert "" + rest == rest;
    }
  }

  lemma ReadCode(skip: bool, m: Machine, text: string)
    returns (spaces: nat, status: string, reason: Option<string>, crlf: bool, n: Machine, rest: string)
    requires Done(skip, m, text) && m.state == ResFirstStatusCode && m.ParsingHeader() && m.nread <= MAX_HEADER_SIZE
    ensures NumberOk(status) && (reason.Some? ==> L.PlainText(reason.value))
    ensures text == L.Spaces(spaces) + (status + (ReasonText(reason) + (L.EndOfLine(crlf) + rest)))
    ensures n.ParsingHeader()
    ensures n.nread == m.nread + spaces + |status| + |ReasonText(reason)| + |L.EndOfLine(crlf)| <= MAX_HEADER_SIZE
    ensures n.state == HeaderFieldStart && Done(skip, n, rest)
  {
    hide Step, Run, Moved, L.EndOfLine, L.Spaces, ReasonText, NumberOk, IsDigit;
    var s, n1, rest1 := DoneSpan(skip, m, text);
    StillParsing(m, |s|, n1);
    AllSpaces(s);
    spaces := |s|;
    var n2, rest2;
    status, n2, rest2 := ReadNumber(skip, StatusNumber, n1, rest1);
    StillParsing(n1, |status|, n2);
    reason, crlf, n, rest := ReadReason(skip, n2, rest2);
  }

  /** A whole status line. */
  lemma ReadStatus(skip: bool, m: Machine, text: string) returns (l: StatusLine, rest: string)
    requires Done(skip, m, text) && m.state == StartRes && text != [] && text[0] == 'H'
    ensures StatusLineOk(l) && text == StatusText(l) + rest
    ensures L.Room(m, 1) && L.Room(Fresh(m), |StatusText(l)| - 1) && |StatusText(l)| > 0
  {
    hide Step, Run, L.Spaces, L.EndOfLine, ReasonText, NumberOk, StatusText;
    assert text == "H" + text[1..];
    DoneSplit(skip, m, "H", text[1..]);
    RunOne(skip, m, 'H');
    OneMore(skip, m, 'H');
    FirstByte(skip, m);
    var major, minor, n, rest1 := ReadVersion(skip, Fresh(m), text[1..]);
    var spaces, status, reason, crlf, n2;
    spaces, status, reason, crlf, n2, rest := ReadCode(skip, n, rest1);
    l := StatusLine(major, minor, spaces, status, reason, crlf);
    StatusSplit(l, rest);
  }

  lemma StatusSplit(l: StatusLine, rest: string)
    ensures StatusText(l) + rest == "H" + ("TTP/" + (l.major + ("." + (l.minor + (" " +
              (L.Spaces(l.spaces) + (l.status + (ReasonText(l.reason) + (L.EndOfLine(l.crlf) + rest)))))))))
    ensures |StatusText(l)|
      == 7 + |l.major| + |l.minor| + l.spaces + |l.status| + |ReasonText(l.reason)| + |L.EndOfLine(l.crlf)|
  {
    StatusTextParts(l);
    hide StatusText, L.Spaces, L.EndOfLine, ReasonText;
    Five("TTP/", l.major, ".", l.minor, " ", CodeText(l) + rest);
    Four(L.Spaces(l.spaces), l.status, ReasonText(l.reason), L.EndOfLine(l.crlf), rest);
    assert "H" + (VersionText(l) + CodeText(l)) + rest == "H" + (VersionText(l) + (CodeText(l) + rest));
  }

  lemma Five(a: string, b: string, c: string, d: string, e: string, rest: string)
    ensures a + b + c + d + e + rest == a + (b + (c + (d + (e + rest))))
  {}

  lemma Four(a: string, b: string, c: string, d: string, rest: string)
    ensures a + b + c + d + rest == a + (b + (c + (d + rest)))
  {}

  // ----- chunks

  lemma LeaveSize(skip: bool, m: Machine, ch: char)
    requires Step(skip, m, ch).Live?
    ensures var n := Step(skip, m, ch).m;
      && (m.state == ChunkSizeStart ==> IsSizeDigit(ch) && n.state == ChunkSize)
      && (m.state == ChunkSize && !IsSizeDigit(ch) ==>
            (ch == CR && n.state == ChunkSizeAlmostDone) || ((ch == ';' || ch == ' ') && n.state == ChunkParameters))
      && (m.state == ChunkParameters && ch == CR ==> n.state == ChunkSizeAlmostDone)
      && (m.state == ChunkSizeAlmostDone ==> ch == LF)
      && (m.state == ChunkDataAlmostDone ==> ch == CR && n.state == ChunkDataDone)
      && (m.state == ChunkDataDone ==> ch == LF)
  {
    hide Unhex;
  }

  lemma ExtFrom(ch: char, s: string)
    requires (ch == ';' || ch == ' ') && forall i :: 0 <= i < |s| ==> Keeps(ChunkParameters, s[i])
    ensures ExtOk([ch] + s)
  {}

  lemma SizeFrom(d: char, s: string)
    requires IsSizeDigit(d) && forall i :: 0 <= i < |s| ==> Keeps(ChunkSize, s[i])
    ensures AllHex([d] + s)
  {
    hide IsSizeDigit;
  }

  lemma SizeKept(ch: char)
    ensures Keeps(ChunkSize, ch) <==> IsSizeDigit(ch)
  {
    hide IsSizeDigit;
  }

  /** The extension of a size line, up to its end. */
  lemma ReadExt(skip: bool, m: Machine, text: string) returns (ext: string, n: Machine, rest: string)
    requires Done(skip, m, text) && m.state == ChunkSize && text != [] && !IsSizeDigit(text[0])
    ensures ExtOk(ext) && text == ext + (CRLF + rest)
  {
    hide Step, Run, IsSizeDigit, Moved, Keeps;
    var c, n1, rest1 := DoneByte(skip, m, text);
    LeaveSize(skip, m, c);
    if c == CR {
      ext := [];
      var lf;
      lf, n, rest := DoneByte(skip, n1, rest1);
      LeaveSize(skip, n1, lf);
    } else {
      var s;
      s, n, rest := ReadParameters(skip, n1, rest1);
      ExtFrom(c, s);
      ext := [c] + s;
      assert [c] + (s + (CRLF + rest)) == ext + (CRLF + rest);
    }
  }

  lemma ReadParameters(skip: bool, m: Machine, text: string) returns (s: string, n: Machine, rest: string)
    requires Done(skip, m, text) && m.state == ChunkParameters
    ensures text == s + (CRLF + rest) && forall i :: 0 <= i < |s| ==> Keeps(ChunkParameters, s[i])
  {
    hide Step, Run, Moved, Keeps;
    var n1, rest1;
    s, n1, rest1 := DoneSpan(skip, m, text);
    ReturnEnds(rest1[0]);
    var cr, n2, rest2 := DoneByte(skip, n1, rest1);
    LeaveSize(skip, n1, cr);
    var lf;
    lf, n, rest := DoneByte(skip, n2, rest2);
    LeaveSize(skip, n2, lf);
    assert CRLF + rest == [CR] + ([LF] + rest);
  }

  lemma ReturnEnds(ch: char)
    ensures !Keeps(ChunkParameters, ch) ==> ch == CR
  {}

  lemma ReadSizeLine(skip: bool, m: Machine, text: string) returns (size: string, ext: string, rest: string)
    requires Done(skip, m, text) && m.state == ChunkSizeStart
    ensures size != [] && AllHex(size) && ExtOk(ext) && text == SizeLine(size, ext) + rest
  {
    hide Step, Run, IsSizeDigit, Moved, Keeps, ExtOk, AllHex;
    var d, n1, rest1 := DoneByte(skip, m, text);
    LeaveSize(skip, m, d);
    var s, n2, rest2 := DoneSpan(skip, n1, rest1);
    SizeKept(rest2[0]);
    SizeFrom(d, s);
    size := [d] + s;
    var n3;
    ext, n3, rest := ReadExt(skip, n2, rest2);
    assert [d] + (s + (ext + (CRLF + rest))) == size + ext + CRLF + rest;
  }

  /** The data of a chunk and the line end behind it. */
  lemma ReadData(skip: bool, m: Machine, text: string) returns (data: string, rest: string)
    requires Done(skip, m, text) && m.state == ChunkData && m.flags.chunked && m.contentLength > 0
    ensures |data| == m.contentLength && text == data + CRLF + rest
  {
    hide Step, Run;
    if |text| < m.contentLength {
      ChunkPrefix(skip, m, text);
    }
    data := text[..m.contentLength];
    var rest1 := text[m.contentLength..];
    assert text == data + rest1;
    DoneSplit(skip, m, data, rest1);
    ChunkWhole(skip, m, data);
    var cr, n1, rest2 := DoneByte(skip, Run(skip, m, data).m, rest1);
    LeaveSize(skip, Run(skip, m, data).m, cr);
    var lf, n2;
    lf, n2, rest := DoneByte(skip, n1, rest2);
    LeaveSize(skip, n1, lf);
    assert data + ([CR] + ([LF] + rest)) == data + CRLF + rest;
  }

  lemma ChunksFront(c: Chunk, cs: seq<Chunk>)
    ensures ChunksText([c] + cs) == ChunkText(c) + ChunksText(cs)
    decreases |cs|
  {
    hide ChunkText;
    if cs == [] {
      assert [c] + cs == [c] && [c][..0] == [];
      assert ChunksText([]) + ChunkText(c) == ChunkText(c) + ChunksText([]);
    } else {
      var init, last := cs[..|cs|-1], cs[|cs|-1];
      assert ([c] + cs)[..|cs|] == [c] + init;
      ChunksFront(c, init);
      assert ChunkText(c) + ChunksText(init) + ChunkText(last) == ChunkText(c) + (ChunksText(init) + ChunkText(last));
    }
  }

  /** The last size line and the trailer. */
  lemma ReadTrailer(skip: bool, m: Machine, size: string, ext: string, text: string) returns (b: BodyText, rest: string)
    requires Done(skip, m, text) && m.state == HeaderFieldStart && m.flags.trailing && Valued(Run(skip, m, text).out)
    requires SizeOk(size, 0) && ExtOk(ext)
    ensures b.Coded? && b.chunks == [] && b.lastSize == size && b.lastExt == ext
    ensures (forall h :: h in b.trailer ==> L.HeaderOk(h)) && ApplyBlock(L.MeaningOf(m), b.trailer).Some?
    ensures SizeLine(size, ext) + text == TextOfBody(b) + rest
  {
    hide Step, Run, Valued, SizeOk, ExtOk, BlockText, L.HeaderOk, ApplyBlock;
    var hs, crlf;
    hs, crlf, rest := ReadBlock(skip, m, text);
    b := Coded([], size, ext, hs, crlf);
    TrailerAlone(b);
    hide SizeLine, L.EndOfLine;
    Three(SizeLine(size, ext), BlockText(hs), L.EndOfLine(crlf), rest);
  }

  lemma TrailerAlone(b: BodyText)
    requires b.Coded? && b.chunks == []
    ensures TextOfBody(b) == TrailerText(b)
  {
    hide TrailerText;
  }

  lemma Three(a: string, b: string, c: string, rest: string)
    ensures a + b + c + rest == a + (b + (c + rest))
  {}

  /** A chunked body. */
  lemma {:induction false} ReadChunks(skip: bool, m: Machine, text: string) returns (b: BodyText, rest: string)
    requires Done(skip, m, text) && m.state == ChunkSizeStart && m.flags.chunked && Valued(Run(skip, m, text).out)
    ensures FramedAs(Chunks, b) && text == TextOfBody(b) + rest
    ensures ApplyBlock(L.Meaning(m.flags.(trailing := true), 0), b.trailer).Some?
    decreases |text|, 1
  {
    hide Step, Run, Valued, AllHex, HexValue, ExtOk, L.HeaderOk, ApplyBlock, SizeLine, ChunkText;
    var size, ext, rest1 := ReadSizeLine(skip, m, text);
    var k := HexValue(size);
    DoneSplit(skip, m, SizeLine(size, ext), rest1);
    SizeLineRun(skip, m, size, ext, k);
    var n := AfterSize(m, k);
    ValuedRest([], Run(skip, n, rest1).out);
    if k == 0 {
      b, rest := ReadTrailer(skip, n, size, ext, rest1);
    } else {
      var data, rest2 := ReadData(skip, n, rest1);
      var c := Chunk(size, ext, data);
      ChunkSplit(c, rest2);
      var more;
      more, rest := ReadMoreChunks(skip, m, text, c, rest2);
      b := more.(chunks := [c] + more.chunks);
      ChunksFront(c, more.chunks);
      CodedText(c, more, rest);
    }
  }

  lemma CodedText(c: Chunk, b: BodyText, rest: string)
    requires b.Coded?
    ensures ChunkText(c) + (TextOfBody(b) + rest) == TextOfBody(b.(chunks := [c] + b.chunks)) + rest
  {
    ChunksFront(c, b.chunks);
    hide ChunkText, ChunksText, TrailerText;
    assert TrailerText(b) == TrailerText(b.(chunks := [c] + b.chunks)) by { TrailerSame(c, b); }
    var t, u := ChunksText(b.chunks), TrailerText(b);
    assert ChunkText(c) + (t + u + rest) == ChunkText(c) + t + u + rest;
  }

  lemma TrailerSame(c: Chunk, b: BodyText)
    requires b.Coded?
    ensures TrailerText(b) == TrailerText(b.(chunks := [c] + b.chunks))
  {}

  /** The chunks behind one chunk. */
  lemma {:induction false} ReadMoreChunks(skip: bool, m: Machine, text: string, c: Chunk, rest2: string)
    returns (more: BodyText, rest: string)
    requires Done(skip, m, text) && m.state == ChunkSizeStart && m.flags.chunked && Valued(Run(skip, m, text).out)
    requires ChunkOk(c) && text == ChunkText(c) + rest2
    ensures FramedAs(Chunks, more) && text == ChunkText(c) + (TextOfBody(more) + rest)
    ensures ApplyBlock(L.Meaning(m.flags.(trailing := true), 0), more.trailer).Some?
    decreases |text|, 0
  {
    hide Step, Run, Valued, L.HeaderOk, ApplyBlock, ChunkText, ChunkOk, FramedAs;
    DoneSplit(skip, m, ChunkText(c), rest2);
    ChunkRun(skip, m, c);
    ChunkLonger(c);
    var n := m.(contentLength := 0);
    ValuedRest(Run(skip, m, ChunkText(c)).out, Run(skip, n, rest2).out);
    more, rest := ReadChunks(skip, n, rest2);
  }

  lemma ChunkSplit(c: Chunk, rest: string)
    ensures SizeLine(c.size, c.ext) + (c.data + CRLF + rest) == ChunkText(c) + rest
  {
    hide SizeLine;
  }

  lemma ChunkLonger(c: Chunk)
    ensures |ChunkText(c)| > 0
  {}
}
