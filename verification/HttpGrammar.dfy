/**
 The texts that the parser takes: blank lines and well-formed responses, and nothing else. HttpMessages.dfy
 shows that every well-formed response is taken; here every text that is taken is read back as such.
 */
module HttpGrammar {
  import opened Octets
  import opened HttpEvents
  import opened HttpMachine
  import opened HttpBody
  import opened HttpHeaders
  import L = HttpLines
  import opened HttpHead
  import opened HttpMessages
  import opened Options

  // ----- taking a text apart

  /** The text is consumed and the stream may end behind it. */
  ghost predicate Done(skip: bool, m: Machine, text: string) {
    Run(skip, m, text).Live? && AtRest(Run(skip, m, text).m.state)
  }

  lemma DoneSplit(skip: bool, m: Machine, a: string, b: string)
    requires Done(skip, m, a + b)
    ensures Run(skip, m, a).Live? && Done(skip, Run(skip, m, a).m, b)
    ensures Run(skip, m, a + b).out == Run(skip, m, a).out + Run(skip, Run(skip, m, a).m, b).out
  {
    hide Step, Run;
    RunConcat(skip, m, a, b);
  }

  /** Where the stream may not end there is another byte, and it is taken. */
  lemma DoneByte(skip: bool, m: Machine, text: string) returns (ch: char, n: Machine, rest: string)
    requires Done(skip, m, text) && !AtRest(m.state)
    ensures text == [ch] + rest && Step(skip, m, ch).Live? && n == Step(skip, m, ch).m && Done(skip, n, rest)
    ensures Run(skip, m, text).out == Step(skip, m, ch).out + Run(skip, n, rest).out
  {
    hide Step, Run;
    RunEmpty(skip, m);
    ch, rest := text[0], text[1..];
    assert text == [ch] + rest;
    DoneSplit(skip, m, [ch], rest);
    RunOne(skip, m, ch);
    n := Step(skip, m, ch).m;
  }

  /** `n` more bytes of a header, counted if they are to be counted, and still within the limit. */
  predicate Moved(m: Machine, n: nat, m1: Machine) {
    && (m1.ParsingHeader() <==> m.ParsingHeader())
    && (m.ParsingHeader() ==> m1.nread == m.nread + n <= MAX_HEADER_SIZE)
  }

  lemma MovedOn(m: Machine, a: nat, m1: Machine, b: nat, m2: Machine)
    requires Moved(m, a, m1) && Moved(m1, b, m2)
    ensures Moved(m, a + b, m2)
  {}

  /** The bytes after which the parser is in the same state. */
  predicate Keeps(s: State, ch: char) {
    match s
    case HeaderField => IsTokenChar(ch)
    case HeaderValueStart | ResFirstStatusCode => ch == ' '
    case HeaderValue | ResStatus => ch != CR && ch != LF
    case ResMajor | ResMinor | ResStatusCode => IsDigit(ch)
    case ChunkSize => IsSizeDigit(ch)
    case ChunkParameters => ch != CR
    case _ => false
  }

  lemma NameKeeps(m: Machine, ch: char)
    requires m.state == HeaderField && IsTokenChar(ch) && FieldChar(m, ch).Next?
    ensures FieldChar(m, ch).m.state == HeaderField && FieldChar(m, ch).m.flags == m.flags
    ensures FieldChar(m, ch).m.nread == m.nread
  {
    assert Token(ch) != NUL;
    hide Token;
  }

  lemma ValueKeeps(m: Machine, ch: char)
    requires m.state == HeaderValue && ch != CR && ch != LF && ValueChar(m, ch).Next?
    ensures ValueChar(m, ch).m.state == HeaderValue && ValueChar(m, ch).m.flags == m.flags
    ensures ValueChar(m, ch).m.nread == m.nread
  {
    hide OrBit5;
  }

  lemma SizeKeeps(m: Machine, ch: char)
    requires (m.state == ChunkSize || m.state == ChunkParameters) && Keeps(m.state, ch) && ChunkChar(m, ch).Next?
    ensures ChunkChar(m, ch).m.state == m.state && ChunkChar(m, ch).m.flags == m.flags
  {
    assert Unhex(CR) == -1;
    hide Unhex;
  }

  lemma DigitKeeps(m: Machine, ch: char)
    requires IsDigit(ch)
    ensures m.state == ResMajor && Major(m, ch).Next? ==>
      Major(m, ch).m.state == ResMajor && Major(m, ch).m.flags == m.flags && Major(m, ch).m.nread == m.nread
    ensures m.state == ResMinor && Minor(m, ch).Next? ==>
      Minor(m, ch).m.state == ResMinor && Minor(m, ch).m.flags == m.flags && Minor(m, ch).m.nread == m.nread
    ensures m.state == ResStatusCode && StatusCode(m, ch).Next? ==>
      && StatusCode(m, ch).m.state == ResStatusCode && StatusCode(m, ch).m.flags == m.flags
      && StatusCode(m, ch).m.nread == m.nread
  {}

  lemma KeepsStep(skip: bool, m: Machine, ch: char)
    requires Keeps(m.state, ch) && Step(skip, m, ch).Live?
    ensures var n := Step(skip, m, ch).m; n.state == m.state && Moved(m, 1, n)
  {
    if m.state == ChunkSize || m.state == ChunkParameters {
      SizeKeeps(m, ch);
      hide ChunkChar, Keeps;
    } else if m.state == ResMajor || m.state == ResMinor || m.state == ResStatusCode {
      hide Major, Minor, StatusCode;
      DigitKeeps(Counted(m), ch);
    } else {
      hide FieldChar, ValueChar, IsTokenChar, ChunkChar, Major, Minor, StatusCode;
      if m.state == HeaderField {
        NameKeeps(Counted(m), ch);
      } else if m.state == HeaderValue {
        ValueKeeps(Counted(m), ch);
      }
    }
  }

  lemma {:induction false} KeepsRun(skip: bool, m: Machine, s: string)
    requires (forall i :: 0 <= i < |s| ==> Keeps(m.state, s[i])) && Run(skip, m, s).Live?
    requires m.ParsingHeader() ==> m.nread <= MAX_HEADER_SIZE
    ensures var n := Run(skip, m, s).m; n.state == m.state && Moved(m, |s|, n)
    decreases |s|
  {
    hide Step, Run, Keeps;
    if s == [] {
      RunEmpty(skip, m);
    } else {
      var init, ch := s[..|s|-1], s[|s|-1];
      assert s == init + [ch];
      RunSnoc(skip, m, init, ch);
      KeepsRun(skip, m, init);
      KeepsStep(skip, Run(skip, m, init).m, ch);
      MovedOn(m, |init|, Run(skip, m, init).m, 1, Run(skip, m, s).m);
    }
  }

  function Length(s: State, text: string): (n: nat)
    ensures n <= |text| && (forall i :: 0 <= i < n ==> Keeps(s, text[i])) && (n < |text| ==> !Keeps(s, text[n]))
  {
    if text == [] || !Keeps(s, text[0]) then 0 else 1 + Length(s, text[1..])
  }

  /** As many such bytes as there are. */
  lemma DoneSpan(skip: bool, m: Machine, text: string) returns (s: string, n: Machine, rest: string)
    requires Done(skip, m, text) && !AtRest(m.state) && (m.ParsingHeader() ==> m.nread <= MAX_HEADER_SIZE)
    ensures text == s + rest && rest != [] && (forall i :: 0 <= i < |s| ==> Keeps(m.state, s[i]))
    ensures !Keeps(m.state, rest[0])
    ensures Run(skip, m, s).Live? && n == Run(skip, m, s).m && n.state == m.state && Moved(m, |s|, n)
    ensures Done(skip, n, rest) && Run(skip, m, text).out == Run(skip, m, s).out + Run(skip, n, rest).out
  {
    hide Step, Run, Keeps;
    var k := Length(m.state, text);
    s, rest := text[..k], text[k..];
    assert text == s + rest;
    DoneSplit(skip, m, s, rest);
    KeepsRun(skip, m, s);
    n := Run(skip, m, s).m;
    RunEmpty(skip, n);
  }

  // ----- lines

  /** What may follow the bytes of a part of a line. */
  lemma LeaveName(skip: bool, m: Machine, ch: char)
    requires m.state == HeaderField && !IsTokenChar(ch) && Step(skip, m, ch).Live?
    ensures var r := Step(skip, m, ch);
      && Moved(m, 1, r.m) && r.out == [Data(Field, [])]
      && ((ch == ':' && r.m.state == HeaderValueStart) || (ch == CR && r.m.state == HeaderAlmostDone)
          || (ch == LF && r.m.state == HeaderFieldStart))
  {
    hide NameChar;
  }

  lemma LeaveSpaces(skip: bool, m: Machine, ch: char)
    requires m.state == HeaderValueStart && ch != ' ' && Step(skip, m, ch).Live?
    ensures var n := Step(skip, m, ch).m;
      && Moved(m, 1, n)
      && n.state == if ch == CR then HeaderAlmostDone else if ch == LF then HeaderFieldStart else HeaderValue
  {
    hide OrBit5;
  }

  lemma LeaveValue(skip: bool, m: Machine, ch: char)
    requires m.state == HeaderValue && (ch == CR || ch == LF) && Step(skip, m, ch).Live?
    ensures var n := Step(skip, m, ch).m;
      && Moved(m, 1, n)
      && n.state == if ch == CR then HeaderAlmostDone else HeaderFieldStart
  {}

  lemma LeaveReturn(skip: bool, m: Machine, ch: char)
    requires m.state == HeaderAlmostDone && Step(skip, m, ch).Live?
    ensures var r := Step(skip, m, ch); var n := r.m;
      ch == LF && n.state == HeaderFieldStart && r.out == [] && Moved(m, 1, n)
  {}

  lemma LeaveStart(skip: bool, m: Machine, ch: char)
    requires m.state == HeaderFieldStart && Step(skip, m, ch).Live?
    ensures var r := Step(skip, m, ch);
      IsTokenChar(ch) ==> r.m.state == HeaderField && Moved(m, 1, r.m) && r.out == [Data(Field, [ch])]
    ensures !IsTokenChar(ch) ==> ch == CR || ch == LF
    ensures var r := Step(skip, m, ch); ch == CR ==> r.m.state == HeadersAlmostDone && Moved(m, 1, r.m) && r.out == []
  {
    assert Token(ch) != NUL <==> IsTokenChar(ch);
    hide BlockEnd, Token;
  }

  /** Every field is followed by its value: there is no line without a colon. */
  ghost predicate Valued(t: seq<Event>) {
    forall k :: 0 <= k < |t| && t[k] == Data(Field, []) ==>
      k + 1 < |t| && t[k + 1].Data? && t[k + 1].kind == Value
  }

  lemma ValuedRest(a: seq<Event>, b: seq<Event>)
    requires Valued(a + b)
    ensures Valued(b)
  {
    forall k | 0 <= k < |b| && b[k] == Data(Field, [])
      ensures k + 1 < |b| && b[k + 1].Data? && b[k + 1].kind == Value
    {
      assert (a + b)[|a| + k] == Data(Field, []);
      assert k + 1 < |b| ==> (a + b)[|a| + k + 1] == b[k + 1];
    }
  }

  /** No line starts with a value. */
  lemma NoValueFirst(skip: bool, m: Machine, text: string)
    requires Done(skip, m, text) && m.state == HeaderFieldStart
    ensures var out := Run(skip, m, text).out; out == [] || !(out[0].Data? && out[0].kind == Value)
  {
    hide Run, Step;
    var ch, n, rest := DoneByte(skip, m, text);
    LeaveStart(skip, m, ch);
    if ch == CR {
      var lf, n2, rest2 := DoneByte(skip, n, rest);
      EndNotes(skip, n, lf);
      assert Run(skip, m, text).out == Run(skip, n, rest).out;
    } else if ch == LF {
      EndNotes(skip, m, ch);
    }
  }

  lemma EndNotes(skip: bool, m: Machine, ch: char)
    requires (m.state == HeadersAlmostDone || (m.state == HeaderFieldStart && ch == LF)) && Step(skip, m, ch).Live?
    ensures ch == LF && var out := Step(skip, m, ch).out; out != [] && !out[0].Data?
  {}

  predicate InValue(s: State) { s == HeaderValueStart || s == HeaderValue }

  /** The end of a line. */
  lemma ReadLineEnd(skip: bool, m: Machine, text: string) returns (crlf: bool, n: Machine, rest: string)
    requires Done(skip, m, text) && InValue(m.state) && text != [] && (text[0] == CR || text[0] == LF)
    ensures text == L.EndOfLine(crlf) + rest && Moved(m, |L.EndOfLine(crlf)|, n)
    ensures n.state == HeaderFieldStart && Done(skip, n, rest)
  {
    hide Step, Run, Moved;
    var ch, n1, rest1 := DoneByte(skip, m, text);
    if m.state == HeaderValueStart {
      LeaveSpaces(skip, m, ch);
    } else {
      LeaveValue(skip, m, ch);
    }
    crlf := ch == CR;
    n, rest := n1, rest1;
    if crlf {
      var lf;
      lf, n, rest := DoneByte(skip, n1, rest1);
      LeaveReturn(skip, n1, lf);
      MovedOn(m, 1, n1, 1, n);
      assert text == [CR, LF] + rest;
    }
  }

  lemma AllSpaces(s: string)
    requires forall i :: 0 <= i < |s| ==> Keeps(HeaderValueStart, s[i])
    ensures s == L.Spaces(|s|)
  {}

  /** A value that is not empty, and the end of the line. */
  lemma ReadPlain(skip: bool, m: Machine, text: string)
    returns (value: string, crlf: bool, n: Machine, rest: string)
    requires Done(skip, m, text) && m.state == HeaderValueStart && (m.ParsingHeader() ==> m.nread <= MAX_HEADER_SIZE)
    requires text != [] && text[0] != CR && text[0] != LF && text[0] != ' '
    ensures text == value + (L.EndOfLine(crlf) + rest) && value != [] && value[0] != ' ' && L.PlainText(value)
    ensures Moved(m, |value| + |L.EndOfLine(crlf)|, n) && n.state == HeaderFieldStart && Done(skip, n, rest)
  {
    hide Step, Run, Moved, L.EndOfLine;
    var ch, n1, rest1 := DoneByte(skip, m, text);
    LeaveSpaces(skip, m, ch);
    MovedIn(m, 1, n1);
    var v, n2, rest2 := DoneSpan(skip, n1, rest1);
    MovedOn(m, 1, n1, |v|, n2);
    value := [ch] + v;
    crlf, n, rest := ReadLineEnd(skip, n2, rest2);
    MovedOn(m, |value|, n2, |L.EndOfLine(crlf)|, n);
    assert [ch] + (v + rest2) == value + rest2;
  }

  /** Spaces, a value and the end of the line. */
  lemma ReadValue(skip: bool, m: Machine, text: string)
    returns (spaces: nat, value: string, crlf: bool, n: Machine, rest: string)
    requires Done(skip, m, text) && m.state == HeaderValueStart && (m.ParsingHeader() ==> m.nread <= MAX_HEADER_SIZE)
    ensures text == L.Spaces(spaces) + (value + (L.EndOfLine(crlf) + rest))
    ensures L.PlainText(value) && (value != [] ==> value[0] != ' ')
    ensures Moved(m, spaces + (|value| + |L.EndOfLine(crlf)|), n) && n.state == HeaderFieldStart && Done(skip, n, rest)
  {
    hide Step, Run, Moved, L.EndOfLine, L.Spaces;
    var s, n1, rest1 := DoneSpan(skip, m, text);
    AllSpaces(s);
    spaces := |s|;
    MovedIn(m, spaces, n1);
    if rest1[0] == CR || rest1[0] == LF {
      value := [];
      crlf, n, rest := ReadLineEnd(skip, n1, rest1);
      assert value + rest1 == rest1;
    } else {
      value, crlf, n, rest := ReadPlain(skip, n1, rest1);
    }
    MovedOn(m, spaces, n1, |value| + |L.EndOfLine(crlf)|, n);
  }

  lemma MovedIn(m: Machine, k: nat, n: Machine)
    requires Moved(m, k, n)
    ensures (n.ParsingHeader() ==> n.nread <= MAX_HEADER_SIZE) && L.Room(m, k)
  {}

  /** Only a colon ends a name whose value is to come. */
  lemma ColonFollows(skip: bool, m: Machine, text: string)
    requires Done(skip, m, text) && m.state == HeaderField && text != [] && !IsTokenChar(text[0])
    requires Valued(Run(skip, m, text).out)
    ensures text[0] == ':'
  {
    hide Step, Run, IsTokenChar, Moved, Valued;
    var c, n, rest := DoneByte(skip, m, text);
    LeaveName(skip, m, c);
    if c == LF {
      NoValueFirst(skip, n, rest);
      NotValued(Run(skip, n, rest).out);
    } else if c == CR {
      var lf, n2, rest2 := DoneByte(skip, n, rest);
      LeaveReturn(skip, n, lf);
      NothingBefore(Run(skip, n2, rest2).out);
      NoValueFirst(skip, n2, rest2);
      NotValued(Run(skip, n, rest).out);
    }
  }

  lemma NotValued(t: seq<Event>)
    requires t == [] || !(t[0].Data? && t[0].kind == Value)
    ensures !Valued([Data(Field, [])] + t)
  {
    var u := [Data(Field, [])] + t;
    assert u[0] == Data(Field, []);
    assert t != [] ==> u[1] == t[0];
  }

  lemma NothingBefore(t: seq<Event>)
    ensures [] + t == t
  {}

  /** A name, up to its colon. */
  lemma ReadName(skip: bool, m: Machine, text: string) returns (name: string, n: Machine, rest: string)
    requires Done(skip, m, text) && m.state == HeaderFieldStart && (m.ParsingHeader() ==> m.nread <= MAX_HEADER_SIZE)
    requires text != [] && IsTokenChar(text[0]) && Valued(Run(skip, m, text).out)
    ensures L.NameOk(name) && text == name + rest && rest != [] && rest[0] == ':'
    ensures Moved(m, |name|, n) && n.state == HeaderField && Done(skip, n, rest)
  {
    hide Step, Run, Moved, IsTokenChar, Valued;
    var ch, n1, rest1 := DoneByte(skip, m, text);
    LeaveStart(skip, m, ch);
    MovedIn(m, 1, n1);
    var s;
    s, n, rest := DoneSpan(skip, n1, rest1);
    MovedOn(m, 1, n1, |s|, n);
    name := [ch] + s;
    assert [ch] + (s + rest) == name + rest;
    NameIs(ch, s);
    ValuedRest(Step(skip, m, ch).out, Run(skip, n1, rest1).out);
    ValuedRest(Run(skip, n1, s).out, Run(skip, n, rest).out);
    NotKept(rest[0]);
    ColonFollows(skip, n, rest);
  }

  lemma NotKept(ch: char)
    ensures Keeps(HeaderField, ch) <==> IsTokenChar(ch)
  {
    hide IsTokenChar;
  }

  /** A header line, name first. */
  lemma ReadLine(skip: bool, m: Machine, text: string) returns (h: L.Header, rest: string)
    requires Done(skip, m, text) && m.state == HeaderFieldStart && (m.ParsingHeader() ==> m.nread <= MAX_HEADER_SIZE)
    requires text != [] && IsTokenChar(text[0]) && Valued(Run(skip, m, text).out)
    ensures L.HeaderOk(h) && text == L.LineText(h) + rest && L.Room(m, |L.LineText(h)|)
  {
    hide Step, Run, Moved, IsTokenChar, Valued, L.NameOk, L.LineText;
    var name, n1, rest1 := ReadName(skip, m, text);
    ColonNoToken();
    var c, n2, rest2 := DoneByte(skip, n1, rest1);
    LeaveName(skip, n1, c);
    MovedOn(m, |name|, n1, 1, n2);
    MovedIn(m, |name| + 1, n2);
    var spaces, value, crlf, n;
    spaces, value, crlf, n, rest := ReadValue(skip, n2, rest2);
    h := L.Header(name, spaces, value, crlf);
    ReadTotal(m, |name| + 1, n2, h, n);
    LineSplit(h, rest);
  }

  lemma ColonNoToken()
    ensures !IsTokenChar(':')
  {}

  lemma NameIs(ch: char, s: string)
    requires IsTokenChar(ch) && forall i :: 0 <= i < |s| ==> Keeps(HeaderField, s[i])
    ensures L.NameOk([ch] + s)
  {
    hide IsTokenChar;
  }

  lemma ReadTotal(m: Machine, k: nat, n1: Machine, h: L.Header, n: Machine)
    requires k == |h.name| + 1 && Moved(m, k, n1) && Moved(n1, h.spaces + (|h.value| + |L.EndOfLine(h.crlf)|), n)
    ensures L.Room(m, |L.LineText(h)|)
  {
    L.TextLength(h);
    MovedOn(m, k, n1, h.spaces + |h.value| + |L.EndOfLine(h.crlf)|, n);
  }

  lemma LineSplit(h: L.Header, rest: string)
    ensures L.LineText(h) + rest
      == h.name + ([':'] + (L.Spaces(h.spaces) + (h.value + (L.EndOfLine(h.crlf) + rest))))
  {}

  // ----- blocks and heads

  lemma BlockFront(h: L.Header, hs: seq<L.Header>)
    ensures BlockText([h] + hs) == L.LineText(h) + BlockText(hs)
    decreases |hs|
  {
    hide L.LineText;
    if hs == [] {
      assert [h] + hs == [h] && [h][..0] == [];
      assert BlockText([]) + L.LineText(h) == L.LineText(h) + BlockText([]);
    } else {
      var init, last := hs[..|hs|-1], hs[|hs|-1];
      assert ([h] + hs)[..|hs|] == [h] + init;
      BlockFront(h, init);
      assert L.LineText(h) + BlockText(init) + L.LineText(last) == L.LineText(h) + (BlockText(init) + L.LineText(last));
    }
  }

  lemma ApplyFront(s: L.Meaning, h: L.Header, hs: seq<L.Header>)
    ensures ApplyBlock(s, [h] + hs) ==
      match L.ApplyHeader(s, h.name, h.value)
      case Some(s1) => ApplyBlock(s1, hs)
      case None => None
    decreases |hs|
  {
    hide L.ApplyHeader;
    if hs == [] {
      assert [h] + hs == [h] && [h][..0] == [];
    } else {
      assert ([h] + hs)[..|hs|] == [h] + hs[..|hs|-1];
      ApplyFront(s, h, hs[..|hs|-1]);
    }
  }

  /** The empty line at the end of a block. */
  lemma ReadEmptyLine(skip: bool, m: Machine, text: string) returns (crlf: bool, rest: string)
    requires Done(skip, m, text) && m.state == HeaderFieldStart && text != [] && !IsTokenChar(text[0])
    ensures text == L.EndOfLine(crlf) + rest && L.Room(m, |L.EndOfLine(crlf)|)
  {
    hide Step, Run, Moved, IsTokenChar;
    var ch, n, rest1 := DoneByte(skip, m, text);
    LeaveStart(skip, m, ch);
    crlf, rest := ch == CR, rest1;
    if crlf {
      var lf, n2, rest2 := DoneByte(skip, n, rest1);
      EndNotes(skip, n, lf);
      OneMore(skip, n, lf);
      rest := rest2;
      RoomForTwo(m, n);
      assert text == [CR, LF] + rest;
    } else {
      OneMore(skip, m, ch);
    }
  }

  lemma OneMore(skip: bool, m: Machine, ch: char)
    requires Step(skip, m, ch).Live? && !m.BulkState()
    ensures L.Room(m, 1)
  {}

  lemma RoomForTwo(m: Machine, n: Machine)
    requires Moved(m, 1, n) && L.Room(n, 1)
    ensures L.Room(m, 2)
  {}

  /** A block of headers and the empty line behind it. */
  lemma {:induction false} ReadBlock(skip: bool, m: Machine, text: string)
    returns (hs: seq<L.Header>, crlf: bool, rest: string)
    requires Done(skip, m, text) && m.state == HeaderFieldStart && (m.ParsingHeader() ==> m.nread <= MAX_HEADER_SIZE)
    requires Valued(Run(skip, m, text).out)
    ensures (forall h :: h in hs ==> L.HeaderOk(h)) && ApplyBlock(L.MeaningOf(m), hs).Some?
    ensures text == BlockText(hs) + (L.EndOfLine(crlf) + rest)
    ensures L.Room(m, |BlockText(hs)| + |L.EndOfLine(crlf)|)
    decreases |text|
  {
    hide Run, Step, IsTokenChar, Valued, L.EndOfLine, L.LineText, L.HeaderOk, L.ApplyHeader;
    RunEmpty(skip, m);
    if IsTokenChar(text[0]) {
      var h, rest1 := ReadLine(skip, m, text);
      var n := HeaderAccepted(skip, m, h, rest1);
      var more;
      more, crlf, rest := ReadBlock(skip, n, rest1);
      hs := [h] + more;
      BlockFront(h, more);
      ApplyFront(L.MeaningOf(m), h, more);
      assert text == BlockText(hs) + (L.EndOfLine(crlf) + rest);
    } else {
      hs := [];
      crlf, rest := ReadEmptyLine(skip, m, text);
      assert BlockText(hs) + text == text;
    }
  }

  /** A line that is taken has a meaning, and leaves the parser at the next line. */
  lemma HeaderAccepted(skip: bool, m: Machine, h: L.Header, rest: string) returns (n: Machine)
    requires Done(skip, m, L.LineText(h) + rest) && m.state == HeaderFieldStart
    requires L.HeaderOk(h) && L.Room(m, |L.LineText(h)|) && Valued(Run(skip, m, L.LineText(h) + rest).out)
    ensures L.ApplyHeader(L.MeaningOf(m), h.name, h.value) == Some(L.MeaningOf(n))
    ensures n.state == HeaderFieldStart && (n.ParsingHeader() <==> m.ParsingHeader())
    ensures m.ParsingHeader() ==> n.nread == m.nread + |L.LineText(h)| <= MAX_HEADER_SIZE
    ensures Done(skip, n, rest) && Valued(Run(skip, n, rest).out) && 0 < |L.LineText(h)|
    ensures m.upgrade == n.upgrade
  {
    hide Step, Run, Valued, L.ApplyHeader, L.HeaderOk, L.LineText;
    DoneSplit(skip, m, L.LineText(h), rest);
    L.TextLength(h);
    if L.ApplyHeader(L.MeaningOf(m), h.name, h.value).None? {
      L.HeaderLineRejected(skip, m, h);
    }
    L.HeaderLine(skip, m, h);
    HeaderKeepsTrailing(L.MeaningOf(m), h);
    n := Run(skip, m, L.LineText(h)).m;
    ValuedRest(Run(skip, m, L.LineText(h)).out, Run(skip, n, rest).out);
  }
}
