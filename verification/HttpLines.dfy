/**
 Header lines through the machine: what a line does to the parser is what the header means.
 */
module HttpLines {
  import opened Octets
  import opened HttpEvents
  import opened HttpMachine
  import opened HttpHeaders
  import opened Options

  /** A header line: name ':' spaces value line-end. */
  datatype Header = Header(name: string, spaces: nat, value: string, crlf: bool)

  function EndOfLine(crlf: bool): string { if crlf then [CR, LF] else [LF] }

  function Spaces(n: nat): (s: string)
    ensures |s| == n && forall i :: 0 <= i < n ==> s[i] == ' '
  {
    seq(n, _ => ' ')
  }

  function LineText(h: Header): string {
    h.name + ":" + Spaces(h.spaces) + h.value + EndOfLine(h.crlf)
  }

  predicate NameOk(name: string) {
    name != [] && forall i :: 0 <= i < |name| ==> IsTokenChar(name[i])
  }

  ghost predicate PlainText(s: string) {
    forall i :: 0 <= i < |s| ==> Plain(s[i])
  }

  ghost predicate HeaderOk(h: Header) {
    NameOk(h.name) && PlainText(h.value) && (h.value != [] ==> h.value[0] != ' ')
  }

  // ----- what a header means

  datatype Meaning = Meaning(flags: Flags, contentLength: int)

  predicate Named(name: string, word: string) { IsPadded(word, Lowered(name)) }

  predicate LengthText(value: string) {
    && value != [] && IsDigit(value[0])
    && forall i :: 0 <= i < |value| ==> IsDigit(value[i]) || value[i] == ' '
  }

  /** The digits of a value, without its spaces. */
  function Digits(value: string): (d: string)
    requires forall i :: 0 <= i < |value| ==> IsDigit(value[i]) || value[i] == ' '
    ensures AllDigits(d)
  {
    if value == [] then []
    else
      var init, last := value[..|value|-1], value[|value|-1];
      if last == ' ' then Digits(init) else Digits(init) + [last]
  }

  /** The effect of one header on the message, or None for a malformed one. */
  function ApplyHeader(s: Meaning, name: string, value: string): Option<Meaning> {
    if value == [] then Some(s)
    else if Named(name, CONNECTION) || Named(name, PROXY_CONNECTION) then
      if Named(value, KEEP_ALIVE) then Some(s.(flags := s.flags.(keepAlive := true)))
      else if Named(value, CLOSE) then Some(s.(flags := s.flags.(close := true)))
      else Some(s)
    else if Named(name, CONTENT_LENGTH) then
      if LengthText(value) then Some(s.(contentLength := DecimalValue(Digits(value)))) else None
    else if Named(name, TRANSFER_ENCODING) then
      if Named(value, CHUNKED) then Some(s.(flags := s.flags.(chunked := true))) else Some(s)
    else if Named(name, UPGRADE) then Some(s.(flags := s.flags.(upgrade := true)))
    else Some(s)
  }

  function MeaningOf(m: Machine): Meaning { Meaning(m.flags, m.contentLength) }

  // ----- runs

  /** `n` more bytes of a header block, as far as the size limit is concerned. */
  function Advanced(m: Machine, n: nat): Machine {
    if m.ParsingHeader() then m.(nread := m.nread + n) else m
  }

  predicate Room(m: Machine, n: nat) {
    m.ParsingHeader() ==> m.nread + n <= MAX_HEADER_SIZE
  }

  ghost predicate Goes(skip: bool, m: Machine, data: string, m1: Machine, out: seq<Event>) {
    Run(skip, m, data) == Live(m1, out)
  }

  lemma Chain(skip: bool, m: Machine, a: string, m1: Machine, o1: seq<Event>, b: string, m2: Machine, o2: seq<Event>)
    requires Goes(skip, m, a, m1, o1) && Goes(skip, m1, b, m2, o2)
    ensures Goes(skip, m, a + b, m2, o1 + o2)
  {
    hide Step;
    RunConcat(skip, m, a, b);
  }

  /** One byte, given its verdict. */
  lemma OneByte(skip: bool, m: Machine, ch: char)
    requires !m.BulkState() && Switch(skip, m, ch).Next?
    ensures var v := Switch(skip, m, ch);
            Goes(skip, m, [ch], v.m, Emitted(v.op, v.m.state, ch))
  {
    RunOne(skip, m, ch);
    hide Switch, Run;
  }

  lemma HeardFirst(c: char)
    ensures Heard([c]) == if c == 'c' then C
                          else if c == 'p' then MatchingProxyConnection
                          else if c == 't' then MatchingTransferEncoding
                          else if c == 'u' then MatchingUpgrade
                          else General
  {
    SnocFacts([], c);
    assert [] + [c] == [c];
  }

  lemma LoweredSnoc(s: string, ch: char)
    ensures Lowered(s + [ch]) == Lowered(s) + [ToLower(ch)]
  {}

  lemma NameFirst(skip: bool, m: Machine, ch: char)
    requires m.state == HeaderFieldStart && IsTokenChar(ch) && Room(m, 1)
    ensures var r := Step(skip, m, ch);
      && r.Live? && r.out == [Data(Field, [ch])] && Hears(r.m, [ToLower(ch)])
      && r.m == Advanced(m, 1).(state := HeaderField, hstate := r.m.hstate, index := r.m.index)
  {
    HeardFirst(ToLower(ch));
    assert ToLower(ch) != NUL;
    hide Heard, BlockEnd;
  }

  lemma NameNext(skip: bool, m: Machine, ch: char, w: string)
    requires m.state == HeaderField && IsTokenChar(ch) && Room(m, 1) && Hears(m, w)
    ensures var r := Step(skip, m, ch);
      && r.Live? && r.out == [Data(Field, [ch])] && Hears(r.m, w + [ToLower(ch)])
      && r.m == Advanced(m, 1).(hstate := r.m.hstate, index := r.m.index)
  {
    NameStep(Counted(m), ch, ToLower(ch), w);
    hide Heard, NameChar;
  }

  lemma {:induction false} NameRun(skip: bool, m: Machine, name: string)
    requires m.state == HeaderFieldStart && NameOk(name) && Room(m, |name|)
    ensures var r := Run(skip, m, name);
      && r.Live? && r.out == Singles(Field, name) && Hears(r.m, Lowered(name))
      && r.m == Advanced(m, |name|).(state := HeaderField, hstate := r.m.hstate, index := r.m.index)
    decreases |name|
  {
    hide Hears, Step, Run;
    var init, ch := name[..|name|-1], name[|name|-1];
    assert name == init + [ch];
    if init == [] {
      NameFirst(skip, m, ch);
      RunOne(skip, m, ch);
      assert Lowered(name) == [ToLower(ch)];
      assert Singles(Field, name) == [Data(Field, [ch])];
    } else {
      NameRun(skip, m, init);
      var r := Run(skip, m, init);
      RunSnoc(skip, m, init, ch);
      NameNext(skip, r.m, ch, Lowered(init));
      LoweredSnoc(init, ch);
      SinglesSnoc(Field, init, ch);
    }
  }

  // ----- values

  /** After the name's colon: spaces are skipped. */
  lemma {:induction false} SpacesRun(skip: bool, m: Machine, n: nat)
    requires m.state == HeaderValueStart && Room(m, n)
    ensures Goes(skip, m, Spaces(n), Advanced(m, n), [])
    decreases n
  {
    hide Run;
    if n == 0 {
      RunEmpty(skip, m);
      assert Spaces(0) == [];
    } else {
      SpacesRun(skip, m, n - 1);
      assert Spaces(n) == Spaces(n - 1) + [' '];
      RunSnoc(skip, m, Spaces(n - 1), ' ');
      assert ValueStart(Counted(Advanced(m, n - 1)), ' ') == Next(Advanced(m, n), Nothing);
      hide ValueStart;
    }
  }

  /** Machine `m` has read the non-empty value prefix `v`, starting from `m0` right after the spaces. */
  ghost predicate ReadsValue(m0: Machine, v: string, m: Machine) {
    && m == Advanced(m0, |v|).(state := HeaderValue, hstate := m.hstate, index := m.index,
                               flags := m.flags, contentLength := m.contentLength)
    && match m0.hstate
       case Connection =>
         && MeaningOf(m) == MeaningOf(m0) && m.hstate == HeardConnectionValue(Lowered(v))
         && (m.hstate == MatchingKeepAlive || m.hstate == MatchingClose ==> m.index == |v| - 1)
       case TransferEncoding =>
         && MeaningOf(m) == MeaningOf(m0) && m.hstate == HeardEncodingValue(Lowered(v))
         && (m.hstate == MatchingChunked ==> m.index == |v| - 1)
       case ContentLength =>
         && LengthText(v) && m.flags == m0.flags && m.hstate == ContentLength
         && m.contentLength == DecimalValue(Digits(v))
       case Upgrade =>
         MeaningOf(m) == MeaningOf(m0.(flags := m0.flags.(upgrade := true))) && m.hstate == General
       case _ => MeaningOf(m) == MeaningOf(m0) && m.hstate == General
  }

  lemma ConnectionFirst(ch: char)
    requires Plain(ch)
    ensures HeardConnectionValue([ToLower(ch)]) ==
            if OrBit5(ch) == 'k' then MatchingKeepAlive else if OrBit5(ch) == 'c' then MatchingClose else General
    ensures HeardEncodingValue([ToLower(ch)]) == if OrBit5(ch) == 'c' then MatchingChunked else General
  {
    var c := ToLower(ch);
    PartialSnoc([], c, KEEP_ALIVE, 1);
    PartialSnoc([], c, CLOSE, 1);
    PartialSnoc([], c, CHUNKED, 1);
    PaddedSnoc([], c, KEEP_ALIVE);
    PaddedSnoc([], c, CLOSE);
    PaddedSnoc([], c, CHUNKED);
    assert [] + [c] == [c];
    OrBit5IsLowerCase(ch, 'k');
    OrBit5IsLowerCase(ch, 'c');
  }

  lemma ByteInValue(skip: bool, m: Machine, ch: char)
    requires Room(m, 1)
    ensures m.state == HeaderValueStart ==> Step(skip, m, ch) == Report(m, ValueStart(Advanced(m, 1), ch), ch)
    ensures m.state == HeaderValue ==> Step(skip, m, ch) == Report(m, ValueChar(Advanced(m, 1), ch), ch)
    ensures m.state == HeaderAlmostDone ==> Step(skip, m, ch) == Report(m, LineEnd(Advanced(m, 1), ch, Nothing), ch)
  {
    hide ValueStart, ValueChar, LineEnd, Report;
  }

  /** The value byte is kept and moves the machine to one that has read `v`. */
  ghost predicate ValueGrows(v: Verdict, op: Op, m0: Machine, text: string) {
    v.Next? && v.op == op && v.m.state == HeaderValue && ReadsValue(m0, text, v.m)
  }

  lemma DigitGrows(m: Machine, ch: char)
    requires m.state == HeaderValueStart && m.hstate == ContentLength && IsDigit(ch)
    ensures ValueGrows(ValueStart(Advanced(m, 1), ch), MarkValue, m, [ch])
  {
    hide OrBit5;
    assert [ch][..0] == [];
    assert Digits([ch]) == [ch];
    assert DecimalValue([ch]) == DigitOf(ch);
  }

  lemma FirstGrows(m: Machine, ch: char)
    requires m.state == HeaderValueStart && Plain(ch) && ch != ' ' && m.hstate != ContentLength
    ensures ValueGrows(ValueStart(Advanced(m, 1), ch), MarkValue, m, [ch])
  {
    hide OrBit5, HeardConnectionValue, HeardEncodingValue, Lowered, LengthText, Digits, DecimalValue;
    ConnectionFirst(ch);
    LoweredOne(ch);
  }

  lemma LoweredOne(ch: char)
    ensures Lowered([ch]) == [ToLower(ch)]
  {}

  lemma ValueFirst(skip: bool, m: Machine, ch: char)
    requires m.state == HeaderValueStart && Plain(ch) && ch != ' ' && Room(m, 1)
    requires m.hstate == ContentLength ==> IsDigit(ch)
    ensures var r := Step(skip, m, ch);
      r.Live? && r.out == [Data(Value, [ch])] && ReadsValue(m, [ch], r.m)
  {
    hide Step, ValueStart, ReadsValue;
    ByteInValue(skip, m, ch);
    if m.hstate == ContentLength {
      DigitGrows(m, ch);
    } else {
      FirstGrows(m, ch);
    }
  }

  lemma LengthPrefix(v: string, ch: char)
    requires LengthText(v + [ch]) && v != []
    ensures LengthText(v) && (IsDigit(ch) || ch == ' ')
  {
    assert v[0] == (v + [ch])[0];
    assert forall i :: 0 <= i < |v| ==> v[i] == (v + [ch])[i];
    assert (v + [ch])[|v|] == ch;
  }

  lemma DigitsMore(v: string, ch: char)
    requires LengthText(v) && LengthText(v + [ch])
    ensures Digits(v + [ch]) == if ch == ' ' then Digits(v) else Digits(v) + [ch]
  {
    var u := v + [ch];
    assert u[|u| - 1] == ch && u[..|u| - 1] == v;
  }

  lemma DigitsSnoc(v: string, ch: char)
    requires LengthText(v + [ch]) && v != []
    ensures LengthText(v)
    ensures ch == ' ' ==> Digits(v + [ch]) == Digits(v)
    ensures ch != ' ' ==> DecimalValue(Digits(v + [ch])) == 10 * DecimalValue(Digits(v)) + DigitOf(ch)
  {
    hide Digits, DecimalValue, LengthText;
    LengthPrefix(v, ch);
    DigitsMore(v, ch);
    if ch != ' ' {
      DecimalSnoc(Digits(v), ch);
    }
  }

  lemma LengthGrows(m0: Machine, v: string, m: Machine, ch: char)
    requires m0.state == HeaderValueStart && v != [] && ReadsValue(m0, v, m) && m0.hstate == ContentLength
    requires Plain(ch) && LengthText(v + [ch])
    ensures ValueGrows(ValueChar(Advanced(m, 1), ch), Nothing, m0, v + [ch])
  {
    hide DecimalValue, Digits, Lowered, OrBit5, HeardConnectionValue, HeardEncodingValue;
    DigitsSnoc(v, ch);
    assert (v + [ch])[|v|] == ch;
  }

  lemma WordGrows(m0: Machine, v: string, m: Machine, ch: char)
    requires m0.state == HeaderValueStart && v != [] && ReadsValue(m0, v, m) && m0.hstate != ContentLength
    requires Plain(ch)
    ensures ValueGrows(ValueChar(Advanced(m, 1), ch), Nothing, m0, v + [ch])
  {
    LoweredSnoc(v, ch);
    var n := Advanced(m, 1);
    if m0.hstate == Connection {
      ConnectionValueStep(n, ch, Lowered(v));
      hide ValueChar, HeardConnectionValue;
    } else if m0.hstate == TransferEncoding {
      EncodingValueStep(n, ch, Lowered(v));
      hide ValueChar, HeardEncodingValue;
    } else {
      assert ValueChar(n, ch) == Next(n, Nothing);
      hide ValueChar;
    }
  }

  lemma ValueNext(skip: bool, m0: Machine, v: string, m: Machine, ch: char)
    requires m0.state == HeaderValueStart && v != [] && ReadsValue(m0, v, m)
    requires Plain(ch) && Room(m0, |v| + 1)
    requires m0.hstate == ContentLength ==> LengthText(v + [ch])
    ensures var r := Step(skip, m, ch);
      r.Live? && r.out == [Data(Value, [ch])] && ReadsValue(m0, v + [ch], r.m)
  {
    hide Step, ValueChar;
    ReadsWhere(m0, v, m);
    ByteInValue(skip, m, ch);
    if m0.hstate == ContentLength {
      LengthGrows(m0, v, m, ch);
    } else {
      WordGrows(m0, v, m, ch);
    }
    hide ReadsValue;
  }

  lemma ReadsWhere(m0: Machine, v: string, m: Machine)
    requires ReadsValue(m0, v, m) && m0.state == HeaderValueStart && Room(m0, |v| + 1)
    ensures m.state == HeaderValue && Room(m, 1)
  {}

  lemma {:induction false} ValueRun(skip: bool, m: Machine, v: string)
    requires m.state == HeaderValueStart && v != [] && PlainText(v) && v[0] != ' ' && Room(m, |v|)
    requires m.hstate == ContentLength ==> LengthText(v)
    ensures var r := Run(skip, m, v);
      r.Live? && r.out == Singles(Value, v) && ReadsValue(m, v, r.m)
    decreases |v|
  {
    hide ReadsValue, Step, Run;
    var init, ch := v[..|v|-1], v[|v|-1];
    assert v == init + [ch];
    if init == [] {
      ValueFirst(skip, m, ch);
      RunOne(skip, m, ch);
      assert Singles(Value, v) == [Data(Value, [ch])];
    } else {
      if m.hstate == ContentLength { DigitsSnoc(init, ch); }
      ValueRun(skip, m, init);
      var r := Run(skip, m, init);
      RunSnoc(skip, m, init, ch);
      ValueNext(skip, m, init, r.m, ch);
      SinglesSnoc(Value, init, ch);
    }
  }

  // ----- whole lines

  lemma ValueLineEnd(skip: bool, m: Machine, crlf: bool)
    requires m.state == HeaderValue && Room(m, |EndOfLine(crlf)|)
    ensures var r := Run(skip, m, EndOfLine(crlf));
      && r.Live? && r.out == [Data(Value, [])]
      && r.m == Advanced(m, |EndOfLine(crlf)|).(state := HeaderFieldStart, flags := ClosedFlags(m.hstate, m.flags))
  {
    hide Step, Run;
    if crlf {
      ByteInValue(skip, m, CR);
      var m1 := Advanced(m, 1).(state := HeaderAlmostDone);
      assert Report(m, ValueChar(Advanced(m, 1), CR), CR) == Live(m1, [Data(Value, [])]);
      RunOne(skip, m, CR);
      ByteInValue(skip, m1, LF);
      RunOne(skip, m1, LF);
      Chain(skip, m, [CR], m1, [Data(Value, [])], [LF], Run(skip, m1, [LF]).m, []);
      assert [CR] + [LF] == EndOfLine(true);
      assert [Data(Value, [])] + [] == [Data(Value, [])];
    } else {
      ByteInValue(skip, m, LF);
      RunOne(skip, m, LF);
    }
  }

  lemma EmptyLineEnd(skip: bool, m: Machine, crlf: bool)
    requires m.state == HeaderValueStart && Room(m, |EndOfLine(crlf)|)
    ensures var r := Run(skip, m, EndOfLine(crlf));
      && r.Live? && r.out == [Data(Value, [])]
      && r.m == Advanced(m, |EndOfLine(crlf)|).(state := HeaderFieldStart, hstate := r.m.hstate, index := r.m.index)
  {
    hide Step, Run;
    if crlf {
      ByteInValue(skip, m, CR);
      var m1 := Advanced(m, 1).(state := HeaderAlmostDone, hstate := General, index := 0);
      assert Report(m, ValueStart(Advanced(m, 1), CR), CR) == Live(m1, [Data(Value, [])]);
      RunOne(skip, m, CR);
      ByteInValue(skip, m1, LF);
      RunOne(skip, m1, LF);
      Chain(skip, m, [CR], m1, [Data(Value, [])], [LF], Run(skip, m1, [LF]).m, []);
      assert [CR] + [LF] == EndOfLine(true);
      assert [Data(Value, [])] + [] == [Data(Value, [])];
    } else {
      ByteInValue(skip, m, LF);
      RunOne(skip, m, LF);
    }
  }

  /** The name, the colon and the spaces of a line. */
  lemma LineStart(skip: bool, m: Machine, h: Header)
    requires m.state == HeaderFieldStart && NameOk(h.name) && Room(m, |h.name| + 1 + h.spaces)
    ensures var r := Run(skip, m, h.name + ":" + Spaces(h.spaces));
      && r.Live? && r.out == Singles(Field, h.name) + [Data(Field, [])]
      && r.m == Advanced(m, |h.name| + 1 + h.spaces).(state := HeaderValueStart, hstate := Heard(Lowered(h.name)),
                                                      index := r.m.index)
  {
    hide Step, Run, Heard;
    NameRun(skip, m, h.name);
    var m1 := Run(skip, m, h.name).m;
    Colon(skip, m1);
    var m2 := Run(skip, m1, ":").m;
    Chain(skip, m, h.name, m1, Singles(Field, h.name), ":", m2, [Data(Field, [])]);
    SpacesRun(skip, m2, h.spaces);
    Chain(skip, m, h.name + ":", m2, Singles(Field, h.name) + [Data(Field, [])],
          Spaces(h.spaces), Advanced(m2, h.spaces), []);
    var o := Singles(Field, h.name) + [Data(Field, [])];
    assert o + [] == o;
  }

  lemma Colon(skip: bool, m: Machine)
    requires m.state == HeaderField && Room(m, 1)
    ensures Goes(skip, m, ":", Advanced(m, 1).(state := HeaderValueStart), [Data(Field, [])])
  {
    RunOne(skip, m, ':');
    hide Run, NameChar;
  }

  /** The callbacks of a header line, as the byte-wise run makes them. */
  function LineEvents(h: Header): seq<Event> {
    Singles(Field, h.name) + [Data(Field, [])] + (Singles(Value, h.value) + [Data(Value, [])])
  }

  lemma ValuePart(skip: bool, m: Machine, h: Header)
    requires m.state == HeaderValueStart && HeaderOk(h) && Room(m, |h.value| + |EndOfLine(h.crlf)|)
    requires m.hstate == ContentLength && h.value != [] ==> LengthText(h.value)
    ensures var r := Run(skip, m, h.value + EndOfLine(h.crlf)); var n := |h.value| + |EndOfLine(h.crlf)|;
      && r.Live? && r.out == Singles(Value, h.value) + [Data(Value, [])]
      && r.m == Advanced(m, n).(state := HeaderFieldStart, hstate := r.m.hstate, index := r.m.index,
                                flags := r.m.flags, contentLength := r.m.contentLength)
      && (h.value == [] ==> MeaningOf(r.m) == MeaningOf(m))
      && (h.value != [] ==> var m1 := Run(skip, m, h.value).m;
            ReadsValue(m, h.value, m1) && MeaningOf(r.m) == Meaning(ClosedFlags(m1.hstate, m1.flags), m1.contentLength))
  {
    hide Step, Run, ReadsValue;
    if h.value == [] {
      EmptyLineEnd(skip, m, h.crlf);
      assert h.value + EndOfLine(h.crlf) == EndOfLine(h.crlf);
      assert Singles(Value, h.value) + [Data(Value, [])] == [Data(Value, [])];
    } else {
      ValueRun(skip, m, h.value);
      var m1 := Run(skip, m, h.value).m;
      assert m1 == Advanced(m, |h.value|).(state := HeaderValue, hstate := m1.hstate, index := m1.index,
                                           flags := m1.flags, contentLength := m1.contentLength)
             && (m.ParsingHeader() <==> m1.ParsingHeader()) by {
        ReadsValueFrame(m, h.value, m1);
      }
      ValueLineEnd(skip, m1, h.crlf);
      Chain(skip, m, h.value, m1, Singles(Value, h.value), EndOfLine(h.crlf),
            Run(skip, m1, EndOfLine(h.crlf)).m, [Data(Value, [])]);
    }
  }

  lemma ReadsValueFrame(m0: Machine, v: string, m: Machine)
    requires ReadsValue(m0, v, m) && m0.state == HeaderValueStart
    ensures m == Advanced(m0, |v|).(state := HeaderValue, hstate := m.hstate, index := m.index,
                                    flags := m.flags, contentLength := m.contentLength)
    ensures m0.ParsingHeader() <==> m.ParsingHeader()
  {}

  lemma TextLength(h: Header)
    ensures |LineText(h)| == |h.name| + 1 + h.spaces + |h.value| + |EndOfLine(h.crlf)|
    ensures LineText(h) == (h.name + ":" + Spaces(h.spaces)) + (h.value + EndOfLine(h.crlf))
  {}

  /** What the matched name and value add up to is what the header means. */
  lemma MeaningMatches(m: Machine, h: Header, m1: Machine)
    requires m.hstate == Heard(Lowered(h.name)) && h.value != [] && ReadsValue(m, h.value, m1)
    ensures ApplyHeader(MeaningOf(m), h.name, h.value) ==
            Some(Meaning(ClosedFlags(m1.hstate, m1.flags), m1.contentLength))
  {
    HeardStates(Lowered(h.name));
    HeardIsName(h.name);
    hide Heard, DecimalValue, Digits, LengthText;
  }

  /** The name matcher agrees with comparing the whole name, for every name. */
  lemma HeardIsName(name: string)
    ensures var h := Heard(Lowered(name));
      && (h == Connection <==> Named(name, CONNECTION) || Named(name, PROXY_CONNECTION))
      && (h == ContentLength <==> Named(name, CONTENT_LENGTH))
      && (h == TransferEncoding <==> Named(name, TRANSFER_ENCODING))
      && (h == Upgrade <==> Named(name, UPGRADE))
  {
    AllLandmarks(Lowered(name));
  }

  /**
   A header line through the parser, for every name, value and line end: the callbacks deliver
   exactly the name and the value, and the flags and the content length change exactly as the
   header means. Only the scratch registers of the matcher are left open.
   */
  lemma HeaderLine(skip: bool, m: Machine, h: Header)
    requires m.state == HeaderFieldStart && HeaderOk(h) && Room(m, |LineText(h)|)
    requires ApplyHeader(MeaningOf(m), h.name, h.value).Some?
    ensures var r := Run(skip, m, LineText(h)); var s := ApplyHeader(MeaningOf(m), h.name, h.value).value;
      && r.Live? && r.out == LineEvents(h)
      && r.m == Advanced(m, |LineText(h)|).(hstate := r.m.hstate, index := r.m.index,
                                            flags := s.flags, contentLength := s.contentLength)
  {
    hide Step, Run, ReadsValue, Heard, ApplyHeader, LengthText;
    TextLength(h);
    LineStart(skip, m, h);
    var a, b := h.name + ":" + Spaces(h.spaces), h.value + EndOfLine(h.crlf);
    var m1 := Run(skip, m, a).m;
    HeardIsName(h.name);
    LengthNeeded(MeaningOf(m), h);
    ValuePart(skip, m1, h);
    var m2 := Run(skip, m1, b).m;
    Chain(skip, m, a, m1, Singles(Field, h.name) + [Data(Field, [])],
          b, m2, Singles(Value, h.value) + [Data(Value, [])]);
    if h.value == [] {
      NoValueNoMeaning(MeaningOf(m), h);
    } else {
      MeaningMatches(m1, h, Run(skip, m1, h.value).m);
    }
  }

  lemma LengthNeeded(s: Meaning, h: Header)
    ensures ApplyHeader(s, h.name, h.value).None? <==>
            h.value != [] && Heard(Lowered(h.name)) == ContentLength && !LengthText(h.value)
  {
    HeardIsName(h.name);
    AllLandmarks(Lowered(h.name));
    hide Heard, DecimalValue, Digits;
  }

  lemma NoValueNoMeaning(s: Meaning, h: Header)
    requires h.value == []
    ensures ApplyHeader(s, h.name, h.value) == Some(s)
  {}

  /** A malformed header line stops the parser. */
  lemma HeaderLineRejected(skip: bool, m: Machine, h: Header)
    requires m.state == HeaderFieldStart && HeaderOk(h) && Room(m, |LineText(h)|)
    requires ApplyHeader(MeaningOf(m), h.name, h.value).None?
    ensures var r := Run(skip, m, LineText(h)); r.Stopped? && r.why == Malformed
  {
    hide Step, Run, ReadsValue, Heard, LengthText;
    TextLength(h);
    LineStart(skip, m, h);
    LengthNeeded(MeaningOf(m), h);
    hide ApplyHeader;
    var a := h.name + ":" + Spaces(h.spaces);
    var m1 := Run(skip, m, a).m;
    BadLength(skip, m1, h.value);
    RunConcat(skip, m1, h.value, EndOfLine(h.crlf));
    RunConcat(skip, m, a, h.value + EndOfLine(h.crlf));
  }

  lemma {:induction false} BadLength(skip: bool, m: Machine, v: string)
    requires m.state == HeaderValueStart && m.hstate == ContentLength
    requires v != [] && PlainText(v) && v[0] != ' ' && Room(m, |v|) && !LengthText(v)
    ensures var r := Run(skip, m, v); r.Stopped? && r.why == Malformed
    decreases |v|
  {
    var init, ch := v[..|v|-1], v[|v|-1];
    assert v == init + [ch];
    hide Step, Run, ReadsValue;
    if init == [] {
      ByteInValue(skip, m, ch);
      RunOne(skip, m, ch);
    } else {
      assert init[0] == v[0];
      RunSnoc(skip, m, init, ch);
      if LengthText(init) {
        ValueRun(skip, m, init);
        var m1 := Run(skip, m, init).m;
        ReadsValueFrame(m, init, m1);
        assert m1.hstate == ContentLength by { ContentLengthStays(m, init, m1); }
        assert forall i :: 0 <= i < |init| ==> v[i] == init[i];
        ByteInValue(skip, m1, ch);
      } else {
        BadLength(skip, m, init);
      }
    }
  }

  lemma ContentLengthStays(m0: Machine, v: string, m: Machine)
    requires ReadsValue(m0, v, m) && m0.hstate == ContentLength
    ensures m.hstate == ContentLength
  {}
}
