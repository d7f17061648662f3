/**
 What every reachable state of the response parser satisfies, and the protocol that its
 callbacks follow over any run.
 */
module HttpInvariant {
  import opened Octets
  import opened HttpEvents
  import opened HttpMachine

  /** The header matching sub-states that may occur while a field name is read, and their index. */
  predicate NameMatch(m: Machine) {
    match m.hstate
    case General | Connection | ContentLength | TransferEncoding | Upgrade => true
    case C => m.index == 0
    case CO => m.index == 1
    case CON => m.index == 2
    case MatchingConnection => 3 <= m.index < 9
    case MatchingContentLength => 3 <= m.index < 13
    case MatchingProxyConnection => m.index < 15
    case MatchingTransferEncoding => m.index < 16
    case MatchingUpgrade => m.index < 6
    case _ => false
  }

  /** The sub-states that may occur while a field value is read. */
  predicate ValueMatch(m: Machine) {
    match m.hstate
    case General | Chunked | KeepAlive | Close => true
    case ContentLength => m.contentLength >= 0
    case MatchingChunked => m.index < 6
    case MatchingKeepAlive => m.index < 9
    case MatchingClose => m.index < 4
    case _ => false
  }

  predicate TrailerState(s: State) {
    match s
    case HeaderFieldStart | HeaderField | HeaderValueStart | HeaderValue
       | HeaderAlmostDone | HeadersAlmostDone => true
    case _ => false
  }

  predicate ChunkState(s: State) {
    match s
    case ChunkSizeStart | ChunkSize | ChunkSizeAlmostDone | ChunkParameters | ChunkData
       | ChunkDataAlmostDone | ChunkDataDone => true
    case _ => false
  }

  ghost predicate Inv(m: Machine) {
    && m.index <= 17
    && m.nread <= MAX_HEADER_SIZE
    && m.major <= 999 && m.minor <= 999 && m.status <= 999
    && m.contentLength >= -1
    && !m.upgrade
    && (m.state == HeaderField || m.state == HeaderValueStart ==> NameMatch(m))
    && (m.state == HeaderValue ==> ValueMatch(m))
    && (ChunkState(m.state) ==> m.flags.chunked && !m.flags.trailing)
    && (m.state == ChunkSize || m.state == ChunkSizeAlmostDone || m.state == ChunkParameters ==> m.contentLength >= 0)
    && (m.state == ChunkData || m.state == BodyIdentity ==> m.contentLength > 0)
    && (m.BodyState() ==> !m.flags.trailing)
    && (m.flags.trailing ==> m.flags.chunked && (TrailerState(m.state) || m.state == StartRes || m.state == Dead))
  }

  // ----- the protocol of the callbacks

  datatype Phase =
    | Idle | Begun | InField | InValue | InBody | InTrailerField | InTrailerValue

  /** Where a trace stands, and how many header bytes its latest header block delivered. */
  datatype Log = Bad | Log(phase: Phase, headerBytes: nat)

  predicate HeaderPhase(p: Phase) { p == Begun || p == InField || p == InValue }
  predicate BodyPhase(p: Phase) { p == InBody || p == InTrailerField || p == InTrailerValue }

  const EMPTY_LOG := Log(Idle, 0)

  /** One more callback; `Bad` if the protocol does not allow it here. */
  function Observe(l: Log, e: Event): Log {
    if l.Bad? then Bad
    else match e
      case Begin => if l.phase == Idle || l.phase == Begun then Log(Begun, 0) else Bad
      case HeadersComplete(_, _, _, _) =>
        if HeaderPhase(l.phase) then l.(phase := InBody) else Bad
      case MessageComplete(_) =>
        if BodyPhase(l.phase) then l.(phase := Idle) else Bad
      case Data(Field, s) =>
        if HeaderPhase(l.phase) then Log(InField, l.headerBytes + |s|)
        else if BodyPhase(l.phase) then l.(phase := InTrailerField)
        else Bad
      case Data(Value, s) =>
        if l.phase == InField || l.phase == InValue then Log(InValue, l.headerBytes + |s|)
        else if l.phase == InTrailerField || l.phase == InTrailerValue then l.(phase := InTrailerValue)
        else Bad
      case Data(Body, s) => if l.phase == InBody then l else Bad
  }

  function ObserveAll(l: Log, es: seq<Event>): Log {
    if es == [] then l else Observe(ObserveAll(l, es[..|es|-1]), es[|es|-1])
  }

  lemma ObserveOne(l: Log, e: Event)
    ensures ObserveAll(l, [e]) == Observe(l, e)
  {
    assert [e][..0] == [];
  }

  lemma ObserveTwo(l: Log, d: Event, e: Event)
    ensures ObserveAll(l, [d, e]) == Observe(Observe(l, d), e)
  {
    assert [d, e][..1] == [d];
    ObserveOne(l, d);
  }

  lemma {:induction false} ObserveConcat(l: Log, a: seq<Event>, b: seq<Event>)
    ensures ObserveAll(l, a + b) == ObserveAll(ObserveAll(l, a), b)
    decreases |b|
  {
    if b == [] {
      assert a + b == a;
    } else {
      assert (a + b)[..|a + b|-1] == a + b[..|b|-1];
      ObserveConcat(l, a, b[..|b|-1]);
    }
  }

  /** The callbacks that may have been made last in a given state. */
  predicate PhaseFits(s: State, trailing: bool, p: Phase) {
    match s
    case Dead => p == Idle
    case StartRes => p == Idle || p == Begun
    case HeaderFieldStart | HeaderAlmostDone | HeadersAlmostDone =>
      if trailing then BodyPhase(p) else HeaderPhase(p)
    case HeaderField | HeaderValueStart => p == if trailing then InTrailerField else InField
    case HeaderValue => p == if trailing then InTrailerValue else InValue
    case BodyIdentity | BodyIdentityEof => p == InBody
    case _ => p == if ChunkState(s) then InBody else Begun
  }

  /** How a machine and the log of the callbacks it has made hang together. */
  ghost predicate Agrees(m: Machine, l: Log) {
    && l.Log?
    && PhaseFits(m.state, m.flags.trailing, l.phase)
    && l.headerBytes <= MAX_HEADER_SIZE
    && (m.ParsingHeader() && m.state != StartRes && m.state != Dead ==> l.headerBytes <= m.nread)
  }

  /** `ObserveAll(l, Emitted(op, after, ch))`, without recursion. */
  function LogAfter(l: Log, op: Op, after: State, ch: char): Log {
    match op
    case Notify(es) =>
      if |es| == 1 then Observe(l, es[0])
      else if |es| == 2 then Observe(Observe(l, es[0]), es[1])
      else l
    case FlushField => Observe(l, Data(Field, []))
    case FlushValue => Observe(l, Data(Value, []))
    case MarkFlushValue => Observe(l, Data(Value, []))
    case _ =>
      if after == HeaderField then Observe(l, Data(Field, [ch]))
      else if after == HeaderValue then Observe(l, Data(Value, [ch]))
      else l
  }

  lemma ObserveEmitted(l: Log, op: Op, after: State, ch: char)
    requires op.Notify? ==> |op.events| <= 2
    ensures ObserveAll(l, Emitted(op, after, ch)) == LogAfter(l, op, after, ch)
    ensures op.Notify? ==> ObserveAll(l, EmittedBeforeError(op)) == LogAfter(l, op, after, ch)
  {
    match op
    case Notify(es) =>
      assert es == [] ==> ObserveAll(l, es) == l;
      if |es| == 1 { assert es == [es[0]]; ObserveOne(l, es[0]); }
      if |es| == 2 { assert es == [es[0], es[1]]; ObserveTwo(l, es[0], es[1]); }
    case FlushField => ObserveOne(l, Data(Field, []));
    case FlushValue => ObserveOne(l, Data(Value, []));
    case MarkFlushValue => ObserveOne(l, Data(Value, []));
    case _ =>
      ObserveOne(l, Data(Field, [ch]));
      ObserveOne(l, Data(Value, [ch]));
  }

  /** A verdict that keeps the invariant and the protocol, and is not a failed assert. */
  ghost predicate Sound(v: Verdict, l: Log, ch: char) {
    match v
    case Next(m1, op) =>
      Inv(m1) && Agrees(m1, LogAfter(l, op, m1.state, ch)) && (op.Notify? ==> |op.events| <= 2)
    case Error(_, op) => op.Notify? ==> LogAfter(l, op, Dead, ch).Log? && |op.events| <= 2
    case Handover(_, op) => op.Notify? && LogAfter(l, op, Dead, ch).Log? && |op.events| <= 2
    case AssertFailed => false
  }

  /** The state just after a byte has been counted and not yet looked at. */
  ghost predicate Ready(m: Machine, l: Log) {
    && Inv(m) && Agrees(m, l)
    && (m.ParsingHeader() && m.state != StartRes && m.state != Dead ==> l.headerBytes < m.nread)
  }

  lemma StartLineSound(m: Machine, ch: char, l: Log)
    requires Ready(m, l) && m.state == StartRes
    ensures Sound(StartLine(m, ch), l, ch)
  {}

  lemma FirstDigitsSound(m: Machine, ch: char, l: Log)
    requires Ready(m, l)
    ensures m.state == ResFirstMajor ==> Sound(FirstMajor(m, ch), l, ch)
    ensures m.state == ResFirstMinor ==> Sound(FirstMinor(m, ch), l, ch)
  {}

  lemma MajorSound(m: Machine, ch: char, l: Log)
    requires Ready(m, l) && m.state == ResMajor
    ensures Sound(Major(m, ch), l, ch)
  {}

  lemma MinorSound(m: Machine, ch: char, l: Log)
    requires Ready(m, l) && m.state == ResMinor
    ensures Sound(Minor(m, ch), l, ch)
  {}

  lemma VersionSound(m: Machine, ch: char, l: Log)
    requires Ready(m, l)
    ensures m.state == ResFirstMajor ==> Sound(FirstMajor(m, ch), l, ch)
    ensures m.state == ResMajor ==> Sound(Major(m, ch), l, ch)
    ensures m.state == ResFirstMinor ==> Sound(FirstMinor(m, ch), l, ch)
    ensures m.state == ResMinor ==> Sound(Minor(m, ch), l, ch)
  {
    hide *;
    FirstDigitsSound(m, ch, l);
    if m.state == ResMajor {
      MajorSound(m, ch, l);
    } else if m.state == ResMinor {
      MinorSound(m, ch, l);
    }
  }

  lemma FirstCodeSound(m: Machine, ch: char, l: Log)
    requires Ready(m, l) && m.state == ResFirstStatusCode
    ensures Sound(FirstStatusCode(m, ch), l, ch)
  {}

  lemma NextCodeSound(m: Machine, ch: char, l: Log)
    requires Ready(m, l) && m.state == ResStatusCode
    ensures Sound(StatusCode(m, ch), l, ch)
  {}

  lemma StatusSound(m: Machine, ch: char, l: Log)
    requires Ready(m, l)
    ensures m.state == ResFirstStatusCode ==> Sound(FirstStatusCode(m, ch), l, ch)
    ensures m.state == ResStatusCode ==> Sound(StatusCode(m, ch), l, ch)
  {
    hide *;
    if m.state == ResFirstStatusCode {
      FirstCodeSound(m, ch, l);
    } else if m.state == ResStatusCode {
      NextCodeSound(m, ch, l);
    }
  }

  lemma ReasonSound(m: Machine, ch: char, l: Log)
    requires Ready(m, l) && m.state == ResStatus
    ensures Sound(Reason(m, ch), l, ch)
  {}

  lemma LiteralSound(m: Machine, ch: char, l: Log, expected: char, next: State)
    requires Ready(m, l)
    requires !ChunkState(next) && !m.BodyState()
    requires next == ResHT || next == ResHTT || next == ResHTTP || next == ResFirstMajor || next == HeaderFieldStart
    requires !TrailerState(m.state) && m.state != StartRes && m.state != Dead
    ensures Sound(Literal(m, ch, expected, next), l, ch)
  {}

  lemma BlockEndKeepsInv(skip: bool, m: Machine, ch: char, l: Log)
    requires Ready(m, l) && m.state == HeadersAlmostDone
    ensures var v := BlockEnd(skip, m, ch); !v.AssertFailed? && (v.Next? ==> Inv(v.m))
  {
    hide LogAfter, Observe, Sound;
  }

  lemma TrailerEndSound(skip: bool, m: Machine, ch: char, l: Log)
    requires Ready(m, l) && m.state == HeadersAlmostDone && m.flags.trailing
    ensures Sound(BlockEnd(skip, m, ch), l, ch)
  {
    BlockEndKeepsInv(skip, m, ch, l);
    hide Inv;
  }

  lemma HandoverSound(skip: bool, m: Machine, ch: char, l: Log)
    requires Ready(m, l) && m.state == HeadersAlmostDone && !m.flags.trailing && !BlockEnd(skip, m, ch).Next?
    ensures Sound(BlockEnd(skip, m, ch), l, ch)
  {
    hide Inv;
  }

  lemma NoBodySound(skip: bool, m: Machine, ch: char, l: Log)
    requires Ready(m, l) && m.state == HeadersAlmostDone && !m.flags.trailing
    requires BlockEnd(skip, m, ch).Next? && |BlockEnd(skip, m, ch).op.events| == 2
    ensures Sound(BlockEnd(skip, m, ch), l, ch)
  {
    BlockEndKeepsInv(skip, m, ch, l);
    hide Inv;
  }

  lemma SomeBodySound(skip: bool, m: Machine, ch: char, l: Log)
    requires Ready(m, l) && m.state == HeadersAlmostDone && !m.flags.trailing
    requires BlockEnd(skip, m, ch).Next? && |BlockEnd(skip, m, ch).op.events| == 1
    ensures Sound(BlockEnd(skip, m, ch), l, ch)
  {
    BlockEndKeepsInv(skip, m, ch, l);
    hide Inv;
  }

  lemma HeadEndEvents(skip: bool, m: Machine, ch: char)
    requires m.state == HeadersAlmostDone
    ensures var v := BlockEnd(skip, m, ch); v.Next? ==> v.op.Notify? && 1 <= |v.op.events| <= 2
  {}

  lemma HeadEndSound(skip: bool, m: Machine, ch: char, l: Log)
    requires Ready(m, l) && m.state == HeadersAlmostDone && !m.flags.trailing
    ensures Sound(BlockEnd(skip, m, ch), l, ch)
  {
    hide BlockEnd, Sound, Ready;
    HeadEndEvents(skip, m, ch);
    if !BlockEnd(skip, m, ch).Next? {
      HandoverSound(skip, m, ch, l);
    } else if |BlockEnd(skip, m, ch).op.events| == 2 {
      NoBodySound(skip, m, ch, l);
    } else {
      SomeBodySound(skip, m, ch, l);
    }
  }

  lemma BlockEndSound(skip: bool, m: Machine, ch: char, l: Log)
    requires Ready(m, l) && m.state == HeadersAlmostDone
    ensures Sound(BlockEnd(skip, m, ch), l, ch)
  {
    hide *;
    if m.flags.trailing {
      TrailerEndSound(skip, m, ch, l);
    } else {
      HeadEndSound(skip, m, ch, l);
    }
  }

  lemma FieldStartSound(skip: bool, m: Machine, ch: char, l: Log)
    requires Ready(m, l) && m.state == HeaderFieldStart
    ensures Sound(FieldStart(skip, m, ch), l, ch)
  {
    hide BlockEnd, Token, Ready, Sound;
    if ch == LF {
      StillReady(m, l);
      BlockEndSound(skip, m.(state := HeadersAlmostDone), ch, l);
    } else {
      NameStartSound(skip, m, ch, l);
    }
  }

  lemma StillReady(m: Machine, l: Log)
    requires Ready(m, l) && m.state == HeaderFieldStart
    ensures Ready(m.(state := HeadersAlmostDone), l)
  {}

  lemma NameStartSound(skip: bool, m: Machine, ch: char, l: Log)
    requires Ready(m, l) && m.state == HeaderFieldStart && ch != LF
    ensures Sound(FieldStart(skip, m, ch), l, ch)
  {
    hide BlockEnd, Token;
  }

  lemma NameCharKeepsMatch(m: Machine, ch: char, c: char)
    requires NameMatch(m) && m.index <= 17
    ensures var v := NameChar(m, ch, c);
            && v.Next? && v.op == Nothing && v.m.index <= 17 && NameMatch(v.m)
            && v.m == m.(hstate := v.m.hstate, index := v.m.index)
  {
    match m.hstate
    case C =>
    case _ =>
  }

  lemma FieldCharSound(m: Machine, ch: char, l: Log)
    requires Ready(m, l) && m.state == HeaderField
    ensures Sound(FieldChar(m, ch), l, ch)
  {
    hide NameChar, Token;
    NameCharKeepsMatch(m, ch, Token(ch));
  }

  /** The end of a line sets at most a flag. */
  lemma FlagsAtLineEnd(h: HeaderState, f: Flags)
    ensures var g := ClosedFlags(h, f); g.trailing == f.trailing && (f.chunked ==> g.chunked)
  {}

  lemma InvAtLineStart(m: Machine, f: Flags)
    requires Inv(m) && (m.state == HeaderAlmostDone || m.state == HeaderValue)
    requires f.trailing == m.flags.trailing && (m.flags.chunked ==> f.chunked)
    ensures Inv(m.(state := HeaderFieldStart, flags := f))
  {}

  lemma LineEndKeeps(m: Machine, ch: char, op: Op)
    requires Inv(m) && (m.state == HeaderAlmostDone || m.state == HeaderValue)
    ensures var v := LineEnd(m, ch, op);
      && (v.Next? || v.Error?) && v.op == op
      && (v.Next? ==> Inv(v.m) && v.m == m.(state := HeaderFieldStart, flags := v.m.flags))
      && (v.Next? ==> v.m.flags.trailing == m.flags.trailing)
  {
    hide Inv, ClosedFlags;
    FlagsAtLineEnd(m.hstate, m.flags);
    InvAtLineStart(m, ClosedFlags(m.hstate, m.flags));
  }

  lemma LineFeedSound(m: Machine, ch: char, l: Log)
    requires Ready(m, l) && m.state == HeaderAlmostDone
    ensures Sound(LineEnd(m, ch, Nothing), l, ch)
  {
    LineEndKeeps(m, ch, Nothing);
    hide LineEnd, Inv;
  }

  lemma ValueFeedSound(m: Machine, ch: char, l: Log)
    requires Ready(m, l) && m.state == HeaderValue && ch == LF
    ensures Sound(LineEnd(m, ch, FlushValue), l, ch)
  {
    LineEndKeeps(m, ch, FlushValue);
    hide LineEnd, Inv;
  }

  lemma LineEndSound(m: Machine, ch: char, l: Log)
    requires Ready(m, l)
    ensures m.state == HeaderAlmostDone ==> Sound(LineEnd(m, ch, Nothing), l, ch)
    ensures m.state == HeaderValue && ch == LF ==> Sound(LineEnd(m, ch, FlushValue), l, ch)
  {
    hide *;
    if m.state == HeaderAlmostDone {
      LineFeedSound(m, ch, l);
    } else if m.state == HeaderValue && ch == LF {
      ValueFeedSound(m, ch, l);
    }
  }

  lemma NoValueSound(m: Machine, ch: char, l: Log)
    requires Ready(m, l) && m.state == HeaderValueStart && (ch == CR || ch == LF || ch == ' ')
    ensures Sound(ValueStart(m, ch), l, ch)
  {
    hide OrBit5;
  }

  lemma SomeValueSound(m: Machine, ch: char, l: Log)
    requires Ready(m, l) && m.state == HeaderValueStart && ch != CR && ch != LF && ch != ' '
    ensures Sound(ValueStart(m, ch), l, ch)
  {
    hide OrBit5;
  }

  lemma ValueStartSound(m: Machine, ch: char, l: Log)
    requires Ready(m, l) && m.state == HeaderValueStart
    ensures Sound(ValueStart(m, ch), l, ch)
  {
    hide *;
    if ch == CR || ch == LF || ch == ' ' {
      NoValueSound(m, ch, l);
    } else {
      SomeValueSound(m, ch, l);
    }
  }

  lemma ValueReturnSound(m: Machine, ch: char, l: Log)
    requires Ready(m, l) && m.state == HeaderValue && ch == CR
    ensures Sound(ValueChar(m, ch), l, ch)
  {
    hide OrBit5;
  }

  /** A byte inside a value moves only the matcher, which stays in its invariant. */
  lemma ValueByteKeeps(m: Machine, ch: char)
    requires Inv(m) && m.state == HeaderValue && ch != CR && ch != LF
    ensures var v := ValueChar(m, ch);
      && !v.AssertFailed? && !v.Handover? && v.op == Nothing
      && (v.Next? ==>
            Inv(v.m) && v.m == m.(hstate := v.m.hstate, index := v.m.index, contentLength := v.m.contentLength))
  {
    hide OrBit5;
  }

  lemma ValueByteSound(m: Machine, ch: char, l: Log)
    requires Ready(m, l) && m.state == HeaderValue && ch != CR && ch != LF
    ensures Sound(ValueChar(m, ch), l, ch)
  {
    ValueByteKeeps(m, ch);
    hide ValueChar, Inv;
  }

  lemma ValueCharSound(m: Machine, ch: char, l: Log)
    requires Ready(m, l) && m.state == HeaderValue
    ensures Sound(ValueChar(m, ch), l, ch)
  {
    hide OrBit5, LineEnd, Ready, Sound;
    if ch == CR {
      ValueReturnSound(m, ch, l);
    } else if ch == LF {
      ValueFeedSound(m, ch, l);
    } else {
      ValueByteSound(m, ch, l);
    }
  }

  predicate SizeState(s: State) { s == ChunkSizeStart || s == ChunkSize || s == ChunkParameters }

  lemma ChunkSizeSound(m: Machine, ch: char, l: Log)
    requires Ready(m, l) && SizeState(m.state)
    ensures Sound(ChunkChar(m, ch), l, ch)
  {
    assert Unhex(ch) >= -1;
    hide Unhex;
  }

  lemma ChunkEndSound(m: Machine, ch: char, l: Log)
    requires Ready(m, l) && ChunkState(m.state) && !m.BulkState() && !SizeState(m.state)
    ensures Sound(ChunkChar(m, ch), l, ch)
  {
    hide Unhex;
  }

  lemma ChunkSound(m: Machine, ch: char, l: Log)
    requires Ready(m, l) && ChunkState(m.state) && !m.BulkState()
    ensures Sound(ChunkChar(m, ch), l, ch)
  {
    hide *;
    if SizeState(m.state) {
      ChunkSizeSound(m, ch, l);
    } else {
      ChunkEndSound(m, ch, l);
    }
  }

  lemma SwitchSound(skip: bool, m: Machine, ch: char, l: Log)
    requires Inv(m) && Agrees(m, l) && !m.BulkState()
    ensures Sound(Switch(skip, m, ch), l, ch)
  {
    hide StartLine, FirstMajor, Major, FirstMinor, Minor, FirstStatusCode, StatusCode, Reason, Literal,
         FieldStart, FieldChar, ValueStart, ValueChar, LineEnd, BlockEnd, ChunkChar, LogAfter;
    var n := Counted(m);
    if n.nread <= MAX_HEADER_SIZE {
      assert Ready(n, l);
      match n.state
      case Dead =>
      case ResH => LiteralSound(n, ch, l, 'T', ResHT);
      case ResHT => LiteralSound(n, ch, l, 'T', ResHTT);
      case ResHTT => LiteralSound(n, ch, l, 'P', ResHTTP);
      case ResHTTP => LiteralSound(n, ch, l, '/', ResFirstMajor);
      case ResLineAlmostDone => LiteralSound(n, ch, l, LF, HeaderFieldStart);
      case HeaderFieldStart => FieldStartSound(skip, n, ch, l);
      case HeaderField => FieldCharSound(n, ch, l);
      case HeaderValueStart => ValueStartSound(n, ch, l);
      case HeaderValue => ValueCharSound(n, ch, l);
      case HeaderAlmostDone => LineEndSound(n, ch, l);
      case HeadersAlmostDone => BlockEndSound(skip, n, ch, l);
      case ChunkSizeStart | ChunkSize | ChunkParameters | ChunkSizeAlmostDone
         | ChunkDataAlmostDone | ChunkDataDone => ChunkSound(n, ch, l);
      case StartRes => StartLineSound(n, ch, l);
      case ResFirstMajor | ResMajor | ResFirstMinor | ResMinor => VersionSound(n, ch, l);
      case ResFirstStatusCode | ResStatusCode => StatusSound(n, ch, l);
      case ResStatus => ReasonSound(n, ch, l);
    }
  }

  // ----- whole runs

  /** The result of a run whose live states keep the invariant and whose callbacks keep the protocol. */
  ghost predicate SoundResult(r: Result, l: Log) {
    match r
    case Live(m, out) => Inv(m) && Agrees(m, ObserveAll(l, out))
    case Stopped(why, _, _, out) => why != Assertion && ObserveAll(l, out).Log?
  }

  lemma ChunkByteSound(m: Machine, ch: char, l: Log)
    requires Inv(m) && Agrees(m, l) && m.state == ChunkData
    ensures SoundResult(BodyByte(m, ch), l)
  {
    var b := Data(Body, [ch]);
    ObserveOne(l, b);
    ObserveTwo(l, b, Data(Body, []));
    assert [b] + [Data(Body, [])] == [b, Data(Body, [])];
    hide ObserveAll;
  }

  lemma BodyGoesOnSound(m: Machine, ch: char, l: Log)
    requires Inv(m) && Agrees(m, l)
    requires m.state == BodyIdentityEof || (m.state == BodyIdentity && m.contentLength > 1)
    ensures SoundResult(BodyByte(m, ch), l)
  {
    ObserveOne(l, Data(Body, [ch]));
    hide ObserveAll;
  }

  lemma BodyEndsSound(m: Machine, ch: char, l: Log)
    requires Inv(m) && Agrees(m, l) && m.state == BodyIdentity && m.contentLength == 1
    ensures SoundResult(BodyByte(m, ch), l)
  {
    var b := Data(Body, [ch]);
    var e := m.(contentLength := 0).Completion();
    assert [b] + [e] == [b, e];
    ObserveTwo(l, b, e);
    hide ObserveAll;
  }

  lemma BodyByteSound(m: Machine, ch: char, l: Log)
    requires Inv(m) && Agrees(m, l) && m.BulkState()
    ensures SoundResult(BodyByte(m, ch), l)
  {
    assert m.state == BodyIdentity ==> m.contentLength > 0;
    hide Inv, Agrees, BodyByte, SoundResult;
    if m.state == BodyIdentity && m.contentLength == 1 {
      BodyEndsSound(m, ch, l);
    } else if m.state == ChunkData {
      ChunkByteSound(m, ch, l);
    } else {
      BodyGoesOnSound(m, ch, l);
    }
  }

  lemma StepSound(skip: bool, m: Machine, ch: char, l: Log)
    requires Inv(m) && Agrees(m, l)
    ensures SoundResult(Step(skip, m, ch), l)
  {
    assert l.Log?;
    hide Switch, Emitted, BodyByte, Inv, Agrees, LogAfter;
    if m.BulkState() {
      BodyByteSound(m, ch, l);
    } else {
      SwitchSound(skip, m, ch, l);
      var v := Switch(skip, m, ch);
      ObserveEmitted(l, v.op, if v.Next? then v.m.state else Dead, ch);
    }
  }

  /**
   Reachable states, over every input: no assert of the parser fires, every live state keeps
   the invariant, and the callbacks follow the protocol that `Observe` describes.
   */
  lemma {:induction false} RunSound(skip: bool, m: Machine, data: string, l: Log)
    requires Inv(m) && Agrees(m, l)
    ensures SoundResult(Run(skip, m, data), l)
    decreases |data|
  {
    hide Step, Inv, Agrees;
    if data != [] {
      var n := |data| - 1;
      RunSound(skip, m, data[..n], l);
      var r := Run(skip, m, data[..n]);
      if r.Live? {
        StepSound(skip, r.m, data[n], ObserveAll(l, r.out));
        ObserveConcat(l, r.out, Step(skip, r.m, data[n]).out);
      }
    }
  }

  lemma FromInitial(skip: bool, data: string)
    ensures SoundResult(Run(skip, INITIAL, data), EMPTY_LOG)
  {
    RunSound(skip, INITIAL, data, EMPTY_LOG);
  }

  // ----- the protocol does not see how data was cut

  lemma ObserveMerge(t: seq<Event>, e: Event, l: Log)
    ensures ObserveAll(l, Merge(t, e)) == Observe(ObserveAll(l, t), e)
  {
    if e.Data? && |t| > 0 && t[|t|-1].Data? && t[|t|-1].kind == e.kind {
      var u := t[..|t|-1] + [Data(e.kind, t[|t|-1].bytes + e.bytes)];
      assert u[..|u|-1] == t[..|t|-1];
    } else {
      assert (t + [e])[..|t|] == t;
    }
  }

  lemma {:induction false} ObserveNorm(t: seq<Event>, l: Log)
    ensures ObserveAll(l, Norm(t)) == ObserveAll(l, t)
    decreases |t|
  {
    if t != [] {
      var init, last := t[..|t|-1], t[|t|-1];
      assert t == init + [last];
      ObserveNorm(init, l);
      NormSnoc(init, last);
      ObserveMerge(Norm(init), last, l);
    }
  }
}
