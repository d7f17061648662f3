/**
 Whole responses. A response is written down from its parts; the parser, fed that text, makes
 exactly the callbacks that the parts call for: its headers, its body whichever way it is framed,
 and one completion.
 */
module HttpMessages {
  import opened Octets
  import opened HttpEvents
  import opened HttpMachine
  import opened HttpBody
  import opened HttpLines
  import opened HttpHead
  import opened Options

  // ----- chunked coding, section 3.6.1 of RFC 2616

  datatype Chunk = Chunk(size: string, ext: string, data: string)

  const CRLF: string := [CR, LF]

  function SizeLine(size: string, ext: string): string { size + ext + CRLF }

  function ChunkText(c: Chunk): string { SizeLine(c.size, c.ext) + c.data + CRLF }

  /** A chunk extension starts with ';' (or a space) and runs to the end of the line. */
  predicate ExtOk(ext: string) {
    ext == [] || ((ext[0] == ';' || ext[0] == ' ') && forall i :: 0 <= i < |ext| ==> ext[i] != CR)
  }

  predicate SizeOk(size: string, n: nat) { size != [] && AllHex(size) && HexValue(size) == n }

  predicate ChunkOk(c: Chunk) { c.data != [] && SizeOk(c.size, |c.data|) && ExtOk(c.ext) }

  predicate InChunk(m: Machine) {
    m.flags.chunked &&
    match m.state
    case ChunkSizeStart | ChunkSize | ChunkParameters | ChunkSizeAlmostDone
       | ChunkDataAlmostDone | ChunkDataDone => true
    case _ => false
  }

  lemma ByteInChunk(skip: bool, m: Machine, ch: char)
    requires InChunk(m)
    ensures Step(skip, m, ch) == Report(m, ChunkChar(m, ch), ch)
  {
    hide ChunkChar, Report;
  }

  /** One more silent byte in a chunk state. */
  lemma ChunkByte(skip: bool, m: Machine, a: string, m1: Machine, ch: char)
    requires Goes(skip, m, a, m1, []) && InChunk(m1)
    requires ChunkChar(m1, ch).Next? && ChunkChar(m1, ch).op == Nothing && !Marking(ChunkChar(m1, ch).m.state)
    ensures Goes(skip, m, a + [ch], ChunkChar(m1, ch).m, [])
  {
    ByteInChunk(skip, m1, ch);
    RunSnoc(skip, m, a, ch);
    var m2 := ChunkChar(m1, ch).m;
    assert [] + Emitted(Nothing, m2.state, ch) == [];
    hide Step, Run, ChunkChar;
  }

  lemma HexInit(s: string)
    requires AllHex(s) && s != []
    ensures AllHex(s[..|s|-1]) && IsSizeDigit(s[|s|-1]) && Unhex(s[|s|-1]) >= 0
  {}

  lemma NoHex()
    ensures HexValue([]) == 0
  {}

  lemma SizeFirst(m: Machine, ch: char)
    requires m.state == ChunkSizeStart && m.flags.chunked && IsSizeDigit(ch)
    ensures ChunkChar(m, ch) == Next(m.(state := ChunkSize, contentLength := Unhex(ch)), Nothing)
  {}

  lemma SizeNext(m: Machine, ch: char)
    requires m.state == ChunkSize && m.flags.chunked && IsSizeDigit(ch)
    ensures ChunkChar(m, ch) == Next(m.(contentLength := 16 * m.contentLength + Unhex(ch)), Nothing)
  {}

  lemma SizeFirstRun(skip: bool, m: Machine, ch: char)
    requires m.state == ChunkSizeStart && m.flags.chunked && IsSizeDigit(ch) && Unhex(ch) >= 0
    ensures Goes(skip, m, [ch], m.(state := ChunkSize, contentLength := Unhex(ch)), [])
  {
    hide Step, Run, Goes, ChunkChar, Unhex, IsSizeDigit;
    GoesNowhere(skip, m);
    SizeFirst(m, ch);
    ChunkByte(skip, m, [], m, ch);
    assert [] + [ch] == [ch];
  }

  lemma SizeNextRun(skip: bool, m: Machine, a: string, m1: Machine, ch: char)
    requires Goes(skip, m, a, m1, []) && m1.state == ChunkSize && m1.flags.chunked && IsSizeDigit(ch)
    ensures Goes(skip, m, a + [ch], m1.(contentLength := 16 * m1.contentLength + Unhex(ch)), [])
  {
    hide Step, Run, Goes, ChunkChar, Unhex, IsSizeDigit;
    SizeNext(m1, ch);
    ChunkByte(skip, m, a, m1, ch);
  }

  lemma {:induction false} SizeRun(skip: bool, m: Machine, s: string)
    requires m.state == ChunkSizeStart && m.flags.chunked && s != [] && AllHex(s)
    ensures Goes(skip, m, s, m.(state := ChunkSize, contentLength := HexValue(s)), [])
    decreases |s|
  {
    hide *;
    var init, ch := s[..|s|-1], s[|s|-1];
    assert s == init + [ch];
    HexInit(s);
    HexSnoc(init, ch);
    if init == [] {
      NoHex();
      assert [] + [ch] == s;
      SizeFirstRun(skip, m, ch);
    } else {
      SizeRun(skip, m, init);
      SizeNextRun(skip, m, init, m.(state := ChunkSize, contentLength := HexValue(init)), ch);
    }
  }

  lemma ExtInit(ext: string)
    requires ExtOk(ext) && ext != []
    ensures ExtOk(ext[..|ext|-1]) && ext[|ext|-1] != CR
    ensures |ext| == 1 ==> ext[0] == ';' || ext[0] == ' '
  {
    var init := ext[..|ext|-1];
    assert init != [] ==> init[0] == ext[0];
  }

  lemma ExtByte(m: Machine, ch: char)
    requires m.flags.chunked && ch != CR
    requires (m.state == ChunkSize && (ch == ';' || ch == ' ')) || m.state == ChunkParameters
    ensures ChunkChar(m, ch) == Next(m.(state := ChunkParameters), Nothing)
  {}

  lemma ExtFirstRun(skip: bool, m: Machine, ch: char)
    requires m.state == ChunkSize && m.flags.chunked && (ch == ';' || ch == ' ')
    ensures Goes(skip, m, [ch], m.(state := ChunkParameters), [])
  {
    hide Step, Run, Goes, ChunkChar;
    GoesNowhere(skip, m);
    ExtByte(m, ch);
    ChunkByte(skip, m, [], m, ch);
    assert [] + [ch] == [ch];
  }

  lemma ExtNextRun(skip: bool, m: Machine, a: string, m1: Machine, ch: char)
    requires Goes(skip, m, a, m1, []) && m1.state == ChunkParameters && m1.flags.chunked && ch != CR
    ensures Goes(skip, m, a + [ch], m1, [])
  {
    hide Step, Run, Goes, ChunkChar;
    ExtByte(m1, ch);
    ChunkByte(skip, m, a, m1, ch);
  }

  lemma {:induction false} ExtRun(skip: bool, m: Machine, ext: string)
    requires m.state == ChunkSize && m.flags.chunked && ExtOk(ext)
    ensures Goes(skip, m, ext, if ext == [] then m else m.(state := ChunkParameters), [])
    decreases |ext|
  {
    hide *;
    if ext == [] {
      GoesNowhere(skip, m);
    } else {
      var init, ch := ext[..|ext|-1], ext[|ext|-1];
      assert ext == init + [ch];
      ExtInit(ext);
      if init == [] {
        assert [ch] == ext;
        ExtFirstRun(skip, m, ch);
      } else {
        ExtRun(skip, m, init);
        ExtNextRun(skip, m, init, m.(state := ChunkParameters), ch);
      }
    }
  }

  /** The machine after the size line of a chunk of `n` bytes. */
  function AfterSize(m: Machine, n: nat): Machine {
    if n == 0
    then m.(state := HeaderFieldStart, contentLength := 0, flags := m.flags.(trailing := true))
    else m.(state := ChunkData, contentLength := n)
  }

  lemma SizeLineRun(skip: bool, m: Machine, size: string, ext: string, n: nat)
    requires m.state == ChunkSizeStart && m.flags.chunked && SizeOk(size, n) && ExtOk(ext)
    ensures Goes(skip, m, SizeLine(size, ext), AfterSize(m, n), [])
  {
    hide Step, Run, Goes, HexValue, AllHex;
    SizeRun(skip, m, size);
    var m1 := m.(state := ChunkSize, contentLength := n);
    ExtRun(skip, m1, ext);
    var m2 := if ext == [] then m1 else m1.(state := ChunkParameters);
    Silent(skip, m, size, m1, ext, m2);
    var m3 := m1.(state := ChunkSizeAlmostDone);
    ChunkByte(skip, m, size + ext, m2, CR);
    ChunkByte(skip, m, size + ext + [CR], m3, LF);
    assert size + ext + [CR] + [LF] == SizeLine(size, ext);
  }

  function ChunkEvents(c: Chunk): seq<Event> { Singles(Body, c.data) + [Data(Body, [])] }

  lemma ChunkRun(skip: bool, m: Machine, c: Chunk)
    requires m.state == ChunkSizeStart && m.flags.chunked && ChunkOk(c)
    ensures Goes(skip, m, ChunkText(c), m.(contentLength := 0), ChunkEvents(c))
  {
    hide Step, Run, SizeOk;
    SizeLineRun(skip, m, c.size, c.ext, |c.data|);
    var m1 := AfterSize(m, |c.data|);
    ChunkWhole(skip, m1, c.data);
    var m2 := m.(state := ChunkDataAlmostDone, contentLength := 0);
    Chain(skip, m, SizeLine(c.size, c.ext), m1, [], c.data, m2, ChunkEvents(c));
    assert [] + ChunkEvents(c) == ChunkEvents(c);
    RunEmpty(skip, m2);
    var m3 := m2.(state := ChunkDataDone);
    ChunkByte(skip, m2, [], m2, CR);
    assert [] + [CR] == [CR];
    ChunkByte(skip, m2, [CR], m3, LF);
    assert [CR] + [LF] == CRLF;
    Chain(skip, m, SizeLine(c.size, c.ext) + c.data, m2, ChunkEvents(c), CRLF, m.(contentLength := 0), []);
    assert ChunkEvents(c) + [] == ChunkEvents(c);
  }

  function ChunksText(cs: seq<Chunk>): string {
    if cs == [] then [] else ChunksText(cs[..|cs|-1]) + ChunkText(cs[|cs|-1])
  }

  /** The body that a list of chunks carries. */
  function ChunksData(cs: seq<Chunk>): string {
    if cs == [] then [] else ChunksData(cs[..|cs|-1]) + cs[|cs|-1].data
  }

  function ChunksEvents(cs: seq<Chunk>): seq<Event> {
    if cs == [] then [] else ChunksEvents(cs[..|cs|-1]) + ChunkEvents(cs[|cs|-1])
  }

  lemma {:induction false} ChunksRun(skip: bool, m: Machine, cs: seq<Chunk>)
    requires m.state == ChunkSizeStart && m.flags.chunked
    requires forall c :: c in cs ==> ChunkOk(c)
    ensures var cl := if cs == [] then m.contentLength else 0;
            Goes(skip, m, ChunksText(cs), m.(contentLength := cl), ChunksEvents(cs))
    decreases |cs|
  {
    hide Step, Run, ChunkOk, ChunkText;
    if cs == [] {
      RunEmpty(skip, m);
    } else {
      var init, c := cs[..|cs|-1], cs[|cs|-1];
      assert forall d :: d in init ==> d in cs;
      assert c in cs;
      ChunksRun(skip, m, init);
      var m1 := m.(contentLength := if init == [] then m.contentLength else 0);
      ChunkRun(skip, m1, c);
      Chain(skip, m, ChunksText(init), m1, ChunksEvents(init),
            ChunkText(c), m.(contentLength := 0), ChunkEvents(c));
    }
  }

  // ----- whole responses

  datatype BodyText =
    | NoText
    | Sized(bytes: string)
    | UntilEof(bytes: string)
    | Coded(chunks: seq<Chunk>, lastSize: string, lastExt: string, trailer: seq<Header>, crlf: bool)

  datatype Response = Response(status: StatusLine, headers: seq<Header>, crlf: bool, body: BodyText)

  function HeadText(r: Response): string {
    StatusText(r.status) + BlockText(r.headers) + EndOfLine(r.crlf)
  }

  function TrailerText(b: BodyText): string
    requires b.Coded?
  {
    SizeLine(b.lastSize, b.lastExt) + BlockText(b.trailer) + EndOfLine(b.crlf)
  }

  function TextOfBody(b: BodyText): string {
    match b
    case NoText => []
    case Sized(bytes) => bytes
    case UntilEof(bytes) => bytes
    case Coded(cs, _, _, _, _) => ChunksText(cs) + TrailerText(b)
  }

  function ResponseText(r: Response): string { HeadText(r) + TextOfBody(r.body) }

  const NO_MEANING := Meaning(NO_FLAGS, -1)

  /** What the headers of a response add up to. */
  function HeadMeaning(skip: bool, r: Response): Meaning
    requires ApplyBlock(NO_MEANING, r.headers).Some?
  {
    var s := ApplyBlock(NO_MEANING, r.headers).value;
    s.(flags := s.flags.(skipBody := skip))
  }

  /** The flags once the whole message has been read: a trailer can still change them. */
  function FinalMeaning(skip: bool, r: Response): Option<Meaning> {
    if ApplyBlock(NO_MEANING, r.headers).None? then None
    else if r.body.Coded? then
      var s := HeadMeaning(skip, r);
      ApplyBlock(Meaning(s.flags.(trailing := true), 0), r.body.trailer)
    else Some(HeadMeaning(skip, r))
  }

  /** HTTP/1.1 keeps the connection unless told to close, older versions only when told to keep. */
  function Persistent(l: StatusLine, f: Flags): bool
    requires StatusLineOk(l)
  {
    if DecimalValue(l.major) > 0 && DecimalValue(l.minor) > 0 then !f.close else f.keepAlive
  }

  ghost predicate HeadOk(skip: bool, r: Response) {
    && StatusLineOk(r.status)
    && (forall h :: h in r.headers ==> HeaderOk(h))
    && FinalMeaning(skip, r).Some?
    && !HeadMeaning(skip, r).flags.upgrade
  }

  /** A body written down in one framing. */
  ghost predicate FramedAs(f: Framing, b: BodyText) {
    match f
    case NoBody => b.NoText?
    case Length(n) => b.Sized? && |b.bytes| == n
    case ToEof => b.UntilEof?
    case Chunks =>
      && b.Coded?
      && (forall c :: c in b.chunks ==> ChunkOk(c))
      && SizeOk(b.lastSize, 0) && ExtOk(b.lastExt)
      && (forall h :: h in b.trailer ==> HeaderOk(h))
  }

  /** The body has the form that the parser expects after this head. */
  ghost predicate BodyOk(skip: bool, r: Response)
    requires HeadOk(skip, r)
  {
    FramedAs(FramingOf(skip, HeadMeaning(skip, r), Persistent(r.status, HeadMeaning(skip, r).flags)), r.body)
  }

  ghost predicate ResponseOk(skip: bool, r: Response) { HeadOk(skip, r) && BodyOk(skip, r) }

  // ----- the callbacks a response calls for

  function HeaderCalls(hs: seq<Header>): seq<Event> {
    if hs == [] then []
    else HeaderCalls(hs[..|hs|-1]) + [Data(Field, hs[|hs|-1].name), Data(Value, hs[|hs|-1].value)]
  }

  function BodyCalls(bytes: string): seq<Event> {
    if bytes == [] then [] else [Data(Body, bytes)]
  }

  function BodyBytes(b: BodyText): string {
    match b
    case NoText => []
    case Sized(bytes) => bytes
    case UntilEof(bytes) => bytes
    case Coded(cs, _, _, _, _) => ChunksData(cs)
  }

  function Trailer(b: BodyText): seq<Header> { if b.Coded? then b.trailer else [] }

  ghost function Calls(skip: bool, r: Response): seq<Event>
    requires ResponseOk(skip, r)
  {
    [Begin] + HeaderCalls(r.headers)
    + [HeadersComplete(DecimalValue(r.status.major), DecimalValue(r.status.minor), DecimalValue(r.status.status),
                       Persistent(r.status, HeadMeaning(skip, r).flags))]
    + BodyCalls(BodyBytes(r.body)) + HeaderCalls(Trailer(r.body))
    + (if r.body.UntilEof? then []
       else [MessageComplete(Persistent(r.status, FinalMeaning(skip, r).value.flags))])
  }

  // ----- byte-wise callbacks and merged callbacks

  /** The same callbacks, up to how data is cut, after any trace. */
  ghost predicate Equiv(a: seq<Event>, b: seq<Event>) {
    forall t: seq<Event> :: Norm(t + a) == Norm(t + b)
  }

  lemma EquivSame(a: seq<Event>)
    ensures Equiv(a, a)
  {}

  lemma EquivConcat(a: seq<Event>, b: seq<Event>, c: seq<Event>, d: seq<Event>)
    requires Equiv(a, b) && Equiv(c, d)
    ensures Equiv(a + c, b + d)
  {
    hide Norm;
    forall t: seq<Event>
      ensures Norm(t + (a + c)) == Norm(t + (b + d))
    {
      assert t + (a + c) == (t + a) + c && t + (b + d) == (t + b) + d;
      NormCongruence(t + a, t + b, c);
      assert Norm((t + b) + c) == Norm((t + b) + d);
    }
  }

  lemma DataEquiv(k: Kind, s: string)
    ensures Equiv(Singles(k, s) + [Data(k, [])], [Data(k, s)])
    ensures s != [] ==> Equiv(Singles(k, s), [Data(k, s)])
  {
    hide Norm;
    forall t: seq<Event>
      ensures Norm(t + (Singles(k, s) + [Data(k, [])])) == Norm(t + [Data(k, s)])
      ensures s != [] ==> Norm(t + Singles(k, s)) == Norm(t + [Data(k, s)])
    {
      if s == [] {
        assert Singles(k, s) + [Data(k, [])] == [Data(k, s)];
      } else {
        NormSingles(t, k, s);
        NormSinglesThen(t, k, s, Data(k, []));
        NormEmptyData(t + [Data(k, s)], k);
      }
    }
  }

  lemma BodyEquiv(s: string)
    ensures Equiv(Singles(Body, s), BodyCalls(s))
  {
    if s == [] {
      assert Singles(Body, s) == [];
    } else {
      DataEquiv(Body, s);
    }
  }

  lemma BodyCallsConcat(s: string, u: string)
    requires u != []
    ensures Equiv(BodyCalls(s) + [Data(Body, u)], BodyCalls(s + u))
  {
    hide Norm;
    forall t: seq<Event>
      ensures Norm(t + (BodyCalls(s) + [Data(Body, u)])) == Norm(t + BodyCalls(s + u))
    {
      if s == [] {
        assert s + u == u && BodyCalls(s) + [Data(Body, u)] == [Data(Body, u)];
      } else {
        NormSplitData(t, Body, s, u);
        assert t + (BodyCalls(s) + [Data(Body, u)]) == t + [Data(Body, s)] + [Data(Body, u)];
      }
    }
  }

  lemma EquivTrans(a: seq<Event>, b: seq<Event>, c: seq<Event>)
    requires Equiv(a, b) && Equiv(b, c)
    ensures Equiv(a, c)
  {
    hide Norm;
    forall t: seq<Event>
      ensures Norm(t + a) == Norm(t + c)
    {
      assert Norm(t + a) == Norm(t + b);
    }
  }

  /** The chunks of a body add up to one piece of data. */
  lemma {:induction false} ChunksEquiv(cs: seq<Chunk>)
    requires forall c :: c in cs ==> c.data != []
    ensures Equiv(ChunksEvents(cs), BodyCalls(ChunksData(cs)))
    decreases |cs|
  {
    hide Norm, Equiv;
    EquivSame([]);
    if cs != [] {
      var init, c := cs[..|cs|-1], cs[|cs|-1];
      assert forall d :: d in init ==> d in cs;
      assert c in cs;
      ChunksEquiv(init);
      DataEquiv(Body, c.data);
      EquivConcat(ChunksEvents(init), BodyCalls(ChunksData(init)), ChunkEvents(c), [Data(Body, c.data)]);
      BodyCallsConcat(ChunksData(init), c.data);
      EquivTrans(ChunksEvents(cs), BodyCalls(ChunksData(init)) + [Data(Body, c.data)], BodyCalls(ChunksData(cs)));
    }
  }

  lemma {:induction false} BlockEquiv(hs: seq<Header>)
    ensures Equiv(BlockEvents(hs), HeaderCalls(hs))
    decreases |hs|
  {
    hide Norm, Equiv;
    EquivSame([]);
    if hs != [] {
      var init, h := hs[..|hs|-1], hs[|hs|-1];
      BlockEquiv(init);
      DataEquiv(Field, h.name);
      DataEquiv(Value, h.value);
      EquivConcat(Singles(Field, h.name) + [Data(Field, [])], [Data(Field, h.name)],
                  Singles(Value, h.value) + [Data(Value, [])], [Data(Value, h.value)]);
      assert [Data(Field, h.name)] + [Data(Value, h.value)] == [Data(Field, h.name), Data(Value, h.value)];
      EquivConcat(BlockEvents(init), HeaderCalls(init), LineEvents(h), [Data(Field, h.name), Data(Value, h.value)]);
    }
  }

  // ----- the parser on a whole response

  /** The machine when the head of `r` has been read; the matcher's registers are free. */
  ghost predicate AtBody(skip: bool, r: Response, m: Machine)
    requires HeadOk(skip, r)
  {
    var s := HeadMeaning(skip, r);
    var f := FramingOf(skip, s, Persistent(r.status, s.flags));
    && m.state == FirstBodyState(m, f) && m.nread == 0 && !m.upgrade
    && MeaningOf(m) == s
    && m.major == DecimalValue(r.status.major) && m.minor == DecimalValue(r.status.minor)
    && m.status == DecimalValue(r.status.status)
  }

  /** A head of `n` bytes is within the limit. The first byte after a trailer is not counted. */
  predicate HeadFits(m: Machine, n: nat) {
    Room(m, 1) && Counted(m).nread + n <= MAX_HEADER_SIZE + 1
  }

  lemma HeadRun(skip: bool, m: Machine, r: Response)
    requires m.state == StartRes && !m.upgrade && HeadOk(skip, r)
    requires HeadFits(m, |HeadText(r)|)
    ensures var res := Run(skip, m, HeadText(r));
      var f := FramingOf(skip, HeadMeaning(skip, r), Persistent(r.status, HeadMeaning(skip, r).flags));
      && res.Live? && AtBody(skip, r, res.m)
      && res.out == [Begin] + BlockEvents(r.headers) + HeadEvents(res.m, f)
  {
    hide Step, Run, StatusText, BlockText, ApplyBlock, DecimalValue, AllDigits, BlockEvents;
    assert |StatusText(r.status)| > 0 by { StatusTextParts(r.status); }
    StatusLineRun(skip, m, r.status);
    var m1 := AfterStatusLine(m, r.status);
    BlockRun(skip, m1, r.headers);
    BlockKeepsTrailing(NO_MEANING, r.headers);
    var m2 := Run(skip, m1, BlockText(r.headers)).m;
    Chain(skip, m, StatusText(r.status), m1, [Begin], BlockText(r.headers), m2, BlockEvents(r.headers));
    HeadEnd(skip, m2, r.crlf);
    var end := Run(skip, m2, EndOfLine(r.crlf));
    Chain(skip, m, StatusText(r.status) + BlockText(r.headers), m2, [Begin] + BlockEvents(r.headers),
          EndOfLine(r.crlf), end.m, end.out);
  }

  /** The trailer of a chunked body. */
  lemma TrailerRun(skip: bool, m: Machine, b: BodyText)
    requires b.Coded? && m.state == ChunkSizeStart && m.flags.chunked && !m.flags.trailing
    requires SizeOk(b.lastSize, 0) && ExtOk(b.lastExt) && forall h :: h in b.trailer ==> HeaderOk(h)
    requires ApplyBlock(Meaning(m.flags.(trailing := true), 0), b.trailer).Some?
    ensures var res := Run(skip, m, TrailerText(b));
      var s := ApplyBlock(Meaning(m.flags.(trailing := true), 0), b.trailer).value;
      && res.Live? && res.out == BlockEvents(b.trailer) + [res.m.Completion()]
      && res.m == m.(state := res.m.NewMessage(), hstate := res.m.hstate, index := res.m.index,
                     flags := s.flags, contentLength := s.contentLength)
  {
    hide Step, Run, ApplyBlock, BlockText, BlockEvents, SizeOk, ExtOk, SizeLine;
    SizeLineRun(skip, m, b.lastSize, b.lastExt, 0);
    var m1 := AfterSize(m, 0);
    BlockRun(skip, m1, b.trailer);
    var m2 := Run(skip, m1, BlockText(b.trailer)).m;
    Chain(skip, m, SizeLine(b.lastSize, b.lastExt), m1, [], BlockText(b.trailer), m2, BlockEvents(b.trailer));
    assert [] + BlockEvents(b.trailer) == BlockEvents(b.trailer);
    TrailerEnd(skip, m2, b.crlf);
    Chain(skip, m, SizeLine(b.lastSize, b.lastExt) + BlockText(b.trailer), m2, BlockEvents(b.trailer),
          EndOfLine(b.crlf), m2.(state := m2.NewMessage()), [m2.Completion()]);
  }

  /** The callbacks of the body proper, byte by byte; an empty body completed with the head. */
  function BodyEventsOf(b: BodyText, m: Machine): seq<Event> {
    match b
    case NoText => []
    case Sized(bytes) => Singles(Body, bytes) + [m.Completion()]
    case UntilEof(bytes) => Singles(Body, bytes)
    case Coded(cs, _, _, trailer, _) => ChunksEvents(cs) + (BlockEvents(trailer) + [m.Completion()])
  }

  lemma BodyRun(skip: bool, m: Machine, r: Response)
    requires ResponseOk(skip, r) && AtBody(skip, r, m)
    ensures var res := Run(skip, m, TextOfBody(r.body));
      && res.Live? && res.out == BodyEventsOf(r.body, res.m)
      && res.m.flags == FinalMeaning(skip, r).value.flags
      && res.m.nread == 0 && !res.m.upgrade
      && res.m.major == m.major && res.m.minor == m.minor && res.m.status == m.status
      && res.m.state == (if r.body.UntilEof? then BodyIdentityEof else res.m.NewMessage())
  {
    hide Step, Run, ApplyBlock, ChunkOk, SizeOk, ExtOk, HeaderOk, StatusLineOk, DecimalValue, AllDigits;
    match r.body
    case NoText =>
      RunEmpty(skip, m);
    case Sized(bytes) =>
      IdentityWhole(skip, m, bytes);
    case UntilEof(bytes) =>
      EofRun(skip, m, bytes);
    case Coded(cs, _, _, _, _) =>
      BlockKeepsTrailing(NO_MEANING, r.headers);
      ChunksRun(skip, m, cs);
      var m1 := m.(contentLength := if cs == [] then m.contentLength else 0);
      TrailerRun(skip, m1, r.body);
      var res := Run(skip, m1, TrailerText(r.body));
      Chain(skip, m, ChunksText(cs), m1, ChunksEvents(cs), TrailerText(r.body), res.m, res.out);
  }

  lemma BodyEventsEquiv(b: BodyText, m: Machine)
    requires b.Coded? ==> forall c :: c in b.chunks ==> c.data != []
    ensures Equiv(BodyEventsOf(b, m),
                  BodyCalls(BodyBytes(b)) + HeaderCalls(Trailer(b))
                  + if b.NoText? || b.UntilEof? then [] else [m.Completion()])
  {
    hide Norm, Equiv;
    var s := BodyBytes(b);
    var end := [m.Completion()];
    BodyEquiv(s);
    EquivSame(end);
    match b
    case NoText =>
      EquivSame([]);
    case Sized(_) =>
      EquivConcat(Singles(Body, s), BodyCalls(s), end, end);
      assert BodyCalls(s) + end == BodyCalls(s) + [] + end;
    case UntilEof(_) =>
      assert BodyCalls(s) == BodyCalls(s) + [] + [];
    case Coded(cs, _, _, trailer, _) =>
      ChunksEquiv(cs);
      BlockEquiv(trailer);
      EquivConcat(BlockEvents(trailer), HeaderCalls(trailer), end, end);
      EquivConcat(ChunksEvents(cs), BodyCalls(s), BlockEvents(trailer) + end, HeaderCalls(trailer) + end);
      assert BodyCalls(s) + (HeaderCalls(trailer) + end) == BodyCalls(s) + HeaderCalls(trailer) + end;
  }

  /** Where the parser is after a response: waiting for the next one, done, or at an open-ended body. */
  ghost function EndState(skip: bool, r: Response): State
    requires ResponseOk(skip, r)
  {
    if r.body.UntilEof? then BodyIdentityEof
    else if Persistent(r.status, FinalMeaning(skip, r).value.flags) then StartRes
    else Dead
  }

  /**
   The round trip: every well-formed response, framed as the parser frames it, is consumed whole and
   reported by exactly the callbacks its parts call for, up to how data is cut.
   */
  lemma ResponseRun(skip: bool, m: Machine, r: Response)
    requires m.state == StartRes && !m.upgrade && ResponseOk(skip, r)
    requires HeadFits(m, |HeadText(r)|)
    ensures var res := Run(skip, m, ResponseText(r));
      && res.Live? && Equiv(res.out, Calls(skip, r))
      && res.m.state == EndState(skip, r) && res.m.nread == 0 && !res.m.upgrade
      && res.m.major == DecimalValue(r.status.major) && res.m.minor == DecimalValue(r.status.minor)
      && res.m.status == DecimalValue(r.status.status)
      && res.m.flags == FinalMeaning(skip, r).value.flags
  {
    hide Step, Run, HeadText, TextOfBody, Equiv, Norm, ApplyBlock, BlockEvents, HeaderCalls, BodyCalls,
         SizeOk, HeaderOk, DecimalValue, AllDigits;
    HeadRun(skip, m, r);
    var h := Run(skip, m, HeadText(r));
    BodyRun(skip, h.m, r);
    var b := Run(skip, h.m, TextOfBody(r.body));
    Chain(skip, m, HeadText(r), h.m, h.out, TextOfBody(r.body), b.m, b.out);
    BlockEquiv(r.headers);
    EquivSame([Begin]);
    EquivConcat([Begin], [Begin], BlockEvents(r.headers), HeaderCalls(r.headers));
    var f := FramingOf(skip, HeadMeaning(skip, r), Persistent(r.status, HeadMeaning(skip, r).flags));
    EquivSame(HeadEvents(h.m, f));
    EquivConcat([Begin] + BlockEvents(r.headers), [Begin] + HeaderCalls(r.headers),
                HeadEvents(h.m, f), HeadEvents(h.m, f));
    BodyEventsEquiv(r.body, b.m);
    EquivConcat(h.out, [Begin] + HeaderCalls(r.headers) + HeadEvents(h.m, f), b.out,
                BodyCalls(BodyBytes(r.body)) + HeaderCalls(Trailer(r.body))
                + if r.body.NoText? || r.body.UntilEof? then [] else [b.m.Completion()]);
    SameCalls(skip, r, h.m, b.m);
  }

  lemma SameCalls(skip: bool, r: Response, h: Machine, b: Machine)
    requires ResponseOk(skip, r) && AtBody(skip, r, h)
    requires b.flags == FinalMeaning(skip, r).value.flags && b.major == h.major && b.minor == h.minor
    ensures var f := FramingOf(skip, HeadMeaning(skip, r), Persistent(r.status, HeadMeaning(skip, r).flags));
      ([Begin] + HeaderCalls(r.headers) + HeadEvents(h, f))
      + (BodyCalls(BodyBytes(r.body)) + HeaderCalls(Trailer(r.body))
         + if r.body.NoText? || r.body.UntilEof? then [] else [b.Completion()])
      == Calls(skip, r)
  {
    hide ApplyBlock, DecimalValue, AllDigits, ChunkOk, SizeOk, HeaderOk, HeaderCalls, BodyCalls;
    NoCalls();
    var head := [Begin] + HeaderCalls(r.headers);
    if r.body.NoText? {
      assert head + [HeadersComplete(h.major, h.minor, h.status, h.ShouldKeepAlive()), h.Completion()] + ([] + [] + [])
        == head + [HeadersComplete(h.major, h.minor, h.status, h.ShouldKeepAlive())] + [] + [] + [h.Completion()];
    }
  }

  lemma NoCalls()
    ensures HeaderCalls([]) == [] && BodyCalls([]) == []
  {}

  // ----- several responses on one connection

  function PipelineText(rs: seq<Response>): string {
    if rs == [] then [] else PipelineText(rs[..|rs|-1]) + ResponseText(rs[|rs|-1])
  }

  ghost predicate KeepsOpen(skip: bool, r: Response) {
    ResponseOk(skip, r) && EndState(skip, r) == StartRes
  }

  ghost predicate PipelineOk(skip: bool, rs: seq<Response>) {
    && (forall r :: r in rs ==> ResponseOk(skip, r) && |HeadText(r)| <= MAX_HEADER_SIZE)
    && (forall i :: 0 <= i < |rs| - 1 ==> KeepsOpen(skip, rs[i]))
  }

  ghost function PipelineCalls(skip: bool, rs: seq<Response>): seq<Event>
    requires PipelineOk(skip, rs)
  {
    if rs == [] then []
    else
      assert rs[|rs|-1] in rs;
      PipelineCalls(skip, rs[..|rs|-1]) + Calls(skip, rs[|rs|-1])
  }

  ghost function LastState(skip: bool, rs: seq<Response>): State
    requires PipelineOk(skip, rs)
  {
    if rs == [] then StartRes
    else
      assert rs[|rs|-1] in rs;
      EndState(skip, rs[|rs|-1])
  }

  /** Responses that keep the connection open can follow one another without end. */
  lemma {:induction false} PipelineRun(skip: bool, m: Machine, rs: seq<Response>)
    requires m.state == StartRes && !m.upgrade && m.nread == 0 && PipelineOk(skip, rs)
    ensures var res := Run(skip, m, PipelineText(rs));
      && res.Live? && Equiv(res.out, PipelineCalls(skip, rs))
      && res.m.nread == 0 && !res.m.upgrade
      && res.m.state == LastState(skip, rs)
    decreases |rs|
  {
    hide Step, Run, Equiv, ResponseOk, Calls, HeadText, ResponseText, EndState;
    RunEmpty(skip, m);
    EquivSame([]);
    if rs != [] {
      var init, r := rs[..|rs|-1], rs[|rs|-1];
      assert r in rs;
      assert init != [] ==> init[|init|-1] == rs[|rs|-2];
      PipelineRun(skip, m, init);
      var m1 := Run(skip, m, PipelineText(init));
      ResponseRun(skip, m1.m, r);
      var m2 := Run(skip, m1.m, ResponseText(r));
      Chain(skip, m, PipelineText(init), m1.m, m1.out, ResponseText(r), m2.m, m2.out);
      EquivConcat(m1.out, PipelineCalls(skip, init), m2.out, Calls(skip, r));
    }
  }
}
