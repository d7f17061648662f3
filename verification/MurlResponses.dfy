/**
 What murl's return value means: complete messages, the flush whose refusal is lost, and well-formed
 responses from end to end. MurlTruncation.dfy has all cases in which a truncated buffer gets through.
 */
module MurlResponses {
  import opened Octets
  import opened HttpEvents
  import opened HttpMachine
  import opened HttpInvariant
  import opened HttpCut
  import opened HttpClient
  import opened HttpMarks
  import L = HttpLines
  import opened HttpHead
  import opened HttpMessages
  import opened MurlHttp
  import opened Options

  // ----- complete messages only

  predicate IsHead(e: Event) { e.HeadersComplete? }
  predicate IsEnd(e: Event) { e.MessageComplete? }

  function Heads(t: seq<Event>): nat {
    if t == [] then 0 else Heads(t[..|t|-1]) + if IsHead(t[|t|-1]) then 1 else 0
  }

  function Ends(t: seq<Event>): nat {
    if t == [] then 0 else Ends(t[..|t|-1]) + if IsEnd(t[|t|-1]) then 1 else 0
  }

  /** A trace that follows the protocol owes one completion exactly while it is in a body or trailer. */
  lemma {:induction false} OneOpen(t: seq<Event>)
    requires ObserveAll(EMPTY_LOG, t).Log?
    ensures Heads(t) == Ends(t) + if BodyPhase(ObserveAll(EMPTY_LOG, t).phase) then 1 else 0
    decreases |t|
  {
    if t != [] {
      OneOpen(t[..|t|-1]);
    }
  }

  /** The protocol sees the callbacks of a buffer as it sees the byte-wise run. */
  lemma CallsObserved(buf: string)
    ensures RunOf(buf).Live? ==>
              Agrees(RunOf(buf).m, ObserveAll(EMPTY_LOG, CallsOf(buf)))
  {
    hide Run, CutAll, Norm, ObserveAll;
    FromInitial(false, buf);
    NormCut([], NOTHING, RunOf(buf).out);
    var w := CutAll(NOTHING, RunOf(buf).out).Whole();
    assert [] + w == w && [] + NOTHING.Whole() + RunOf(buf).out == RunOf(buf).out;
    ObserveNorm(w, EMPTY_LOG);
    ObserveNorm(RunOf(buf).out, EMPTY_LOG);
  }

  predicate BetweenMessages(l: Log) { l.Log? && (l.phase == Idle || l.phase == Begun) }

  /** Where a run that may end here leaves the protocol. */
  lemma RestPhase(m: Machine, l: Log)
    requires Agrees(m, l) && AtRest(m.state)
    ensures BetweenMessages(if m.state == BodyIdentityEof then Observe(l, m.Completion()) else l)
  {}

  lemma ObservedSnoc(t: seq<Event>, e: Event)
    ensures ObserveAll(EMPTY_LOG, t + [e]) == Observe(ObserveAll(EMPTY_LOG, t), e)
  {
    assert (t + [e])[..|t + [e]| - 1] == t;
  }

  lemma CallsBetween(buf: string)
    requires WholeResponse(buf)
    ensures BetweenMessages(ObserveAll(EMPTY_LOG, AllCallsOf(buf)))
  {
    hide RunOf, CallsOf, Accepted, Agrees, ObserveAll, Observe, BetweenMessages;
    CallsObserved(buf);
    var m, calls := RunOf(buf).m, CallsOf(buf);
    RestPhase(m, ObserveAll(EMPTY_LOG, calls));
    ObservedSnoc(calls, m.Completion());
    assert calls + [] == calls;
  }

  /**
   Complete messages only: a buffer accepted as a whole response ends between messages, and every
   header block in it has had its message completed.
   */
  lemma CompleteMessages(buf: string)
    requires WholeResponse(buf)
    ensures Heads(AllCallsOf(buf)) == Ends(AllCallsOf(buf))
    ensures BetweenMessages(ObserveAll(EMPTY_LOG, AllCallsOf(buf)))
  {
    hide WholeResponse, AllCallsOf, ObserveAll;
    CallsBetween(buf);
    OneOpen(AllCallsOf(buf));
  }

  // ----- the lost flush

  /** The last callback of a run that ends inside a header is the piece cut off, and refused or not by its size. */
  lemma LastPiece(buf: string, init: seq<Event>, last: Event)
    requires RunOf(buf).Live? && Marking(RunOf(buf).m.state) && CallsOf(buf) == init + [last]
    ensures !Accepted(Deliver, EMPTY_MSG, init + [last]) && Accepted(Deliver, EMPTY_MSG, init) <==>
      && Accepted(Deliver, EMPTY_MSG, init)
      && last.Data? && last.kind != Body && !TakesElement(Assembled(init), last.bytes)
  {
    CallsObserved(buf);
    FoldSnoc(Deliver, EMPTY_MSG, init, last);
    ObservedSnoc(init, last);
    hide Run, CutAll, Callbacks, ObserveAll, Accepted, Fold;
  }

  /** The guard that fails: the piece cut off by the end of the buffer does not fit the message. */
  lemma LostFlushGuard(buf: string)
    ensures LostFlush(buf) <==>
      && RunOf(buf).Live? && Marking(RunOf(buf).m.state)
      && CallsOf(buf) != []
      && var init, last := CallsOf(buf)[..|CallsOf(buf)|-1], CallsOf(buf)[|CallsOf(buf)|-1];
         && Accepted(Deliver, EMPTY_MSG, init)
         && last.Data? && last.kind != Body && !TakesElement(Assembled(init), last.bytes)
  {
    hide Run, CutAll, Callbacks, ObserveAll, Accepted, Fold, Deliver, Assembled, TakesElement;
    if RunOf(buf).Live? && Marking(RunOf(buf).m.state) && CallsOf(buf) != [] {
      var calls := CallsOf(buf);
      var init, last := calls[..|calls|-1], calls[|calls|-1];
      assert calls == init + [last];
      LastPiece(buf, init, last);
    }
  }

  // ----- the callbacks of parts of a response

  lemma CutName(c: Cut, k: Kind, s: string)
    requires c.open == []
    ensures CutAll(c, Singles(k, s) + [Data(k, [])]) == Cut(c.done + [Data(k, s)], [])
  {
    CutSnoc(c, Singles(k, s), Data(k, []));
    if s == [] {
      assert Singles(k, s) == [];
      assert c.done + [] + [Data(k, [])] == c.done + [Data(k, [])];
    } else {
      CutSingles(c, k, s);
    }
  }

  lemma CutLine(c: Cut, h: L.Header)
    requires c.open == []
    ensures CutAll(c, L.LineEvents(h)) == Cut(c.done + [Data(Field, h.name), Data(Value, h.value)], [])
  {
    hide CutAll;
    var a, b := Singles(Field, h.name) + [Data(Field, [])], Singles(Value, h.value) + [Data(Value, [])];
    CutConcat(c, a, b);
    CutName(c, Field, h.name);
    CutName(Cut(c.done + [Data(Field, h.name)], []), Value, h.value);
    assert c.done + [Data(Field, h.name)] + [Data(Value, h.value)]
           == c.done + [Data(Field, h.name), Data(Value, h.value)];
  }

  lemma {:induction false} CutBlock(c: Cut, hs: seq<L.Header>)
    requires c.open == []
    ensures CutAll(c, BlockEvents(hs)) == Cut(c.done + HeaderCalls(hs), [])
    decreases |hs|
  {
    if hs == [] {
      CutEmpty(c);
      assert c.done + [] == c.done;
    } else {
      var init, h := hs[..|hs|-1], hs[|hs|-1];
      CutBlock(c, init);
      CutConcat(c, BlockEvents(init), L.LineEvents(h));
      CutLine(Cut(c.done + HeaderCalls(init), []), h);
      var two := [Data(Field, h.name), Data(Value, h.value)];
      assert c.done + HeaderCalls(init) + two == c.done + HeaderCalls(hs);
    }
  }

  /** One on_body for each chunk. */
  function ChunkCalls(cs: seq<Chunk>): seq<Event> {
    if cs == [] then [] else ChunkCalls(cs[..|cs|-1]) + [Data(Body, cs[|cs|-1].data)]
  }

  lemma {:induction false} CutChunks(c: Cut, cs: seq<Chunk>)
    requires c.open == []
    ensures CutAll(c, ChunksEvents(cs)) == Cut(c.done + ChunkCalls(cs), [])
    decreases |cs|
  {
    if cs == [] {
      CutEmpty(c);
      assert c.done + [] == c.done;
    } else {
      var init, k := cs[..|cs|-1], cs[|cs|-1];
      CutChunks(c, init);
      CutConcat(c, ChunksEvents(init), ChunkEvents(k));
      CutName(Cut(c.done + ChunkCalls(init), []), Body, k.data);
      assert c.done + ChunkCalls(init) + [Data(Body, k.data)] == c.done + ChunkCalls(cs);
    }
  }

  // ----- a truncated message that is accepted

  const OK_LINE := StatusLine("1", "1", 0, "200", Some("OK"), false)

  /** A status line and the beginning of a header name of `n` bytes, cut off there. */
  function Truncated(n: nat): string { StatusText(OK_LINE) + Letters(n) }

  function Letters(n: nat): (s: string)
    ensures |s| == n && forall i :: 0 <= i < n ==> s[i] == 'a'
  {
    seq(n, _ => 'a')
  }

  lemma OkLine()
    ensures StatusLineOk(OK_LINE) && |StatusText(OK_LINE)| == 16
  {
    DecimalSnoc([], '1');
    assert [] + ['1'] == "1";
    DecimalSnoc([], '2');
    assert [] + ['2'] == "2";
    DecimalSnoc("2", '0');
    assert "2" + ['0'] == "20";
    DecimalSnoc("20", '0');
    assert "20" + ['0'] == "200";
    assert DecimalValue([]) == 0;
    hide DecimalValue;
    assert ReasonText(OK_LINE.reason) == " OK";
    StatusTextParts(OK_LINE);
  }

  lemma TruncatedRun(n: nat)
    requires 0 < n && 16 + n <= MAX_HEADER_SIZE
    ensures var r := RunOf(Truncated(n));
      r.Live? && r.m.state == HeaderField && r.out == [Begin] + Singles(Field, Letters(n))
  {
    hide Run, Step, StatusText, DecimalValue;
    OkLine();
    StatusLineRun(false, INITIAL, OK_LINE);
    var m := AfterStatusLine(INITIAL, OK_LINE);
    L.NameRun(false, m, Letters(n));
    var r := Run(false, m, Letters(n));
    L.Chain(false, INITIAL, StatusText(OK_LINE), m, [Begin], Letters(n), r.m, r.out);
  }

  /**
   An input that gets through: one header name longer than MAX_ELEMENT_SIZE, cut off by the end of
   the buffer. `murl_http_parse_response` returns 0 although no header block was ever completed.
   */
  lemma TruncatedAccepted(n: nat)
    requires MAX_ELEMENT_SIZE < n && 16 + n <= MAX_HEADER_SIZE
    ensures GoodReturn(Truncated(n)) && !WholeResponse(Truncated(n))
    ensures Heads(CallsOf(Truncated(n))) == 0 && RunOf(Truncated(n)).m.state == HeaderField
  {
    hide Run, Step, Truncated;
    TruncatedRun(n);
    var buf, s := Truncated(n), Letters(n);
    CutConcat(NOTHING, [Begin], Singles(Field, s));
    CutSingle(NOTHING, Begin);
    assert [] + [] + [Begin] == [Begin];
    CutSingles(Cut([Begin], []), Field, s);
    assert CallsOf(buf) == [Begin] + [Data(Field, s)];
    FoldSnoc(Deliver, EMPTY_MSG, [], Begin);
    assert [] + [Begin] == [Begin];
    FoldSnoc(Deliver, EMPTY_MSG, [Begin], Data(Field, s));
    assert ([Begin] + [Data(Field, s)])[..1] == [Begin];
    assert Heads([Begin]) == 0;
  }

  // ----- well-formed responses from end to end

  function BodyPieces(b: BodyText): seq<Event> {
    if b.Coded? then ChunkCalls(b.chunks) else BodyCalls(BodyBytes(b))
  }

  /** The callbacks for a response in one buffer, one by one. */
  ghost function WholeCalls(r: Response): seq<Event>
    requires ResponseOk(false, r)
  {
    [Begin] + HeaderCalls(r.headers) + [HeadCall(r)] + BodyPieces(r.body) + HeaderCalls(Trailer(r.body))
    + LastCalls(r)
  }

  ghost function HeadCall(r: Response): Event
    requires ResponseOk(false, r)
  {
    HeadersComplete(DecimalValue(r.status.major), DecimalValue(r.status.minor), DecimalValue(r.status.status),
                    Persistent(r.status, HeadMeaning(false, r).flags))
  }

  ghost function LastCalls(r: Response): seq<Event>
    requires ResponseOk(false, r)
  {
    if r.body.UntilEof? then []
    else [MessageComplete(Persistent(r.status, FinalMeaning(false, r).value.flags))]
  }

  /** The header table has 64 slots, and header_value_cb already refuses in the last of them. */
  predicate HeadersFit(used: nat, hs: seq<L.Header>) {
    hs == [] ||
    (used + |hs| < MAX_HEADERS &&
     forall h :: h in hs ==> |h.name| <= MAX_ELEMENT_SIZE && |h.value| <= MAX_ELEMENT_SIZE)
  }

  /** When murl takes a well-formed response: the headers fit, and a trailer leaves keep-alive alone. */
  ghost predicate Fits(r: Response)
    requires ResponseOk(false, r)
  {
    && HeadersFit(0, r.headers) && HeadersFit(|r.headers|, Trailer(r.body))
    && (r.body.UntilEof? || Persistent(r.status, FinalMeaning(false, r).value.flags)
                            == Persistent(r.status, HeadMeaning(false, r).flags))
  }

  /** In numbers: at most 63 headers, and no name or value longer than 64 KiB. */
  lemma HeaderLimits(hs: seq<L.Header>)
    ensures HeadersFit(0, hs) <==> |hs| <= 63 && forall h :: h in hs ==> |h.name| <= 65536 && |h.value| <= 65536
  {}

  /** Whatever callbacks come, the body in the message stays below 64 MiB, and its size is counted. */
  lemma {:induction false} BodyLimit(t: seq<Event>)
    ensures |Assembled(t).body| == Assembled(t).bodySize < 67108864
    decreases |t|
  {
    if t != [] {
      var init, e := t[..|t|-1], t[|t|-1];
      assert t == init + [e];
      BodyLimit(init);
      AssembledSnoc(init, e);
      BodyStays(Assembled(init), e);
      hide Assembled, Deliver;
    }
  }

  lemma BodyStays(m: Msg, e: Event)
    requires |m.body| == m.bodySize < 67108864
    ensures |Deliver(m, e).0.body| == Deliver(m, e).0.bodySize < 67108864
  {
    hide AppendField, AppendValue;
    if e.Data? {
      PiecesKeepBody(m, e.bytes);
      PiecesKeepBody(m.(headers := m.headers + [("", "")]), e.bytes);
    }
  }

  lemma PiecesKeepBody(m: Msg, s: string)
    ensures AppendField(m, s).body == AppendValue(m, s).body == m.body
    ensures AppendField(m, s).bodySize == AppendValue(m, s).bodySize == m.bodySize
  {}

  lemma OneHeader(t: seq<Event>, h: L.Header)
    requires Accepted(Deliver, EMPTY_MSG, t) && Assembled(t).last != FieldElement
    ensures var u := t + [Data(Field, h.name), Data(Value, h.value)]; var n := |Assembled(t).headers|;
      && (Accepted(Deliver, EMPTY_MSG, u) <==>
            n + 1 < MAX_HEADERS && |h.name| <= MAX_ELEMENT_SIZE && |h.value| <= MAX_ELEMENT_SIZE)
      && (Accepted(Deliver, EMPTY_MSG, u) ==>
            && Assembled(u).last == ValueElement
            && Assembled(u).headers == Assembled(t).headers + [(h.name, h.value)]
            && Assembled(u).shouldKeepAlive == Assembled(t).shouldKeepAlive)
  {
    var d, e := Data(Field, h.name), Data(Value, h.value);
    AssembledSnoc(t, d);
    AssembledSnoc(t + [d], e);
    assert t + [d] + [e] == t + [d, e];
    assert "" + h.name == h.name && "" + h.value == h.value;
    hide Accepted, Fold, Assembled;
  }

  /** The header table is the list of headers, for as long as it has room. */
  lemma {:induction false} HeadersTaken(t: seq<Event>, hs: seq<L.Header>)
    requires Accepted(Deliver, EMPTY_MSG, t) && Assembled(t).last != FieldElement
    ensures var u := t + HeaderCalls(hs);
      && (Accepted(Deliver, EMPTY_MSG, u) <==> HeadersFit(|Assembled(t).headers|, hs))
      && (Accepted(Deliver, EMPTY_MSG, u) ==>
            && Assembled(u).last != FieldElement
            && |Assembled(u).headers| == |Assembled(t).headers| + |hs|
            && Assembled(u).shouldKeepAlive == Assembled(t).shouldKeepAlive)
    decreases |hs|
  {
    if hs == [] {
      assert t + HeaderCalls(hs) == t;
    } else {
      hide Accepted, Fold, Assembled;
      var init, h := hs[..|hs|-1], hs[|hs|-1];
      var two := [Data(Field, h.name), Data(Value, h.value)];
      assert hs == init + [h];
      HeadersTaken(t, init);
      var u := t + HeaderCalls(init);
      assert t + HeaderCalls(hs) == u + two;
      FitSnoc(|Assembled(t).headers|, init, h);
      if Accepted(Deliver, EMPTY_MSG, u) {
        OneHeader(u, h);
      } else if Accepted(Deliver, EMPTY_MSG, u + two) {
        AcceptedPrefix(Deliver, EMPTY_MSG, u, u + two);
      }
    }
  }

  lemma FitSnoc(used: nat, init: seq<L.Header>, h: L.Header)
    ensures HeadersFit(used, init + [h]) <==>
            HeadersFit(used, init) && used + |init| + 1 < MAX_HEADERS
            && |h.name| <= MAX_ELEMENT_SIZE && |h.value| <= MAX_ELEMENT_SIZE
  {
    assert h in init + [h];
    assert forall g :: g in init ==> g in init + [h];
  }

  /** Body pieces never stop the parser and touch nothing but the body. */
  lemma {:induction false} BodyTaken(t: seq<Event>, es: seq<Event>)
    requires forall e :: e in es ==> IsBody(e)
    ensures var u := t + es; var a, b := Assembled(t), Assembled(u);
      && (Accepted(Deliver, EMPTY_MSG, u) <==> Accepted(Deliver, EMPTY_MSG, t))
      && b.last == a.last && b.headers == a.headers && b.shouldKeepAlive == a.shouldKeepAlive
    decreases |es|
  {
    if es == [] {
      assert t + es == t;
    } else {
      hide Accepted, Fold, Assembled;
      var init, e := es[..|es|-1], es[|es|-1];
      assert es == init + [e];
      assert t + es == (t + init) + [e];
      assert e in es && forall d :: d in init ==> d in es;
      BodyTaken(t, init);
      AssembledSnoc(t + init, e);
    }
  }

  lemma {:induction false} PiecesAreBody(cs: seq<Chunk>)
    ensures forall e :: e in ChunkCalls(cs) ==> IsBody(e)
    ensures BodyOf(ChunkCalls(cs)) == ChunksData(cs)
    decreases |cs|
  {
    if cs != [] {
      var init := cs[..|cs|-1];
      PiecesAreBody(init);
      BodySnoc(ChunkCalls(init), Data(Body, cs[|cs|-1].data));
    }
  }

  lemma {:induction false} HeadersAreNoBody(hs: seq<L.Header>)
    ensures forall e :: e in HeaderCalls(hs) ==> !IsBody(e)
    decreases |hs|
  {
    if hs != [] {
      HeadersAreNoBody(hs[..|hs|-1]);
    }
  }

  lemma TailTaken(r: Response, t: seq<Event>)
    requires ResponseOk(false, r) && Accepted(Deliver, EMPTY_MSG, t) && Assembled(t).last != FieldElement
    requires |Assembled(t).headers| == |r.headers|
    requires Assembled(t).shouldKeepAlive == Persistent(r.status, HeadMeaning(false, r).flags)
    ensures Accepted(Deliver, EMPTY_MSG, t + BodyPieces(r.body) + HeaderCalls(Trailer(r.body)) + LastCalls(r)) <==>
            HeadersFit(|r.headers|, Trailer(r.body))
            && (r.body.UntilEof? || Persistent(r.status, FinalMeaning(false, r).value.flags)
                                    == Persistent(r.status, HeadMeaning(false, r).flags))
  {
    hide Assembled, Accepted, Fold, ResponseOk, Persistent, HeadMeaning, FinalMeaning, HeadersFit, HeaderCalls;
    var t4 := t + BodyPieces(r.body);
    if r.body.Coded? { PiecesAreBody(r.body.chunks); }
    BodyTaken(t, BodyPieces(r.body));
    var t5 := t4 + HeaderCalls(Trailer(r.body));
    HeadersTaken(t4, Trailer(r.body));
    if r.body.UntilEof? {
      assert t5 + [] == t5;
    } else {
      AssembledSnoc(t5, LastCalls(r)[0]);
      assert LastCalls(r) == [LastCalls(r)[0]];
    }
  }

  /** Whether murl takes the callbacks of a response. */
  lemma CallsTaken(r: Response)
    requires ResponseOk(false, r)
    ensures Accepted(Deliver, EMPTY_MSG, WholeCalls(r)) <==> Fits(r)
  {
    NothingTaken();
    hide Assembled, Accepted, Fold, ResponseOk, Persistent, HeadMeaning, FinalMeaning, HeadersFit, HeaderCalls,
         LastCalls, BodyPieces, DecimalValue;
    AssembledSnoc([], Begin);
    assert [] + [Begin] == [Begin];
    HeadersTaken([Begin], r.headers);
    var t2 := [Begin] + HeaderCalls(r.headers);
    var t3 := t2 + [HeadCall(r)];
    AssembledSnoc(t2, HeadCall(r));
    if Accepted(Deliver, EMPTY_MSG, t2) {
      TailTaken(r, t3);
    } else {
      assert t2 <= WholeCalls(r);
      if Accepted(Deliver, EMPTY_MSG, WholeCalls(r)) { AcceptedPrefix(Deliver, EMPTY_MSG, t2, WholeCalls(r)); }
    }
  }

  lemma NothingTaken()
    ensures Accepted(Deliver, EMPTY_MSG, []) && Assembled([]) == EMPTY_MSG
  {}

  lemma BodyOfWhole(r: Response)
    requires ResponseOk(false, r)
    ensures BodyOf(WholeCalls(r)) == BodyBytes(r.body)
  {
    hide BodyOf, ApplyBlock, DecimalValue, AllDigits, HeaderCalls;
    var t1 := [Begin] + HeaderCalls(r.headers) + [HeadCall(r)];
    HeadersAreNoBody(r.headers);
    NoBodyData(t1);
    HeadersAreNoBody(Trailer(r.body));
    NoBodyData(HeaderCalls(Trailer(r.body)));
    NoBodyData(LastCalls(r));
    if r.body.Coded? {
      PiecesAreBody(r.body.chunks);
    } else {
      BodyEmpty();
      BodySnoc([], Data(Body, BodyBytes(r.body)));
      assert [] + [Data(Body, BodyBytes(r.body))] == [Data(Body, BodyBytes(r.body))];
    }
    BodyConcat(t1, BodyPieces(r.body));
    BodyConcat(t1 + BodyPieces(r.body), HeaderCalls(Trailer(r.body)));
    BodyConcat(t1 + BodyPieces(r.body) + HeaderCalls(Trailer(r.body)), LastCalls(r));
  }

  /** The callbacks of the parser for a whole response in one buffer. */
  lemma CallsOfResponse(r: Response)
    requires ResponseOk(false, r) && |HeadText(r)| <= MAX_HEADER_SIZE
    ensures var run := RunOf(ResponseText(r));
      && run.Live? && CallsOf(ResponseText(r)) == WholeCalls(r)
      && run.m.state == EndState(false, r) && run.m.status == DecimalValue(r.status.status)
  {
    hide Step, Run, HeadText, TextOfBody, CutAll, BlockEvents, HeaderCalls, ApplyBlock, DecimalValue, AllDigits,
         Equiv, Norm, ChunksEvents, ChunkCalls, Calls, WholeCalls, BodyPieces, LastCalls, HeadCall;
    ResponseRun(false, INITIAL, r);
    HeadRun(false, INITIAL, r);
    var h := Run(false, INITIAL, HeadText(r));
    BodyRun(false, h.m, r);
    var b := Run(false, h.m, TextOfBody(r.body));
    L.Chain(false, INITIAL, HeadText(r), h.m, h.out, TextOfBody(r.body), b.m, b.out);
    CutHead(r, h.m);
    var head := [Begin] + HeaderCalls(r.headers) + [HeadCall(r)]
                + if r.body.NoText? then [h.m.Completion()] else [];
    CutConcat(NOTHING, h.out, b.out);
    CutBody(Cut(head, []), r, b.m);
    WholeSplit(r, h.m);
    assert CutAll(NOTHING, h.out + b.out).Whole() == WholeCalls(r);
  }

  lemma WholeSplit(r: Response, h: Machine)
    requires ResponseOk(false, r) && AtBody(false, r, h)
    ensures var head := [Begin] + HeaderCalls(r.headers) + [HeadCall(r)];
      WholeCalls(r) == if r.body.NoText? then head + [h.Completion()]
                       else head + (BodyPieces(r.body) + HeaderCalls(Trailer(r.body)) + LastCalls(r))
  {
    hide HeaderCalls, ApplyBlock, DecimalValue, AllDigits, ChunkCalls;
    if r.body.NoText? {
      NoHeaders();
      assert BodyPieces(r.body) == [];
      assert LastCalls(r) == [h.Completion()];
    }
  }

  lemma NoHeaders()
    ensures HeaderCalls([]) == []
  {}

  lemma CutHead(r: Response, m: Machine)
    requires ResponseOk(false, r) && AtBody(false, r, m)
    ensures var f := FramingOf(false, HeadMeaning(false, r), Persistent(r.status, HeadMeaning(false, r).flags));
      CutAll(NOTHING, [Begin] + BlockEvents(r.headers) + HeadEvents(m, f))
      == Cut([Begin] + HeaderCalls(r.headers) + [HeadCall(r)]
             + (if r.body.NoText? then [m.Completion()] else []), [])
  {
    hide CutAll, BlockEvents, HeaderCalls, ApplyBlock, DecimalValue, AllDigits;
    var f := FramingOf(false, HeadMeaning(false, r), Persistent(r.status, HeadMeaning(false, r).flags));
    CutNotes(NOTHING, [Begin]);
    CutConcat(NOTHING, [Begin], BlockEvents(r.headers));
    assert [] + [Begin] == [Begin];
    CutBlock(Cut([Begin], []), r.headers);
    var c := Cut([Begin] + HeaderCalls(r.headers), []);
    CutConcat(NOTHING, [Begin] + BlockEvents(r.headers), HeadEvents(m, f));
    CutNotes(c, HeadEvents(m, f));
    assert c.done + HeadEvents(m, f) == [Begin] + HeaderCalls(r.headers) + [HeadCall(r)]
           + (if r.body.NoText? then [m.Completion()] else []);
  }

  lemma CutBody(c: Cut, r: Response, m: Machine)
    requires ResponseOk(false, r) && c.open == []
    requires m.flags == FinalMeaning(false, r).value.flags
    requires m.major == DecimalValue(r.status.major) && m.minor == DecimalValue(r.status.minor)
    ensures CutAll(c, BodyEventsOf(r.body, m)).Whole()
            == c.done + (if r.body.NoText? then []
                         else BodyPieces(r.body) + HeaderCalls(Trailer(r.body)) + LastCalls(r))
  {
    hide CutAll, BlockEvents, ChunksEvents, ChunkCalls, ApplyBlock, DecimalValue, AllDigits;
    var end := [m.Completion()];
    match r.body
    case NoText =>
      CutEmpty(c);
    case Sized(bytes) =>
      CutSingles(c, Body, bytes);
      CutSnoc(c, Singles(Body, bytes), m.Completion());
      assert c.done + [Data(Body, bytes)] + end + [] == c.done + ([Data(Body, bytes)] + [] + end);
    case UntilEof(bytes) =>
      if bytes == [] {
        assert Singles(Body, bytes) == [];
        CutEmpty(c);
      } else {
        CutSingles(c, Body, bytes);
      }
    case Coded(cs, _, _, trailer, _) =>
      CutConcat(c, ChunksEvents(cs), BlockEvents(trailer) + end);
      CutChunks(c, cs);
      var c1 := Cut(c.done + ChunkCalls(cs), []);
      CutConcat(c1, BlockEvents(trailer), end);
      CutBlock(c1, trailer);
      CutNotes(Cut(c1.done + HeaderCalls(trailer), []), end);
      assert c1.done + HeaderCalls(trailer) + end + [] == c.done + (ChunkCalls(cs) + HeaderCalls(trailer) + end);
  }

  /**
   From end to end, for every well-formed response in one buffer: murl takes it as a whole response
   exactly when it fits, and then the body handed to the user is the body of the response.
   */
  lemma EndToEnd(r: Response)
    requires ResponseOk(false, r) && |HeadText(r)| <= MAX_HEADER_SIZE
    ensures var buf := ResponseText(r);
      && (WholeResponse(buf) <==> Fits(r))
      && BodyOf(RunOf(buf).out) == BodyBytes(r.body)
      && RunOf(buf).m.status == DecimalValue(r.status.status)
  {
    hide Run, CutAll, Callbacks, BodyOf, ResponseText, Fits, WholeCalls, Accepted;
    CallsOfResponse(r);
    CallsTaken(r);
    BodyOfWhole(r);
    BodyDelivered(ResponseText(r));
    hide CallsOf, RunOf;
  }
}
