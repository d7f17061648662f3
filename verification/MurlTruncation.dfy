/**
 What murl makes of a response that is cut off: a proper part of a response is taken for a whole one
 exactly if nothing of it has come, or its body ends with the stream and its head is there. And what
 it takes for success without any message.
 */
module MurlTruncation {
  import opened Octets
  import opened HttpEvents
  import opened HttpMachine
  import opened HttpBody
  import opened HttpCut
  import opened HttpClient
  import opened HttpMarks
  import L = HttpLines
  import opened HttpHead
  import opened HttpMessages
  import opened MurlHttp
  import opened MurlResponses

  /** How many messages have begun. */
  function Begins(t: seq<Event>): nat {
    if t == [] then 0 else Begins(t[..|t|-1]) + if t[|t|-1] == Begin then 1 else 0
  }

  lemma {:induction false} BeginsConcat(a: seq<Event>, b: seq<Event>)
    ensures Begins(a + b) == Begins(a) + Begins(b)
    decreases |b|
  {
    if b == [] {
      assert a + b == a;
    } else {
      assert (a + b)[..|a + b|-1] == a + b[..|b|-1];
      BeginsConcat(a, b[..|b|-1]);
    }
  }

  lemma {:induction false} NoBegins(t: seq<Event>)
    requires Begin !in t
    ensures Begins(t) == 0
    decreases |t|
  {
    if t != [] {
      NoBegins(t[..|t|-1]);
    }
  }

  lemma {:induction false} BlockHasNoBegin(hs: seq<L.Header>)
    ensures Begin !in BlockEvents(hs)
    decreases |hs|
  {
    if hs != [] {
      BlockHasNoBegin(hs[..|hs|-1]);
      LineHasNoBegin(hs[|hs|-1]);
    }
  }

  lemma {:induction false} SinglesNoBegin(k: Kind, s: string)
    ensures Begin !in Singles(k, s)
  {}

  lemma LineHasNoBegin(h: L.Header)
    ensures Begin !in L.LineEvents(h)
  {
    SinglesNoBegin(Field, h.name);
    SinglesNoBegin(Value, h.value);
  }

  lemma {:induction false} ChunksHaveNoBegin(cs: seq<Chunk>)
    ensures Begin !in ChunksEvents(cs)
    decreases |cs|
  {
    if cs != [] {
      ChunksHaveNoBegin(cs[..|cs|-1]);
      SinglesNoBegin(Body, cs[|cs|-1].data);
    }
  }

  lemma BodyHasNoBegin(b: BodyText, m: Machine)
    ensures Begin !in BodyEventsOf(b, m)
  {
    match b
    case NoText =>
    case Sized(bytes) => SinglesNoBegin(Body, bytes);
    case UntilEof(bytes) => SinglesNoBegin(Body, bytes);
    case Coded(cs, _, _, trailer, _) =>
      ChunksHaveNoBegin(cs);
      BlockHasNoBegin(trailer);
  }

  // ----- where a run may rest

  lemma StepAtRest(m: Machine, ch: char)
    requires m.state == StartRes || m.state == Dead
    ensures var r := Step(false, m, ch); r.Live? ==> r.out == [Begin]
  {}

  /** A run that goes on from a rest between messages begins another message. */
  lemma GoesOnAfterRest(text: string, n: nat)
    requires n < |text| && RunOf(text).Live? && RunOf(text[..n]).Live?
    requires RunOf(text[..n]).m.state == StartRes || RunOf(text[..n]).m.state == Dead
    ensures Begins(RunOf(text).out) > Begins(RunOf(text[..n]).out)
  {
    hide Step, Run;
    var before := RunOf(text[..n]);
    assert text[..n + 1] == text[..n] + [text[n]];
    RunSnoc(false, INITIAL, text[..n], text[n]);
    StepAtRest(before.m, text[n]);
    assert text == text[..n + 1] + text[n + 1..];
    RunConcat(false, INITIAL, text[..n + 1], text[n + 1..]);
    var after := RunOf(text[..n + 1]);
    BeginsConcat(before.out, [Begin]);
    BeginsOne();
    OutGrows(false, INITIAL, text, n + 1);
    BeginsPrefix(after.out, RunOf(text).out);
  }

  lemma BeginsOne()
    ensures Begins([Begin]) == 1
  {
    assert [Begin][..0] == [];
  }

  lemma BeginsPrefix(a: seq<Event>, b: seq<Event>)
    requires a <= b
    ensures Begins(a) <= Begins(b)
  {
    assert b == a + b[|a|..];
    BeginsConcat(a, b[|a|..]);
  }

  /** The head of a response, and the whole of it. */
  lemma HeadAndBody(r: Response)
    requires ResponseOk(false, r) && |HeadText(r)| <= MAX_HEADER_SIZE
    ensures var h := RunOf(HeadText(r)); var t := RunOf(ResponseText(r));
      && h.Live? && t.Live? && Begins(t.out) == 1
      && AtBody(false, r, h.m) && h.out != [] && !h.out[|h.out|-1].Data?
      && t.m.state == EndState(false, r)
  {
    hide Step, Run, HeadText, TextOfBody, BlockEvents, ApplyBlock, DecimalValue, AllDigits, Equiv, Norm, Calls,
         BodyEventsOf, Begins;
    ResponseRun(false, INITIAL, r);
    HeadRun(false, INITIAL, r);
    var h := Run(false, INITIAL, HeadText(r));
    BodyRun(false, h.m, r);
    var b := Run(false, h.m, TextOfBody(r.body));
    L.Chain(false, INITIAL, HeadText(r), h.m, h.out, TextOfBody(r.body), b.m, b.out);
    var f := FramingOf(false, HeadMeaning(false, r), Persistent(r.status, HeadMeaning(false, r).flags));
    BeginsOne();
    BlockHasNoBegin(r.headers);
    NoBegins(BlockEvents(r.headers));
    NoBegins(HeadEvents(h.m, f));
    BeginsConcat([Begin], BlockEvents(r.headers));
    BeginsConcat([Begin] + BlockEvents(r.headers), HeadEvents(h.m, f));
    BodyHasNoBegin(r.body, b.m);
    NoBegins(BodyEventsOf(r.body, b.m));
    BeginsConcat(h.out, b.out);
  }

  /** The first byte of a response begins its message. */
  lemma FirstBegins(text: string, n: nat)
    requires 0 < n <= |text| && text[0] == 'H' && RunOf(text[..n]).Live?
    ensures Begins(RunOf(text[..n]).out) >= 1
  {
    hide Step, Run;
    FirstByte(false, INITIAL);
    assert text[..n] == "H" + text[1..n];
    RunConcat(false, INITIAL, "H", text[1..n]);
    assert text[..n][..1] == "H";
    OutGrows(false, INITIAL, text[..n], 1);
    BeginsOne();
    BeginsPrefix([Begin], RunOf(text[..n]).out);
  }

  /** Once the body goes on to the end of the stream, every byte is body. */
  lemma EofGoesOn(text: string, n: nat, k: nat)
    requires n <= k <= |text| && RunOf(text[..n]).Live? && RunOf(text[..n]).m.state == BodyIdentityEof
    ensures RunOf(text[..k]) == Live(RunOf(text[..n]).m, RunOf(text[..n]).out + Singles(Body, text[n..k]))
  {
    hide Step, Run;
    assert text[..k] == text[..n] + text[n..k];
    RunConcat(false, INITIAL, text[..n], text[n..k]);
    EofRun(false, RunOf(text[..n]).m, text[n..k]);
  }

  /** Where the stream may end inside a response: before it, or in a body that ends with the stream. */
  predicate MayEndAt(r: Response, n: nat) { n == 0 || (r.body.UntilEof? && n >= |HeadText(r)|) }

  /** A proper part of a response leaves the parser at rest exactly where the stream may end. */
  lemma RestInside(r: Response, n: nat)
    requires ResponseOk(false, r) && |HeadText(r)| <= MAX_HEADER_SIZE && n < |ResponseText(r)|
    ensures var p := RunOf(ResponseText(r)[..n]); p.Live? && (AtRest(p.m.state) <==> MayEndAt(r, n))
  {
    hide RunOf, HeadText, TextOfBody, ResponseOk;
    if n == 0 {
      EmptyBuffer();
      assert ResponseText(r)[..0] == "";
    } else {
      RestAfterStart(r, n);
    }
  }

  lemma RestAfterStart(r: Response, n: nat)
    requires ResponseOk(false, r) && |HeadText(r)| <= MAX_HEADER_SIZE && 0 < n < |ResponseText(r)|
    ensures var p := RunOf(ResponseText(r)[..n]); p.Live? && (AtRest(p.m.state) <==> MayEndAt(r, n))
  {
    hide Run, HeadText, TextOfBody, HeadOk, BodyOk, AtBody, Begins;
    var text, head := ResponseText(r), HeadText(r);
    HeadAndBody(r);
    TextStarts(r);
    assert text[..|text|] == text && text[..|head|] == head;
    LiveBefore(false, INITIAL, text, n, |text|);
    var p := RunOf(text[..n]);
    FirstBegins(text, n);
    if p.m.state == StartRes || p.m.state == Dead {
      GoesOnAfterRest(text, n);
    } else if p.m.state == BodyIdentityEof {
      EofGoesOn(text, n, |text|);
      EndsWithStream(r);
      if n < |head| {
        EofGoesOn(text, n, |head|);
        EndsInData(p.out, text[n..|head|]);
      }
    } else if r.body.UntilEof? && n >= |head| {
      EofAfterHead(r);
      EofGoesOn(text, |head|, n);
    }
  }

  lemma EndsInData(out: seq<Event>, s: string)
    requires s != []
    ensures var t := out + Singles(Body, s); t[|t|-1].Data?
  {}

  lemma TextStarts(r: Response)
    ensures ResponseText(r) != [] && ResponseText(r)[0] == 'H' && HeadText(r) <= ResponseText(r)
  {}

  lemma EndsWithStream(r: Response)
    requires ResponseOk(false, r)
    ensures EndState(false, r) == BodyIdentityEof <==> r.body.UntilEof?
  {
    hide HeadOk, BodyOk, FinalMeaning;
  }

  lemma EofAfterHead(r: Response)
    requires ResponseOk(false, r) && |HeadText(r)| <= MAX_HEADER_SIZE && r.body.UntilEof?
    ensures RunOf(HeadText(r)).Live? && RunOf(HeadText(r)).m.state == BodyIdentityEof
  {
    hide Run, Begins, HeadText, ResponseText, EndState;
    HeadAndBody(r);
  }

  /** No proper part of a response passes for a whole one anywhere else. */
  lemma TruncatedIsNotWhole(r: Response, n: nat)
    requires ResponseOk(false, r) && |HeadText(r)| <= MAX_HEADER_SIZE && n < |ResponseText(r)|
    requires WholeResponse(ResponseText(r)[..n])
    ensures MayEndAt(r, n)
  {
    hide RunOf, CallsOf, Accepted, ResponseOk, HeadText, ResponseText;
    RestInside(r, n);
  }

  // ----- the flush of a truncated response

  /** A pile only grows until it is closed. */
  lemma {:induction false} OpenGrows(c: Cut, k: Kind, b: string, es: seq<Event>) returns (more: string)
    requires c.Valid() && c.open == [Data(k, b)]
    ensures b <= more && CutAll(c, es).Valid()
    ensures var d := CutAll(c, es);
      (d.done == c.done && d.open == [Data(k, more)]) || c.done + [Data(k, more)] <= d.done
    decreases |es|
  {
    if es == [] {
      more := b;
    } else {
      var init, e := es[..|es|-1], es[|es|-1];
      assert es == init + [e];
      more := OpenGrows(c, k, b, init);
      CutSnoc(c, init, e);
      var d := CutAll(c, init);
      if d.done == c.done && d.open == [Data(k, more)] && e.Data? && e.kind == k && e.bytes != [] {
        more := more + e.bytes;
      }
    }
  }

  /** The piece that a truncated run would flush is the beginning of a callback of the whole run. */
  lemma CutOff(text: string, n: nat, init: seq<Event>, k: Kind, b: string) returns (more: string)
    requires n <= |text| && RunOf(text).Live? && RunOf(text[..n]).Live? && b != []
    requires CutAll(NOTHING, RunOf(text[..n]).out) == Cut(init, [Data(k, b)])
    ensures b <= more && init + [Data(k, more)] <= CallsOf(text)
  {
    hide Run, CutAll;
    assert text == text[..n] + text[n..];
    RunConcat(false, INITIAL, text[..n], text[n..]);
    OutGrows(false, INITIAL, text, n);
    var out, all := RunOf(text[..n]).out, RunOf(text).out;
    assert all == out + all[|out|..];
    CutConcat(NOTHING, out, all[|out|..]);
    more := OpenGrows(Cut(init, [Data(k, b)]), k, b, all[|out|..]);
  }

  lemma LastIsOpen(text: string)
    requires text != [] && RunOf(text).Live? && Marking(RunOf(text).m.state)
    ensures var c := CutAll(NOTHING, RunOf(text).out);
      && |c.open| == 1 && c.open[0].Data? && c.open[0].bytes != [] && CallsOf(text) == c.done + c.open
  {
    hide Run, CutAll;
    MarkingOpens(false, INITIAL, text);
    CutGrows(NOTHING, RunOf(text).out);
  }

  /** A smaller piece of a header is taken if a larger one is. */
  lemma SmallerTaken(init: seq<Event>, k: Kind, b: string, more: string)
    requires b <= more && k != Body && Accepted(Deliver, EMPTY_MSG, init + [Data(k, more)])
    ensures TakesElement(Assembled(init), b)
  {
    AssembledSnoc(init, Data(k, more));
    hide Accepted, Fold, Assembled;
  }

  /** If murl takes all callbacks of a buffer, no beginning of it is lost in a flush. */
  lemma NoLostFlush(text: string, n: nat)
    requires n <= |text| && RunOf(text).Live? && Accepted(Deliver, EMPTY_MSG, CallsOf(text))
    ensures !LostFlush(text[..n])
  {
    hide RunOf, CallsOf, Accepted, Assembled, TakesElement, CutAll;
    var part := text[..n];
    LostFlushGuard(part);
    if LostFlush(part) {
      NotEmptyPart(part);
      LastIsOpen(part);
      var c := CutAll(NOTHING, RunOf(part).out);
      var e := c.open[0];
      assert c.open == [e] && CallsOf(part)[..|CallsOf(part)|-1] == c.done;
      var more := CutOff(text, n, c.done, e.kind, e.bytes);
      AcceptedPrefix(Deliver, EMPTY_MSG, c.done + [Data(e.kind, more)], CallsOf(text));
      SmallerTaken(c.done, e.kind, e.bytes, more);
      assert false;
    }
  }

  lemma NotEmptyPart(part: string)
    requires RunOf(part).Live? && Marking(RunOf(part).m.state)
    ensures part != []
  {
    RunEmpty(false, INITIAL);
  }

  /** The same response, its body cut short by the end of the stream. */
  lemma ShorterBody(r: Response, n: nat)
    requires ResponseOk(false, r) && |HeadText(r)| <= MAX_HEADER_SIZE && r.body.UntilEof? && Fits(r)
    requires |HeadText(r)| <= n <= |ResponseText(r)|
    ensures WholeResponse(ResponseText(r)[..n])
  {
    hide HeadText, WholeResponse, HeadersFit, DecimalValue, AllDigits, ApplyBlock, StatusLineOk, L.HeaderOk, Persistent;
    var s := r.(body := UntilEof(r.body.bytes[..n - |HeadText(r)|]));
    SameHead(r, s);
    assert ResponseText(s) == ResponseText(r)[..n];
    assert Fits(s);
    EndToEnd(s);
  }

  lemma SameHead(r: Response, s: Response)
    requires ResponseOk(false, r) && r.body.UntilEof? && s == r.(body := s.body) && s.body.UntilEof?
    ensures ResponseOk(false, s) && HeadText(s) == HeadText(r) && HeadMeaning(false, s) == HeadMeaning(false, r)
    ensures FinalMeaning(false, s) == FinalMeaning(false, r)
  {
    hide ApplyBlock, StatusLineOk, L.HeaderOk, Persistent;
  }

  /** What murl returns for a proper part of a response that it would take as a whole. */
  lemma TruncatedReturn(r: Response, n: nat)
    requires ResponseOk(false, r) && |HeadText(r)| <= MAX_HEADER_SIZE && Fits(r) && n < |ResponseText(r)|
    ensures GoodReturn(ResponseText(r)[..n]) <==> n == 0 || (r.body.UntilEof? && n >= |HeadText(r)|)
  {
    hide RunOf, CallsOf, Accepted, LostFlush, HeadText, ResponseText, ResponseOk, Fits, WholeResponse;
    var text := ResponseText(r);
    EndToEnd(r);
    WholeTaken(text);
    NoLostFlush(text, n);
    if n == 0 {
      assert text[..0] == "";
      EmptyIsWhole();
    } else if r.body.UntilEof? && n >= |HeadText(r)| {
      ShorterBody(r, n);
    }
    if WholeResponse(text[..n]) {
      TruncatedIsNotWhole(r, n);
    }
  }

  lemma EmptyIsWhole()
    ensures WholeResponse("")
  {
    EmptyBuffer();
    NothingRefuses();
    hide RunOf, CallsOf, Accepted;
  }

  lemma WholeTaken(text: string)
    requires WholeResponse(text)
    ensures RunOf(text).Live? && Accepted(Deliver, EMPTY_MSG, CallsOf(text))
  {}

  // ----- success without a message

  /** Line ends only, and no more of them than a header may have bytes; the empty buffer is one. */
  predicate Blank(buf: string) {
    |buf| <= MAX_HEADER_SIZE && forall i :: 0 <= i < |buf| ==> buf[i] == CR || buf[i] == LF
  }

  function BlankMachine(n: nat): Machine {
    if n == 0 then INITIAL else INITIAL.(nread := n, contentLength := -1)
  }

  /** A first byte: only a line end leaves the parser where it was. */
  lemma BlankStep(n: nat, ch: char)
    ensures var r := Step(false, BlankMachine(n), ch);
      && (r.Live? && AtRest(r.m.state) <==> n < MAX_HEADER_SIZE && (ch == CR || ch == LF))
      && (r.Live? && AtRest(r.m.state) ==> r.m == BlankMachine(n + 1) && r.out == [Begin])
  {}

  lemma {:induction false} BlankRun(buf: string)
    requires Blank(buf)
    ensures RunOf(buf).Live? && RunOf(buf).m == BlankMachine(|buf|)
    ensures forall e :: e in RunOf(buf).out ==> e == Begin
    decreases |buf|
  {
    hide Step, Run;
    if buf == [] {
      RunEmpty(false, INITIAL);
    } else {
      var init, ch := buf[..|buf|-1], buf[|buf|-1];
      assert buf == init + [ch];
      BlankRun(init);
      RunSnoc(false, INITIAL, init, ch);
      BlankStep(|init|, ch);
    }
  }

  /** A message on its way comes to rest only with its head or its end. */
  lemma BodyByteEnds(m: Machine, ch: char)
    requires m.BulkState() && !AtRest(m.state)
    ensures var r := BodyByte(m, ch); r.Live? && AtRest(r.m.state) ==> r.out != [] && IsEnd(r.out[|r.out|-1])
  {}

  lemma BlockEndNotes(m: Machine, ch: char)
    ensures var v := BlockEnd(false, m, ch); v.Next? ==>
      v.op.Notify? && v.op.events != [] && var e := v.op.events[|v.op.events|-1]; IsHead(e) || IsEnd(e)
  {}

  lemma ChunkCharGoesOn(m: Machine, ch: char)
    ensures var v := ChunkChar(m, ch); v.Next? ==> !AtRest(v.m.state)
  {}

  lemma NameGoesOn(m: Machine, ch: char)
    requires m.state == HeaderField
    ensures var v := FieldChar(m, ch); v.Next? ==> !AtRest(v.m.state)
  {
    hide Token;
  }

  lemma ValueGoesOn(m: Machine, ch: char)
    requires m.state == HeaderValue
    ensures var v := ValueChar(m, ch); v.Next? ==> !AtRest(v.m.state)
  {
    hide OrBit5;
  }

  /** In the status line and inside the lines of a header the parser is never at rest. */
  lemma LineGoesOn(m: Machine, ch: char)
    requires !AtRest(m.state) && !m.BulkState()
    requires m.state != HeaderFieldStart && m.state != HeadersAlmostDone
    ensures var v := Switch(false, m, ch); v.Next? ==> !AtRest(v.m.state)
  {
    hide FieldChar, ValueChar, ChunkChar, BlockEnd, FieldStart, StartLine, OrBit5;
    var n := Counted(m);
    ChunkCharGoesOn(n, ch);
    if m.state == HeaderField {
      NameGoesOn(n, ch);
    } else if m.state == HeaderValue {
      ValueGoesOn(n, ch);
    }
  }

  lemma BlockStepEnds(m: Machine, ch: char)
    requires m.state == HeaderFieldStart || m.state == HeadersAlmostDone
    ensures var v := Switch(false, m, ch); v.Next? && AtRest(v.m.state) ==>
      v.op.Notify? && v.op.events != [] && var e := v.op.events[|v.op.events|-1]; IsHead(e) || IsEnd(e)
  {
    hide BlockEnd, Token;
    var n := Counted(m);
    BlockEndNotes(n, ch);
    BlockEndNotes(n.(state := HeadersAlmostDone), ch);
  }

  lemma StepQuiet(m: Machine, ch: char)
    requires !AtRest(m.state) && Step(false, m, ch).Live?
    requires forall e :: e in Step(false, m, ch).out ==> !IsHead(e) && !IsEnd(e)
    ensures !AtRest(Step(false, m, ch).m.state)
  {
    hide Switch, BodyByte;
    if m.BulkState() {
      BodyByteEnds(m, ch);
    } else if m.state == HeaderFieldStart || m.state == HeadersAlmostDone {
      BlockStepEnds(m, ch);
    } else {
      LineGoesOn(m, ch);
    }
  }

  /** If nothing is ever completed, the parser rests only while it has seen nothing but line ends. */
  lemma {:induction false} QuietRun(buf: string)
    requires RunOf(buf).Live? && AtRest(RunOf(buf).m.state)
    requires forall e :: e in RunOf(buf).out ==> !IsHead(e) && !IsEnd(e)
    ensures Blank(buf)
    decreases |buf|
  {
    hide Step, Run;
    if buf != [] {
      var init, ch := buf[..|buf|-1], buf[|buf|-1];
      assert buf == init + [ch];
      RunSnoc(false, INITIAL, init, ch);
      var p := RunOf(init);
      var s := Step(false, p.m, ch);
      assert RunOf(buf).out == p.out + s.out;
      if AtRest(p.m.state) {
        QuietRun(init);
        BlankRun(init);
        BlankStep(|init|, ch);
      } else {
        StepQuiet(p.m, ch);
      }
    }
  }

  /** Cutting data into callbacks drops no other event. */
  lemma {:induction false} NotesKept(es: seq<Event>, e: Event)
    requires e in es && !e.Data?
    ensures e in CutAll(NOTHING, es).Whole()
    decreases |es|
  {
    var init, last := es[..|es|-1], es[|es|-1];
    assert es == init + [last];
    CutGrows(NOTHING, init);
    if e in init {
      NotesKept(init, e);
    }
    hide CutAll;
    CutSnoc(NOTHING, init, last);
  }

  lemma {:induction false} NoneOf(t: seq<Event>)
    requires Heads(t) == 0 && Ends(t) == 0
    ensures forall e :: e in t ==> !IsHead(e) && !IsEnd(e)
    decreases |t|
  {
    if t != [] {
      NoneOf(t[..|t|-1]);
      assert t == t[..|t|-1] + [t[|t|-1]];
    }
  }

  lemma BeginIsTaken(m: Msg)
    ensures Deliver(m, Begin).1
  {}

  lemma {:induction false} BeginsTaken(t: seq<Event>)
    requires forall e :: e in t ==> e == Begin
    ensures Accepted(Deliver, EMPTY_MSG, t) && Heads(t) == 0
    decreases |t|
  {
    hide Deliver;
    if t != [] {
      var init, last := t[..|t|-1], t[|t|-1];
      assert t == init + [last];
      assert last in t && forall e :: e in init ==> e in t;
      BeginsTaken(init);
      BeginIsTaken(Assembled(init));
    }
  }

  lemma BlankIsWhole(buf: string)
    requires Blank(buf)
    ensures WholeResponse(buf) && Heads(CallsOf(buf)) == 0
  {
    hide Run, CutAll, Accepted, Heads;
    BlankRun(buf);
    CutNotes(NOTHING, RunOf(buf).out);
    assert CallsOf(buf) == RunOf(buf).out;
    BeginsTaken(CallsOf(buf));
  }

  lemma CountsWithLast(t: seq<Event>, e: Event)
    ensures Heads(t + [e]) == Heads(t) + (if IsHead(e) then 1 else 0)
    ensures Ends(t + [e]) == Ends(t) + if IsEnd(e) then 1 else 0
  {
    assert (t + [e])[..|t + [e]| - 1] == t;
  }

  lemma WholeIsBlank(buf: string)
    requires WholeResponse(buf) && Heads(CallsOf(buf)) == 0
    ensures Blank(buf)
  {
    hide Run, CutAll, Accepted, Heads, Ends, Blank;
    var r := RunOf(buf);
    CompleteMessages(buf);
    CountsWithLast(CallsOf(buf), r.m.Completion());
    assert CallsOf(buf) + [] == CallsOf(buf);
    NoneOf(CallsOf(buf));
    forall e | e in r.out
      ensures !IsHead(e) && !IsEnd(e)
    {
      if !e.Data? {
        NotesKept(r.out, e);
      }
    }
    QuietRun(buf);
  }

  /**
   When murl reports success although no header block was completed: for nothing but line ends, or when
   the piece cut off by the end of the buffer is refused.
   */
  lemma NothingReceived(buf: string)
    ensures GoodReturn(buf) && Heads(CallsOf(buf)) == 0 <==>
      Blank(buf) || (LostFlush(buf) && Heads(CallsOf(buf)) == 0)
  {
    hide RunOf, CallsOf, LostFlush, Blank, Heads, WholeResponse;
    if Blank(buf) {
      BlankIsWhole(buf);
    }
    if WholeResponse(buf) && Heads(CallsOf(buf)) == 0 {
      WholeIsBlank(buf);
    }
  }
}
