/**
 murl's use of the parser: the callbacks that assemble a message, and the driver that hands the
 parser one buffer and then the end of the stream.
 */
module MurlHttp {
  import opened Octets
  import opened HttpEvents
  import opened HttpMachine
  import opened HttpCut
  import opened HttpClient
  import opened HttpMarks
  import opened HttpParser
  import opened HttpSplit
  import opened Options

  const MAX_HEADERS: nat := 64
  const MAX_ELEMENT_SIZE: nat := 64 * 1024
  const MAX_BODY_SIZE: nat := 64 * 1024 * 1024

  datatype Element = NoElement | FieldElement | ValueElement

  /** `struct message`; `headers` holds the slots in use, so its length is num_headers. */
  datatype Msg = Msg(headers: seq<(string, string)>, last: Element, body: string, bodySize: nat,
                     shouldKeepAlive: bool, major: nat, minor: nat, status: nat,
                     begun: bool, headersComplete: bool, messageComplete: bool)

  const EMPTY_MSG := Msg([], NoElement, [], 0, false, 0, 0, 0, false, false, false)

  /** header_field_cb and header_value_cb refuse oversized pieces and a full table. */
  predicate TakesElement(m: Msg, s: string) {
    |s| <= MAX_ELEMENT_SIZE && |m.headers| < MAX_HEADERS
  }

  /** The message after one callback, and whether the callback answers 0. */
  function Deliver(m: Msg, e: Event): (Msg, bool) {
    match e
    case Begin => (m.(begun := true), true)
    case Data(Field, s) =>
      if !TakesElement(m, s) then (m, false)
      else
        var hs := if m.last != FieldElement then m.headers + [("", "")] else m.headers;
        (AppendField(m.(headers := hs), s), true)
    case Data(Value, s) =>
      if !TakesElement(m, s) then (m, false) else (AppendValue(m, s), true)
    case Data(Body, s) =>
      if m.bodySize + |s| >= MAX_BODY_SIZE then (m, false)
      else (m.(body := m.body + s, bodySize := m.bodySize + |s|), true)
    case HeadersComplete(major, minor, status, keepAlive) =>
      (m.(major := major, minor := minor, status := status, headersComplete := true,
          shouldKeepAlive := keepAlive), true)
    case MessageComplete(keepAlive) =>
      if m.shouldKeepAlive != keepAlive then (m, false) else (m.(messageComplete := true), true)
  }

  /** strncat to the name in the last slot in use. */
  function AppendField(m: Msg, s: string): Msg {
    var n := |m.headers|;
    m.(last := FieldElement,
       headers := if n == 0 then [] else m.headers[n-1 := (m.headers[n-1].0 + s, m.headers[n-1].1)])
  }

  /** strncat to the value in the last slot in use; the protocol puts a name before every value. */
  function AppendValue(m: Msg, s: string): Msg {
    var n := |m.headers|;
    m.(last := ValueElement,
       headers := if n == 0 then [] else m.headers[n-1 := (m.headers[n-1].0, m.headers[n-1].1 + s)])
  }

  // ----- header table assembly

  /** The message that a trace makes, when every callback is taken. */
  function Assembled(t: seq<Event>): Msg { Fold(Deliver, EMPTY_MSG, t) }

  lemma AppendFieldTwice(m: Msg, x: string, y: string)
    ensures AppendField(AppendField(m, x), y) == AppendField(m, x + y)
  {
    var n := |m.headers|;
    if n > 0 {
      assert m.headers[n-1].0 + x + y == m.headers[n-1].0 + (x + y);
      assert AppendField(AppendField(m, x), y).headers == AppendField(m, x + y).headers;
    }
  }

  lemma AppendValueTwice(m: Msg, x: string, y: string)
    ensures AppendValue(AppendValue(m, x), y) == AppendValue(m, x + y)
  {
    var n := |m.headers|;
    if n > 0 {
      assert m.headers[n-1].1 + x + y == m.headers[n-1].1 + (x + y);
      assert AppendValue(AppendValue(m, x), y).headers == AppendValue(m, x + y).headers;
    }
  }

  /** Two pieces of one field, value or body make the same message as the joined piece. */
  lemma DeliverSplit(m: Msg, k: Kind, x: string, y: string)
    requires Deliver(m, Data(k, x)).1 && Deliver(Deliver(m, Data(k, x)).0, Data(k, y)).1
    requires |x| + |y| <= MAX_ELEMENT_SIZE || k == Body
    ensures Deliver(m, Data(k, x + y)) == (Deliver(Deliver(m, Data(k, x)).0, Data(k, y)).0, true)
  {
    match k
    case Body =>
      assert m.body + x + y == m.body + (x + y);
    case Field =>
      var m1 := m.(headers := if m.last != FieldElement then m.headers + [("", "")] else m.headers);
      AppendFieldTwice(m1, x, y);
      assert AppendField(m1, x).last == FieldElement;
      hide AppendField;
    case Value =>
      AppendValueTwice(m, x, y);
      hide AppendValue;
  }

  lemma AssembledSnoc(t: seq<Event>, e: Event)
    ensures Assembled(t + [e]) == Deliver(Assembled(t), e).0
    ensures Accepted(Deliver, EMPTY_MSG, t + [e]) <==>
      Accepted(Deliver, EMPTY_MSG, t) && (IsBody(e) || Deliver(Assembled(t), e).1)
  {
    FoldSnoc(Deliver, EMPTY_MSG, t, e);
  }

  /** The kind of the last header fragment. */
  function LastElement(t: seq<Event>): Element {
    if t == [] then NoElement
    else if t[|t|-1].Data? && t[|t|-1].kind == Field then FieldElement
    else if t[|t|-1].Data? && t[|t|-1].kind == Value then ValueElement
    else LastElement(t[..|t|-1])
  }

  /** Field fragments that do not follow a field fragment: each starts a new header. */
  function Starts(t: seq<Event>): nat {
    if t == [] then 0
    else
      var init, e := t[..|t|-1], t[|t|-1];
      Starts(init) + if e.Data? && e.kind == Field && LastElement(init) != FieldElement then 1 else 0
  }

  /** The fragments of one kind between the start of header i and the start of the next. */
  function Fragments(t: seq<Event>, k: Kind, i: nat): string {
    if t == [] then ""
    else
      var e := t[|t|-1];
      Fragments(t[..|t|-1], k, i) + if e.Data? && e.kind == k && Starts(t) == i + 1 then e.bytes else ""
  }

  /** Slots in use are counted by starts, and slot i holds the fragments of header i. */
  ghost predicate TableOf(m: Msg, t: seq<Event>) {
    && |m.headers| == Starts(t) && m.last == LastElement(t)
    && forall i: nat :: i < Starts(t) ==> m.headers[i] == (Fragments(t, Field, i), Fragments(t, Value, i))
  }

  /** No fragment belongs to a header that has not started. */
  lemma {:induction false} NoFragments(t: seq<Event>, k: Kind, i: nat)
    requires i >= Starts(t)
    ensures Fragments(t, k, i) == ""
    decreases |t|
  {
    if t != [] {
      NoFragments(t[..|t|-1], k, i);
    }
  }

  lemma {:induction false} HeaderTable(t: seq<Event>)
    requires Accepted(Deliver, EMPTY_MSG, t)
    ensures TableOf(Assembled(t), t)
    decreases |t|
  {
    if t != [] {
      var init, e := t[..|t|-1], t[|t|-1];
      assert t == init + [e];
      HeaderTable(init);
      AssembledSnoc(init, e);
      NoFragments(init, Field, Starts(init));
      NoFragments(init, Value, Starts(init));
      TableSnoc(Assembled(init), init, e);
    }
  }

  lemma FragmentsSnoc(t: seq<Event>, e: Event, k: Kind, i: nat)
    ensures Fragments(t + [e], k, i)
      == Fragments(t, k, i) + if e.Data? && e.kind == k && Starts(t + [e]) == i + 1 then e.bytes else ""
    ensures Starts(t + [e]) == Starts(t) + if e.Data? && e.kind == Field && LastElement(t) != FieldElement then 1 else 0
  {
    assert (t + [e])[..|t + [e]|-1] == t;
  }

  lemma LastSnoc(t: seq<Event>, e: Event)
    ensures LastElement(t + [e])
      == if e.Data? && e.kind == Field then FieldElement
         else if e.Data? && e.kind == Value then ValueElement else LastElement(t)
  {
    assert (t + [e])[..|t + [e]|-1] == t;
  }

  lemma FragmentsOther(t: seq<Event>, e: Event, k: Kind, i: nat)
    requires !e.Data? || e.kind != k
    ensures Fragments(t + [e], k, i) == Fragments(t, k, i)
  {
    hide Fragments, Starts, LastElement;
    FragmentsSnoc(t, e, k, i);
    assert Fragments(t, k, i) + "" == Fragments(t, k, i);
  }

  lemma TableField(m: Msg, t: seq<Event>, s: string)
    requires TableOf(m, t) && TakesElement(m, s)
    requires Fragments(t, Field, Starts(t)) == Fragments(t, Value, Starts(t)) == ""
    ensures TableOf(Deliver(m, Data(Field, s)).0, t + [Data(Field, s)])
  {
    hide Fragments, Starts, LastElement;
    var e := Data(Field, s);
    LastSnoc(t, e);
    FragmentsSnoc(t, e, Field, 0);
    assert "" + s == s;
    forall i: nat | i < Starts(t + [e])
      ensures Deliver(m, e).0.headers[i] == (Fragments(t + [e], Field, i), Fragments(t + [e], Value, i))
    {
      FragmentsSnoc(t, e, Field, i);
      FragmentsOther(t, e, Value, i);
      assert Fragments(t, Field, i) + "" == Fragments(t, Field, i);
    }
  }

  lemma TableValue(m: Msg, t: seq<Event>, s: string)
    requires TableOf(m, t) && TakesElement(m, s)
    ensures TableOf(Deliver(m, Data(Value, s)).0, t + [Data(Value, s)])
  {
    hide Fragments, Starts, LastElement;
    var e := Data(Value, s);
    LastSnoc(t, e);
    FragmentsSnoc(t, e, Value, 0);
    forall i: nat | i < Starts(t + [e])
      ensures Deliver(m, e).0.headers[i] == (Fragments(t + [e], Field, i), Fragments(t + [e], Value, i))
    {
      FragmentsSnoc(t, e, Value, i);
      FragmentsOther(t, e, Field, i);
      assert Fragments(t, Value, i) + "" == Fragments(t, Value, i);
    }
  }

  lemma TableSnoc(m: Msg, t: seq<Event>, e: Event)
    requires TableOf(m, t) && (IsBody(e) || Deliver(m, e).1)
    requires Fragments(t, Field, Starts(t)) == Fragments(t, Value, Starts(t)) == ""
    ensures TableOf(Deliver(m, e).0, t + [e])
  {
    hide Fragments, Starts, LastElement;
    if e.Data? && e.kind == Field {
      TableField(m, t, e.bytes);
    } else if e.Data? && e.kind == Value {
      TableValue(m, t, e.bytes);
    } else {
      LastSnoc(t, e);
      FragmentsSnoc(t, e, Field, 0);
      assert Deliver(m, e).0.headers == m.headers && Deliver(m, e).0.last == m.last;
      forall i: nat | i < Starts(t + [e])
        ensures m.headers[i] == (Fragments(t + [e], Field, i), Fragments(t + [e], Value, i))
      {
        FragmentsOther(t, e, Field, i);
        FragmentsOther(t, e, Value, i);
      }
    }
  }

  // ----- the body

  /** All body bytes of a trace, in order. */
  function BodyOf(t: seq<Event>): string {
    if t == [] then []
    else BodyOf(t[..|t|-1]) + if IsBody(t[|t|-1]) then t[|t|-1].bytes else []
  }

  lemma BodySnoc(t: seq<Event>, e: Event)
    ensures BodyOf(t + [e]) == BodyOf(t) + if IsBody(e) then e.bytes else []
  {
    assert (t + [e])[..|t + [e]|-1] == t;
  }

  lemma {:induction false} BodyConcat(a: seq<Event>, b: seq<Event>)
    ensures BodyOf(a + b) == BodyOf(a) + BodyOf(b)
    decreases |b|
  {
    if b == [] {
      assert a + b == a;
    } else {
      var b1, e := b[..|b|-1], b[|b|-1];
      assert b == b1 + [e] && a + b == (a + b1) + [e];
      BodyConcat(a, b1);
      BodySnoc(a + b1, e);
      BodySnoc(b1, e);
    }
  }

  /** Cutting data into callbacks neither loses nor invents a body byte. */
  lemma {:induction false} BodyOfCut(es: seq<Event>)
    ensures BodyOf(CutAll(NOTHING, es).Whole()) == BodyOf(es) && CutAll(NOTHING, es).Valid()
    decreases |es|
  {
    CutGrows(NOTHING, es);
    if es != [] {
      var init, e := es[..|es|-1], es[|es|-1];
      assert es == init + [e];
      BodyOfCut(init);
      CutSnoc(NOTHING, init, e);
      BodySnoc(init, e);
      BodyOfCutOne(CutAll(NOTHING, init), e);
    }
  }

  lemma BodyOfCutOne(c: Cut, e: Event)
    requires c.Valid()
    ensures BodyOf(CutOne(c, e).Whole()) == BodyOf(c.Whole()) + if IsBody(e) then e.bytes else []
  {
    hide BodyOf;
    if e.Data? && c.open != [] && c.open[0].kind == e.kind {
      assert c.open == [c.open[0]];
      BodySnoc(c.done, c.open[0]);
      if e.bytes == [] {
        assert CutOne(c, e).Whole() == c.Whole();
      } else {
        BodySnoc(c.done, Data(e.kind, c.open[0].bytes + e.bytes));
      }
    } else {
      assert CutOne(c, e).Whole() == c.Whole() + [e];
      BodySnoc(c.Whole(), e);
    }
  }

  /** A run delivers at most as many body bytes as it consumes. */
  lemma {:induction false} BodyFits(skip: bool, m: Machine, data: string)
    ensures |BodyOf(Run(skip, m, data).out)| <= |data|
    decreases |data|
  {
    hide Step, BodyOf;
    if data == [] {
      RunEmpty(skip, m);
      BodyEmpty();
    } else {
      var init, ch := data[..|data|-1], data[|data|-1];
      assert data == init + [ch];
      BodyFits(skip, m, init);
      RunSnoc(skip, m, init, ch);
      var r := Run(skip, m, init);
      if r.Live? {
        StepBody(skip, r.m, ch);
        BodyConcat(r.out, Step(skip, r.m, ch).out);
      }
    }
  }

  lemma BodyEmpty()
    ensures BodyOf([]) == []
  {}

  lemma StepBody(skip: bool, m: Machine, ch: char)
    ensures |BodyOf(Step(skip, m, ch).out)| <= 1
  {
    var out := Step(skip, m, ch).out;
    if m.BulkState() {
      hide Switch;
      var b, z := Data(Body, [ch]), Data(Body, []);
      BodyConcat([b], [z]);
      BodyConcat([b], [m.(contentLength := 0).Completion()]);
    } else {
      SwitchOps(skip, m, ch);
      hide Switch;
      NoBodyData(out);
    }
  }

  lemma {:induction false} NoBodyData(es: seq<Event>)
    requires forall e :: e in es ==> !IsBody(e)
    ensures BodyOf(es) == []
    decreases |es|
  {
    if es != [] {
      NoBodyData(es[..|es|-1]);
    }
  }

  /** With less than MAX_BODY_SIZE bytes of body, the message holds exactly the body delivered. */
  lemma {:induction false} AssembledBody(t: seq<Event>)
    requires |BodyOf(t)| < MAX_BODY_SIZE
    ensures Assembled(t).body == BodyOf(t) && Assembled(t).bodySize == |BodyOf(t)|
    decreases |t|
  {
    if t != [] {
      var init, e := t[..|t|-1], t[|t|-1];
      assert t == init + [e];
      BodySnoc(init, e);
      AssembledBody(init);
      AssembledSnoc(init, e);
      hide BodyOf, AppendField, AppendValue;
    }
  }

  // ----- regrouping

  predicate Small(t: seq<Event>) {
    forall e :: e in t ==> e.Data? && e.kind != Body ==> |e.bytes| <= MAX_ELEMENT_SIZE
  }

  /**
   Regrouping the fragments of a field or value leaves the header table and the whole message
   unchanged: they depend only on the normal form of the trace.
   */
  lemma {:induction false} AssembledNorm(t: seq<Event>)
    requires Accepted(Deliver, EMPTY_MSG, t) && Small(Norm(t)) && |BodyOf(t)| < MAX_BODY_SIZE
    ensures Assembled(Norm(t)) == Assembled(t) && BodyOf(Norm(t)) == BodyOf(t)
    ensures Accepted(Deliver, EMPTY_MSG, Norm(t))
    decreases |t|
  {
    hide Deliver, BodyOf, Assembled, Accepted, Norm;
    if t == [] {
      NormNothing();
    } else {
      var init, e := t[..|t|-1], t[|t|-1];
      assert t == init + [e];
      var u := Norm(init);
      NormSnoc(init, e);
      AssembledSnoc(init, e);
      BodySnoc(init, e);
      AssembledBody(init);
      BodyFitsIn(Assembled(init), e);
      if e.Data? && |u| > 0 && u[|u|-1].Data? && u[|u|-1].kind == e.kind {
        var v, x := u[..|u|-1], u[|u|-1].bytes;
        assert u == v + [Data(e.kind, x)] && e == Data(e.kind, e.bytes);
        assert Norm(t) == v + [Data(e.kind, x + e.bytes)];
        assert Data(e.kind, x + e.bytes) in Norm(t);
        SmallPrefix(v, e.kind, x, e.bytes);
        AssembledNorm(init);
        NormJoined(v, e.kind, x, e.bytes);
      } else {
        assert Norm(t) == u + [e];
        assert Small(u) by {
          forall d | d in u ensures d.Data? && d.kind != Body ==> |d.bytes| <= MAX_ELEMENT_SIZE {
            assert d in Norm(t);
          }
        }
        AssembledNorm(init);
        AssembledSnoc(u, e);
        BodySnoc(u, e);
      }
    }
  }

  lemma NormNothing()
    ensures Norm([]) == []
  {}

  lemma BodyFitsIn(m: Msg, e: Event)
    requires IsBody(e) ==> m.bodySize + |e.bytes| < MAX_BODY_SIZE
    ensures IsBody(e) ==> Deliver(m, e).1
  {}

  lemma SmallPrefix(v: seq<Event>, k: Kind, x: string, y: string)
    requires Small(v + [Data(k, x + y)])
    ensures Small(v + [Data(k, x)])
  {
    var u, w := v + [Data(k, x)], v + [Data(k, x + y)];
    assert Data(k, x + y) in w;
    forall d | d in u
      ensures d.Data? && d.kind != Body ==> |d.bytes| <= MAX_ELEMENT_SIZE
    {
      assert d in v ==> d in w;
    }
  }

  /** Joining the last two pieces of data. */
  lemma NormJoined(v: seq<Event>, k: Kind, x: string, y: string)
    requires Accepted(Deliver, EMPTY_MSG, v + [Data(k, x)])
    requires k != Body ==> |x| + |y| <= MAX_ELEMENT_SIZE
    requires k == Body || Deliver(Assembled(v + [Data(k, x)]), Data(k, y)).1
    requires |BodyOf(v + [Data(k, x)])| + (if k == Body then |y| else 0) < MAX_BODY_SIZE
    ensures Assembled(v + [Data(k, x + y)]) == Deliver(Assembled(v + [Data(k, x)]), Data(k, y)).0
    ensures Accepted(Deliver, EMPTY_MSG, v + [Data(k, x + y)])
    ensures BodyOf(v + [Data(k, x + y)]) == BodyOf(v + [Data(k, x)]) + if k == Body then y else []
  {
    hide Deliver, BodyOf, Assembled, Accepted;
    AssembledSnoc(v, Data(k, x));
    AssembledSnoc(v, Data(k, x + y));
    BodySnoc(v, Data(k, x));
    BodySnoc(v, Data(k, x + y));
    AssembledBody(v);
    BodyFitsIn(Assembled(v), Data(k, x));
    AssembledBody(v + [Data(k, x)]);
    BodyFitsIn(Assembled(v + [Data(k, x)]), Data(k, y));
    DeliverSplit(Assembled(v), k, x, y);
  }

  // ----- the driver

  /** The byte-wise run of a response buffer. */
  function RunOf(buf: string): Result { Run(false, INITIAL, buf) }

  function CallsOf(buf: string): seq<Event> { Callbacks(RunOf(buf)) }

  /** The buffer is consumed, no callback objects, and the stream may end here. */
  predicate WholeResponse(buf: string) {
    RunOf(buf).Live? && AtRest(RunOf(buf).m.state) && Accepted(Deliver, EMPTY_MSG, CallsOf(buf))
  }

  /**
   The buffer ends inside a header field or value, and the callback for that last piece is the
   one that objects. `http_parser_execute` then returns the full length without saving its state.
   */
  predicate LostFlush(buf: string) {
    && RunOf(buf).Live? && Marking(RunOf(buf).m.state)
    && var calls := CallsOf(buf);
       !Accepted(Deliver, EMPTY_MSG, calls) && calls != [] && Accepted(Deliver, EMPTY_MSG, calls[..|calls|-1])
  }

  /** When `murl_http_parse_response` returns 0. */
  predicate GoodReturn(buf: string) { WholeResponse(buf) || LostFlush(buf) }

  /** The callbacks of a whole response, with the one that the end of the stream adds. */
  function AllCallsOf(buf: string): seq<Event> {
    var r := RunOf(buf);
    CallsOf(buf) + if r.Live? && r.m.state == BodyIdentityEof then [r.m.Completion()] else []
  }

  /** If `t` ends with the first refusal, it is the whole list exactly when nothing before its end refuses. */
  lemma FirstRefusalIsLast(t: seq<Event>, all: seq<Event>)
    requires t <= all && t != [] && !Accepted(Deliver, EMPTY_MSG, t)
    requires Accepted(Deliver, EMPTY_MSG, t[..|t|-1])
    ensures all != [] && !Accepted(Deliver, EMPTY_MSG, all)
    ensures t == all <==> Accepted(Deliver, EMPTY_MSG, all[..|all|-1])
  {
    RefusedAll(Deliver, EMPTY_MSG, t, all);
    if t != all {
      assert t <= all[..|all|-1];
      RefusedAll(Deliver, EMPTY_MSG, t, all[..|all|-1]);
    }
  }

  lemma EmptyBuffer()
    ensures RunOf("") == Live(INITIAL, []) && CallsOf("") == []
  {
    RunEmpty(false, INITIAL);
    CutEmpty(NOTHING);
  }

  lemma NoFlush()
    ensures !LostFlush("")
  {
    EmptyBuffer();
  }

  lemma NothingRefuses()
    ensures Accepted(Deliver, EMPTY_MSG, [])
  {}

  lemma BodyDelivered(buf: string)
    ensures |BodyOf(RunOf(buf).out)| <= |buf|
    ensures RunOf(buf).Live? ==> BodyOf(CallsOf(buf)) == BodyOf(RunOf(buf).out)
  {
    hide Run, CutAll, BodyOf;
    BodyFits(false, INITIAL, buf);
    BodyOfCut(RunOf(buf).out);
  }

  // ----- how far a buffer is read

  /** No callback that is complete after `n` bytes is refused. */
  predicate TakenBy(buf: string, n: nat)
    requires n <= |buf|
  {
    Accepted(Deliver, EMPTY_MSG, DoneBy(false, INITIAL, buf, n))
  }

  /** The byte whose callback is the first to be refused, or the end of the buffer. */
  function ReadUpTo(buf: string, k: nat := 0): (n: nat)
    requires k <= |buf|
    ensures k <= n <= |buf|
    decreases |buf| - k
  {
    if k == |buf| || !TakenBy(buf, k + 1) then k else ReadUpTo(buf, k + 1)
  }

  lemma {:induction false} ReadUpToIs(buf: string, k: nat)
    requires k <= |buf|
    ensures var n := ReadUpTo(buf, k);
      (n < |buf| ==> !TakenBy(buf, n + 1)) && forall i :: k < i <= n ==> TakenBy(buf, i)
    decreases |buf| - k
  {
    hide TakenBy;
    if k < |buf| && TakenBy(buf, k + 1) {
      ReadUpToIs(buf, k + 1);
    }
  }

  /** The status that the parser has when it has read so far. */
  function StatusLeft(buf: string): nat { RunOf(buf[..ReadUpTo(buf)]).m.status }

  /** Nothing that calls back changes the status. */
  lemma StepStatus(skip: bool, m: Machine, ch: char)
    ensures var r := Step(skip, m, ch); r.m.status == m.status || r.out == []
  {
    hide FieldChar, ValueStart, ValueChar, ChunkChar, BlockEnd, FieldStart, BodyByte;
    var n := Counted(m);
    if m.BulkState() {
      BodyStatus(m, ch);
    } else {
      HeaderStatus(skip, n, ch);
      NameStatus(n, ch);
      ValueStatus(n, ch);
    }
  }

  lemma BodyStatus(m: Machine, ch: char)
    requires m.BulkState()
    ensures BodyByte(m, ch).m.status == m.status
  {}

  lemma HeaderStatus(skip: bool, m: Machine, ch: char)
    ensures var v := BlockEnd(skip, m, ch); v.m.status == m.status
    ensures var v := FieldStart(skip, m, ch); v.m.status == m.status
    ensures var v := ChunkChar(m, ch); !v.AssertFailed? ==> v.m.status == m.status
  {
    hide Token, Unhex;
  }

  lemma NameStatus(m: Machine, ch: char)
    ensures var v := FieldChar(m, ch); !v.AssertFailed? ==> v.m.status == m.status
  {
    hide Token;
  }

  lemma ValueStatus(m: Machine, ch: char)
    ensures var v := ValueStart(m, ch); v.m.status == m.status
    ensures var v := ValueChar(m, ch); !v.AssertFailed? ==> v.m.status == m.status
  {
    hide OrBit5, ClosedFlags;
  }

  /** The byte that makes a callback leaves the status alone. */
  lemma MadeStatus(buf: string, n: nat, t: seq<Event>)
    requires MadeAt(false, INITIAL, [], buf, n, t)
    ensures RunOf(buf[..n + 1]).m.status == RunOf(buf[..n]).m.status
  {
    hide Step, Run, CutAll;
    var r := RunOf(buf[..n]);
    assert buf[..n + 1] == buf[..n] + [buf[n]];
    RunSnoc(false, INITIAL, buf[..n], buf[n]);
    StepStatus(false, r.m, buf[n]);
    assert r.out + [] == r.out;
    assert [] + DoneBy(false, INITIAL, buf, n) == DoneBy(false, INITIAL, buf, n);
    assert [] + DoneBy(false, INITIAL, buf, n + 1) == DoneBy(false, INITIAL, buf, n + 1);
  }

  lemma TakenBefore(buf: string, n: nat, t: seq<Event>, k: nat)
    requires MadeAt(false, INITIAL, [], buf, n, t) && Accepted(Deliver, EMPTY_MSG, t[..|t|-1]) && k <= n
    ensures TakenBy(buf, k)
  {
    hide Run, Accepted, DoneBy;
    LiveBefore(false, INITIAL, buf, k, n);
    DoneByGrows(false, INITIAL, buf, k, n);
    DonePrefix(buf, n, t);
    AcceptedPrefix(Deliver, EMPTY_MSG, DoneBy(false, INITIAL, buf, k), t[..|t|-1]);
  }

  lemma NotTakenAfter(buf: string, n: nat, t: seq<Event>)
    requires MadeAt(false, INITIAL, [], buf, n, t) && !Accepted(Deliver, EMPTY_MSG, t)
    ensures !TakenBy(buf, n + 1)
  {
    hide Run, Accepted, DoneBy;
    assert [] + DoneBy(false, INITIAL, buf, n + 1) == DoneBy(false, INITIAL, buf, n + 1);
    RefusedAll(Deliver, EMPTY_MSG, t, DoneBy(false, INITIAL, buf, n + 1));
  }

  /** The byte that makes the first refused callback is where reading ends. */
  lemma MadeReadUpTo(buf: string, n: nat, t: seq<Event>)
    requires MadeAt(false, INITIAL, [], buf, n, t)
    requires t != [] && !Accepted(Deliver, EMPTY_MSG, t) && Accepted(Deliver, EMPTY_MSG, t[..|t|-1])
    ensures ReadUpTo(buf) == n
  {
    hide Run, Accepted, DoneBy, TakenBy, ReadUpTo;
    var k := ReadUpTo(buf);
    ReadUpToIs(buf, 0);
    NotTakenAfter(buf, n, t);
    if k < n {
      TakenBefore(buf, n, t, k + 1);
    }
  }

  lemma DonePrefix(buf: string, n: nat, t: seq<Event>)
    requires MadeAt(false, INITIAL, [], buf, n, t)
    ensures DoneBy(false, INITIAL, buf, n) <= t[..|t|-1]
  {
    hide Run, DoneBy;
    DoneByGrows(false, INITIAL, buf, n, n + 1);
    var d, e := DoneBy(false, INITIAL, buf, n), DoneBy(false, INITIAL, buf, n + 1);
    assert [] + d == d && [] + e == e;
    assert d == e[..|d|] == t[..|d|] == t[..|t|-1][..|d|];
  }

  lemma AllTaken(buf: string, k: nat)
    requires k <= |buf| && (Accepted(Deliver, EMPTY_MSG, CallsOf(buf)) || LostFlush(buf))
    ensures TakenBy(buf, k)
  {
    hide Run, CallsOf, Accepted, DoneBy;
    if Accepted(Deliver, EMPTY_MSG, CallsOf(buf)) {
      DoneInCalls(buf, k);
      AcceptedPrefix(Deliver, EMPTY_MSG, DoneBy(false, INITIAL, buf, k), CallsOf(buf));
    } else {
      DoneBeforeFlush(buf, k);
      AcceptedPrefix(Deliver, EMPTY_MSG, DoneBy(false, INITIAL, buf, k), CallsOf(buf)[..|CallsOf(buf)|-1]);
    }
  }

  /** Nothing is refused before the closing flush: the whole buffer is read. */
  lemma ReadAll(buf: string)
    requires Accepted(Deliver, EMPTY_MSG, CallsOf(buf)) || LostFlush(buf)
    ensures ReadUpTo(buf) == |buf|
  {
    hide CallsOf, Accepted, LostFlush, TakenBy, ReadUpTo;
    ReadUpToIs(buf, 0);
    if ReadUpTo(buf) < |buf| {
      AllTaken(buf, ReadUpTo(buf) + 1);
    }
  }

  lemma DoneInCalls(buf: string, k: nat)
    requires k <= |buf|
    ensures DoneBy(false, INITIAL, buf, k) <= CallsOf(buf)
  {
    hide Run, CutAll;
    assert buf[..|buf|] == buf;
    if RunOf(buf[..k]).Live? {
      DoneByGrows(false, INITIAL, buf, k, |buf|);
    } else {
      assert buf == buf[..k] + buf[k..];
      RunConcat(false, INITIAL, buf[..k], buf[k..]);
    }
  }

  lemma DoneBeforeFlush(buf: string, k: nat)
    requires k <= |buf| && LostFlush(buf)
    ensures DoneBy(false, INITIAL, buf, k) <= CallsOf(buf)[..|CallsOf(buf)|-1]
  {
    hide Run, CutAll, Accepted;
    assert buf[..|buf|] == buf;
    LiveBefore(false, INITIAL, buf, k, |buf|);
    DoneByGrows(false, INITIAL, buf, k, |buf|);
    if buf == [] {
      EmptyBuffer();
    } else {
      MarkingOpens(false, INITIAL, buf);
      CutGrows(NOTHING, RunOf(buf).out);
      var c := CutAll(NOTHING, RunOf(buf).out);
      assert CallsOf(buf)[..|CallsOf(buf)|-1] == c.done;
    }
  }

  /** The status among the fields that a call leaves. */
  lemma OutcomeStatus(buf: string, n: nat, exit: Exit, fields: Machine, t: seq<Event>)
    requires Reports(false, INITIAL, [], buf, n, exit, fields, t)
    requires exit == Refused <==> !Accepted(Deliver, EMPTY_MSG, t)
    requires exit == Refused ==> t != [] && Accepted(Deliver, EMPTY_MSG, t[..|t|-1])
    ensures fields.status == StatusLeft(buf)
  {
    hide Run, Accepted, Fold, CutAll, Callbacks, Deliver, MadeAt;
    assert [] + CallsOf(buf) == CallsOf(buf) && buf[..|buf|] == buf;
    if exit != Refused {
      ReadAll(buf);
    } else if n == |buf| {
      ReadAll(buf);
    } else {
      MadeStatus(buf, n, t);
      MadeReadUpTo(buf, n, t);
    }
  }

  /** What a parser that has been given `buf` reports, in terms of the buffer alone. */
  lemma Outcome(buf: string, n: nat, exit: Exit, fields: Machine, t: seq<Event>)
    requires Reports(false, INITIAL, [], buf, n, exit, fields, t)
    requires exit == Refused <==> !Accepted(Deliver, EMPTY_MSG, t)
    requires exit == Refused ==> t != [] && Accepted(Deliver, EMPTY_MSG, t[..|t|-1])
    ensures n == |buf| && AtRest(fields.state) <==> GoodReturn(buf)
    ensures WholeResponse(buf) ==> fields == RunOf(buf).m
    ensures GoodReturn(buf) ==> t == CallsOf(buf)
    ensures LostFlush(buf) ==> fields.state == StartRes
  {
    hide Run, Accepted, Fold, CutAll, Callbacks;
    assert [] + CallsOf(buf) == CallsOf(buf);
    RunStopsInside(false, INITIAL, buf);
    if exit == Refused {
      FirstRefusalIsLast(t, CallsOf(buf));
    }
  }

  /** What the message holds after a whole response, or a lost flush, and the end of the stream. */
  lemma Received(buf: string, t: seq<Event>)
    requires RunOf(buf).Live? && |buf| < MAX_BODY_SIZE && t == AllCallsOf(buf)
    ensures Assembled(t).body == BodyOf(RunOf(buf).out) && Assembled(t).bodySize == |BodyOf(RunOf(buf).out)|
  {
    hide Run, Accepted, Fold, CutAll, Callbacks, BodyOf;
    BodyDelivered(buf);
    BodySnoc(CallsOf(buf), RunOf(buf).m.Completion());
    assert CallsOf(buf) + [] == CallsOf(buf);
    AssembledBody(t);
  }

  lemma AssembledIs(t: seq<Event>)
    ensures Assembled(t) == Fold(Deliver, EMPTY_MSG, t)
  {}

  lemma RestOfGood(buf: string)
    ensures GoodReturn(buf) ==> RunOf(buf).Live? && (WholeResponse(buf) || LostFlush(buf))
    ensures GoodReturn(buf) ==>
      var m := RunOf(buf).m;
      AllCallsOf(buf) == CallsOf(buf) + if m.state == BodyIdentityEof then [m.Completion()] else []
    ensures LostFlush(buf) ==> RunOf(buf).m.state != BodyIdentityEof
  {
    hide Run, Callbacks;
  }

  class Session {
    var recvBuf: Option<string>
    var recvCtr: nat
    var httpStatusCode: nat

    /** `murl_http_parse` with a parser that has not seen anything; an empty buffer is the end of the stream. */
    static method Parse(parser: Parser<Msg>, buf: string) returns (parsed: nat)
      requires parser.Valid() && parser.Fields() == INITIAL && parser.trace == []
      requires parser.deliver == Deliver && !parser.skipBody && parser.client == parser.origin == EMPTY_MSG
      modifies parser
      ensures parser.Book()
      ensures parsed == |buf| && AtRest(parser.state) <==> GoodReturn(buf)
      ensures WholeResponse(buf) ==> parser.Fields() == RunOf(buf).m
      ensures LostFlush(buf) ==> parser.state == StartRes
      ensures GoodReturn(buf) ==> parser.trace == CallsOf(buf)
      ensures parser.statusCode == StatusLeft(buf)
    {
      hide Run, Accepted, Fold, Deliver, CutAll, Callbacks, BodyOf, Reports, LostFlush, ReadUpTo;
      if |buf| == 0 {
        EmptyBuffer();
        NothingRefuses();
        NoFlush();
        assert buf[..ReadUpTo(buf)] == "";
        parsed := parser.ExecuteEof();
      } else {
        ghost var exit;
        parsed, exit := parser.Execute(buf);
        Outcome(buf, parsed, exit, parser.Fields(), parser.trace);
        OutcomeStatus(buf, parsed, exit, parser.Fields(), parser.trace);
      }
    }

    /** `murl_http_parse_response` on a C string; 0 is success. */
    method ParseResponse(buf: string) returns (rv: int)
      requires forall c :: c in buf ==> c != NUL
      modifies this
      ensures rv == if GoodReturn(buf) then 0 else 1
      ensures rv == 1 ==> recvBuf == old(recvBuf) && recvCtr == old(recvCtr)
      ensures httpStatusCode == StatusLeft(buf)
      ensures GoodReturn(buf) ==>
                && recvBuf == Some(Assembled(AllCallsOf(buf)).body)
                && recvCtr == (if old(recvBuf).Some? then 0 else old(recvCtr)) + Assembled(AllCallsOf(buf)).bodySize
      ensures GoodReturn(buf) && |buf| < MAX_BODY_SIZE ==>
                && recvBuf == Some(BodyOf(RunOf(buf).out))
                && recvCtr == (if old(recvBuf).Some? then 0 else old(recvCtr)) + |BodyOf(RunOf(buf).out)|
    {
      hide Run, Accepted, Fold, Deliver, CutAll, Callbacks, BodyOf, WholeResponse, GoodReturn, RunOf, CallsOf,
           LostFlush, StatusLeft, AllCallsOf, Assembled;
      var parser := new Parser<Msg>(Deliver, false, EMPTY_MSG);
      var parsed := Parse(parser, buf);
      var ok := parsed == |buf|;
      assert ok && AtRest(parser.state) <==> GoodReturn(buf);
      RestOfGood(buf);
      assert CallsOf(buf) + [] == CallsOf(buf);
      parsed := parser.ExecuteEof();
      ok := ok && parsed == 0;
      httpStatusCode := parser.statusCode;
      if !ok {
        return 1;
      }
      assert parser.trace == AllCallsOf(buf);
      AssembledIs(parser.trace);
      if |buf| < MAX_BODY_SIZE {
        Received(buf, parser.trace);
      }
      if recvBuf.Some? {
        recvBuf, recvCtr := None, 0;
      }
      recvBuf := Some(parser.client.body);
      recvCtr := recvCtr + parser.client.bodySize;
      return 0;
    }
  }
}
