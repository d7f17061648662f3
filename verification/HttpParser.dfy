/**
 `http_parser_execute` on a buffer: marks instead of copied bytes, bulk body copies, registers
 kept in locals and saved only on the way out, resumption in the middle of a header. The contract
 of `Execute` fixes its result, the fields and every single callback by the byte-wise `Run`.
 */
module HttpParser {
  import opened HttpEvents
  import opened HttpMachine
  import opened HttpInvariant
  import opened HttpCut
  import opened HttpClient
  import opened HttpMarks
  import opened Options

  /** Why `Execute` returned. */
  datatype Exit = Consumed | Failed | HandedOver | Refused

  /**
   The shared fields when the callback `e` of a byte is refused: a field or value is delivered before
   the byte is acted upon, the end of the head before its body is skipped, the rest afterwards.
   */
  function SharedAt(before: Machine, after: Machine, e: Event): Machine {
    if e.Data? then before else if e.HeadersComplete? then after.(flags := before.flags) else after
  }

  /** The fields a refused callback leaves: only after the head does the parser remember its state. */
  function Leftover(m0: Machine, shared: Machine, e: Event): Machine {
    shared.(state := if e.HeadersComplete? then HeadersAlmostDone else m0.state,
            hstate := m0.hstate, index := m0.index, nread := m0.nread)
  }

  /** The call stopped at byte `n`, whose callback, the last one of `trace`, was refused. */
  ghost predicate RefusedAt(skip: bool, m0: Machine, t0: seq<Event>, data: string, n: nat,
                            fields: Machine, trace: seq<Event>)
  {
    && MadeAt(skip, m0, t0, data, n, trace)
    && var e := trace[|trace|-1];
       fields == Leftover(m0, SharedAt(Run(skip, m0, data[..n]).m, Run(skip, m0, data[..n+1]).m, e), e)
  }

  /**
   What `Execute(data)` did to a parser with fields `m0` and trace `t0`, given the fields and trace
   it left: exactly the callbacks of the byte-wise run, up to the first one that refuses.
   */
  ghost predicate Reports(skip: bool, m0: Machine, t0: seq<Event>, data: string, n: nat, exit: Exit,
                          fields: Machine, trace: seq<Event>)
  {
    var r := Run(skip, m0, data);
    var all := t0 + Callbacks(r);
    match exit
    case Consumed =>
      n == |data| && r.Live? && fields == r.m && trace == all
    case Failed =>
      && r.Stopped? && r.why == Malformed && n == r.at && trace == all
      && fields == r.m.(state := Dead, hstate := m0.hstate, index := m0.index, nread := m0.nread)
    case HandedOver =>
      && r.Stopped? && r.why == SwitchedProtocol && n == r.at && trace == all
      && fields == r.m.(state := m0.state, hstate := m0.hstate, index := m0.index, nread := m0.nread)
    case Refused =>
      && trace <= all && n <= |data|
      // only the flush after the last byte can refuse and still return the full length
      && (n == |data| <==> r.Live? && Marking(r.m.state) && trace == all)
      && (n == |data| ==>
            fields == r.m.(state := m0.state, hstate := m0.hstate, index := m0.index, nread := m0.nread))
      && (n < |data| ==> RefusedAt(skip, m0, t0, data, n, fields, trace))
  }

  /** A callback refused in the middle of a buffer. */
  lemma RefusedMid(skip: bool, m0: Machine, t0: seq<Event>, data: string, n: nat, fields: Machine, trace: seq<Event>)
    requires RefusedBy(skip, m0, t0, data, trace) && RefusedAt(skip, m0, t0, data, n, fields, trace)
    ensures Reports(skip, m0, t0, data, n, Refused, fields, trace)
  {
    hide Run, CutAll, Callbacks, DoneBy, Leftover, SharedAt;
  }

  lemma RefusedAll<S>(deliver: (S, Event) -> (S, bool), c: S, t: seq<Event>, all: seq<Event>)
    requires t <= all
    ensures !Accepted(deliver, c, t) ==> !Accepted(deliver, c, all)
  {
    if Accepted(deliver, c, all) {
      AcceptedPrefix(deliver, c, t, all);
    }
  }

  /** Callbacks are those of the run; only a refusal leaves some out. */
  lemma ReportedTrace(skip: bool, m0: Machine, t0: seq<Event>, data: string, n: nat, exit: Exit,
                      fields: Machine, trace: seq<Event>)
    requires Reports(skip, m0, t0, data, n, exit, fields, trace)
    ensures var all := t0 + Callbacks(Run(skip, m0, data)); trace <= all && (exit != Refused ==> trace == all)
  {
    hide Run, Callbacks, RefusedAt;
  }

  /** The start of a call: a header piece goes on at the first byte. */
  lemma StartsInSync(skip: bool, m0: Machine, t0: seq<Event>, data: string, fm: Option<nat>, vm: Option<nat>)
    requires Inv(m0) && Agrees(m0, ObserveAll(EMPTY_LOG, t0))
    requires fm == (if m0.state == HeaderField then Some(0) else None)
    requires vm == if m0.state == HeaderValue then Some(0) else None
    ensures InSync(skip, m0, t0, data, 0, m0, fm, vm, [], t0)
  {
    hide Inv, Agrees, ObserveAll, CutAll, Run;
    assert data[..0] == [];
    RunEmpty(skip, m0);
    CutEmpty(NOTHING);
    assert t0 + [] == t0;
  }

  lemma NoMarkInBulk(skip: bool, m0: Machine, t0: seq<Event>, data: string, p: nat,
                     m: Machine, fm: Option<nat>, vm: Option<nat>, out: seq<Event>, t: seq<Event>)
    requires InSync(skip, m0, t0, data, p, m, fm, vm, out, t) && m.BulkState()
    ensures fm == None && vm == None
  {
    hide Run, CutAll, Inv, Agrees;
  }

  /** Without a mark there is nothing to resume. */
  lemma NoMarkNoPile(skip: bool, m0: Machine, t0: seq<Event>, data: string, q: nat,
                     m: Machine, out: seq<Event>, t: seq<Event>)
    requires InSync(skip, m0, t0, data, q, m, None, None, out, t)
    ensures !Marking(m.state)
  {
    hide Run, CutAll, Inv, Agrees;
  }

  /** The state of affairs after the last byte: what is marked is what is missing. */
  lemma LastFlush(skip: bool, m0: Machine, t0: seq<Event>, data: string,
                  m: Machine, fm: Option<nat>, vm: Option<nat>, out: seq<Event>, t: seq<Event>)
    requires data != [] && InSync(skip, m0, t0, data, |data|, m, fm, vm, out, t)
    ensures var r := Run(skip, m0, data); var all := t0 + Callbacks(r);
      && r == Live(m, out) && Inv(m) && Agrees(m, ObserveAll(EMPTY_LOG, all))
      && m.index < 256 && m.nread < 0x1_0000_0000
      && (fm.Some? ==> fm.value <= |data| && m.state == HeaderField && all == t + [Data(Field, data[fm.value..])])
      && (fm.None? && vm.Some? ==>
            vm.value <= |data| && m.state == HeaderValue && all == t + [Data(Value, data[vm.value..])])
      && (fm.None? && vm.None? ==> all == t && !Marking(m.state))
  {
    hide Step, Norm, Run, Agrees, ObserveAll, Observe, CutAll, CutOne;
    assert data[..|data|] == data;
    RunSound(skip, m0, data, ObserveAll(EMPTY_LOG, t0));
    var c := CutAll(NOTHING, out);
    var all := t0 + c.Whole();
    assert all == t0 + c.done + c.open;
    assert fm.Some? ==> data[fm.value..] == data[fm.value..|data|];
    assert vm.Some? ==> data[vm.value..] == data[vm.value..|data|];
    NormCut(t0, NOTHING, out);
    assert t0 + NOTHING.Whole() == t0;
    ObserveConcat(EMPTY_LOG, t0, out);
    ObserveNorm(all, EMPTY_LOG);
    ObserveNorm(t0 + out, EMPTY_LOG);
  }

  lemma EndCall(m: Machine, s: string)
    requires m.state == BodyIdentity && |s| == m.contentLength
    ensures var t := BulkCalls(m, s); |t| == 2 && t[1] == BulkNext(m, |s|).Completion()
  {}

  class Parser<C(!new)> {
    // settings and parser->data
    const deliver: (C, Event) -> (C, bool)
    const skipBody: bool           // on_headers_complete answers 1: a response to HEAD
    const origin: C
    var client: C
    ghost var trace: seq<Event>    // every callback made so far

    // struct http_parser
    var state: State
    var headerState: HeaderState
    var index: nat
    var nread: nat
    var flags: Flags
    var contentLength: int
    var httpMajor: nat
    var httpMinor: nat
    var statusCode: nat
    var upgrade: bool

    function Fields(): Machine
      reads this
    {
      Machine(state, headerState, index, nread, flags, contentLength, httpMajor, httpMinor, statusCode, upgrade)
    }

    /** The client is what the callbacks of the trace made of it. */
    ghost predicate Book()
      reads this
    {
      client == Fold(deliver, origin, trace)
    }

    ghost predicate Valid()
      reads this
    {
      && Inv(Fields())
      && Agrees(Fields(), ObserveAll(EMPTY_LOG, trace))
      && Book()
      && Accepted(deliver, origin, trace)
    }

    /** `http_parser_init(parser, HTTP_RESPONSE)` on zeroed memory. */
    constructor (deliver: (C, Event) -> (C, bool), skipBody: bool, client: C)
      ensures Valid() && Fields() == INITIAL && trace == [] && this.client == client
      ensures this.deliver == deliver && this.skipBody == skipBody && this.origin == client
    {
      this.deliver, this.skipBody, this.origin, this.client := deliver, skipBody, client, client;
      state, headerState, index, nread := StartRes, General, 0, 0;
      flags, contentLength := NO_FLAGS, 0;
      httpMajor, httpMinor, statusCode, upgrade := 0, 0, 0, false;
      trace := [];
    }

    /** The last callback is the one and only refusal. */
    ghost predicate JustRefused()
      reads this
    {
      trace != [] && Accepted(deliver, origin, trace[..|trace|-1]) && !Accepted(deliver, origin, trace)
    }

    /** One callback. The parser ignores what on_body returns. */
    method Notify(e: Event) returns (ok: bool)
      requires Book()
      modifies this`client, this`trace
      ensures Book()
      ensures trace == old(trace) + [e]
      ensures Accepted(deliver, origin, trace) <==> old(Accepted(deliver, origin, trace)) && ok
      ensures IsBody(e) ==> ok
      ensures old(Accepted(deliver, origin, trace)) && !ok ==> JustRefused()
    {
      FoldSnoc(deliver, origin, trace, e);
      var r := deliver(client, e);
      client, ok := r.0, IsBody(e) || r.1;
      trace := trace + [e];
      assert trace[..|trace|-1] == old(trace);
    }

    /** The callbacks of one byte in order, up to the first one that refuses. */
    method NotifyAll(es: seq<Event>) returns (refusal: Option<Event>)
      requires Book() && Accepted(deliver, origin, trace)
      modifies this`client, this`trace
      ensures Book()
      ensures refusal == None <==> Accepted(deliver, origin, trace)
      ensures refusal.Some? ==> JustRefused()
      ensures refusal == None ==> trace == old(trace) + es
      ensures refusal.Some? ==> old(trace) < trace <= old(trace) + es && trace[|trace|-1] == refusal.value
    {
      var k := 0;
      while k < |es|
        invariant k <= |es| && trace == old(trace) + es[..k]
        invariant Book() && Accepted(deliver, origin, trace)
      {
        assert es[..k+1] == es[..k] + [es[k]];
        var ok := Notify(es[k]);
        if !ok {
          return Some(es[k]);
        }
        k := k + 1;
      }
      assert es[..|es|] == es;
      return None;
    }

    /** The macro CALLBACK: delivers what is marked. */
    method Flush(k: Kind, s: string, ghost t0: seq<Event>, ghost c: Cut) returns (refusal: Option<Event>)
      requires Book() && Accepted(deliver, origin, trace)
      requires c.Valid() && SamePile(c.open, [Data(k, s)]) && trace == t0 + c.done
      modifies this`client, this`trace
      ensures Book()
      ensures refusal == None <==> Accepted(deliver, origin, trace)
      ensures refusal.Some? ==> JustRefused() && refusal.value == Data(k, s)
      ensures trace == old(trace) + [Data(k, s)] == t0 + CutAll(c, [Data(k, [])]).done
      ensures CutAll(c, [Data(k, [])]).open == []
    {
      hide CutAll, Accepted, Fold;
      PileClosed(c, k, s);
      var ok := Notify(Data(k, s));
      refusal := if ok then None else Some(Data(k, s));
    }

    /** Callbacks without data, while nothing is marked. */
    method Tell(es: seq<Event>, ghost t0: seq<Event>, ghost c: Cut) returns (refusal: Option<Event>)
      requires Book() && Accepted(deliver, origin, trace) && NoData(es)
      requires c.open == [] && trace == t0 + c.done
      modifies this`client, this`trace
      ensures Book()
      ensures refusal == None <==> Accepted(deliver, origin, trace)
      ensures refusal.Some? ==> JustRefused()
      ensures CutAll(c, es).open == []
      ensures refusal == None ==> trace == t0 + CutAll(c, es).done
      ensures refusal.Some? ==> old(trace) < trace <= t0 + CutAll(c, es).done && trace[|trace|-1] == refusal.value
    {
      hide CutAll, Accepted, Fold, JustRefused, Book;
      CutNotes(c, es);
      refusal := NotifyAll(es);
      assert t0 + c.done + es == t0 + (c.done + es);
    }

    /** The marks and callbacks of one byte `data[p]` that is not body data. */
    method Perform(op: Op, data: string, p: nat, fm: Option<nat>, vm: Option<nat>,
                   ghost after: State, ghost t0: seq<Event>, ghost c: Cut)
      returns (refusal: Option<Event>, fm': Option<nat>, vm': Option<nat>)
      requires p < |data| && MarksFit(op, fm, vm, p, after)
      requires Book() && Accepted(deliver, origin, trace)
      requires c.Valid() && SamePile(c.open, Pending(data, fm, vm, p)) && trace == t0 + c.done
      modifies this`client, this`trace
      ensures Book()
      ensures refusal == None <==> Accepted(deliver, origin, trace)
      ensures refusal.Some? ==> JustRefused()
      ensures fm'.Some? <==> after == HeaderField
      ensures vm'.Some? <==> after == HeaderValue
      ensures fm'.Some? ==> fm'.value <= p
      ensures vm'.Some? ==> vm'.value <= p
      ensures var c1 := CutAll(c, Emitted(op, after, data[p]));
        && (refusal == None ==> trace == t0 + c1.done && c1.open == Pending(data, fm', vm', p + 1))
        && (refusal.Some? ==> old(trace) < trace <= t0 + c1.done && trace[|trace|-1] == refusal.value)
    {
      hide CutAll, CutOne, Accepted, Fold, JustRefused, Book;
      refusal, fm', vm' := None, fm, vm;
      match op
      case Nothing =>
        PileExtended(c, data, fm, vm, p, after);
      case MarkField =>
        fm' := Some(p);
        PileMarked(c, Field, data, p);
      case MarkValue =>
        vm' := Some(p);
        PileMarked(c, Value, data, p);
      case FlushField =>
        refusal := Flush(Field, data[fm.value..p], t0, c);
        fm' := None;
      case FlushValue =>
        refusal := Flush(Value, data[vm.value..p], t0, c);
        vm' := None;
      case MarkFlushValue =>
        refusal := Flush(Value, data[p..p], t0, c);
      case Notify(es) =>
        refusal := Tell(es, t0, c);
    }

    /** The callbacks of `toRead` body bytes: on_body, and the completion if they are the last. */
    method DeliverBody(m: Machine, data: string, p: nat, toRead: nat) returns (ok: bool)
      requires p + toRead <= |data| && m.BulkState()
      requires Book() && Accepted(deliver, origin, trace)
      modifies this`client, this`trace
      ensures Book()
      ensures ok <==> Accepted(deliver, origin, trace)
      ensures !ok ==> JustRefused()
      ensures trace == old(trace) + BulkCalls(m, data[p..p+toRead])
      ensures !ok ==> m.state == BodyIdentity && toRead == m.contentLength
    {
      hide Accepted, Fold;
      ok := Notify(Data(Body, data[p..p+toRead]));
      if m.state == BodyIdentity && toRead == m.contentLength {
        ok := Notify(BulkNext(m, toRead).Completion());
      }
    }

    /** The fields that the C code updates in the struct itself as it goes. */
    method SaveShared(m: Machine)
      modifies this`flags, this`contentLength, this`httpMajor, this`httpMinor, this`statusCode, this`upgrade
      ensures Fields() == m.(state := state, hstate := headerState, index := index, nread := nread)
    {
      flags, contentLength := m.flags, m.contentLength;
      httpMajor, httpMinor, statusCode, upgrade := m.major, m.minor, m.status, m.upgrade;
    }

    /** The locals of `http_parser_execute`, saved into an unsigned char and a uint32_t. */
    method SaveLocals(m: Machine)
      modifies this`state, this`headerState, this`index, this`nread
      ensures state == m.state && headerState == m.hstate
      ensures index == m.index % 256 && nread == m.nread % 0x1_0000_0000
    {
      state, headerState := m.state, m.hstate;
      index, nread := m.index % 256, m.nread % 0x1_0000_0000;
    }

    /** The saved registers are those at the start of the call. */
    ghost predicate Unsaved(m0: Machine)
      reads this
    {
      state == m0.state && headerState == m0.hstate && index == m0.index && nread == m0.nread
    }

    /** One turn of the loop in a bulk state: as much body as the buffer holds, and no more than is due. */
    method TakeBody(data: string, p: nat, m: Machine, ghost m0: Machine, ghost t0: seq<Event>, ghost out: seq<Event>)
      returns (ok: bool, m1: Machine, q: nat, ghost out1: seq<Event>)
      requires p < |data| && m.BulkState()
      requires InSync(skipBody, m0, t0, data, p, m, None, None, out, trace)
      requires Book() && Accepted(deliver, origin, trace) && Unsaved(m0)
      modifies this`client, this`trace, this`flags, this`contentLength,
               this`httpMajor, this`httpMinor, this`statusCode, this`upgrade
      ensures p < q <= |data| && Book() && Unsaved(m0)
      ensures ok <==> Accepted(deliver, origin, trace)
      ensures !ok ==> JustRefused()
      ensures q == if m.state != BodyIdentityEof && m.contentLength < |data| - p then p + m.contentLength else |data|
      ensures m1 == BulkNext(m, q - p) && trace == old(trace) + BulkCalls(m, data[p..q])
      ensures ok ==> InSync(skipBody, m0, t0, data, q, m1, None, None, out1, trace) && !Marking(m1.state)
      ensures !ok ==> Reports(skipBody, m0, t0, data, q - 1, Refused, Fields(), trace)
    {
      hide InSync, RefusedBy, Accepted, Fold, Run, CutAll, BulkCalls, BulkNext, MadeAt;
      BodyDue(skipBody, m0, t0, data, p, m, out, trace);
      var toRead := |data| - p;
      if m.state != BodyIdentityEof && m.contentLength < toRead {
        toRead := m.contentLength;
      }
      q := p + toRead;
      BodyTurn(skipBody, m0, t0, data, p, q, m, out, trace);
      m1 := BulkNext(m, toRead);
      out1 := Run(skipBody, m0, data[..q]).out;
      ok := DeliverBody(m, data, p, toRead);
      if ok {
        NoMarkNoPile(skipBody, m0, t0, data, q, m1, out1, trace);
      } else {
        BodyEndMade(skipBody, m0, t0, data, p, q, m, out, old(trace));
        EndCall(m, data[p..q]);
        SaveShared(m1);
        RefusedMid(skipBody, m0, t0, data, q - 1, Fields(), trace);
      }
    }

    /** A refused callback ends the call, at whatever point of the byte's work it is made. */
    method LeaveRefused(data: string, p: nat, m: Machine, v: Verdict, refused: Event,
                        ghost m0: Machine, ghost t0: seq<Event>, ghost out0: seq<Event>, ghost out: seq<Event>)
      requires p < |data| && !v.AssertFailed? && Unsaved(m0)
      requires Run(skipBody, m0, data[..p]) == Live(m, out0)
      requires |t0 + CutAll(NOTHING, out0).done| < |trace| && trace <= t0 + CutAll(NOTHING, out).done
      requires trace[|trace|-1] == refused
      requires v.Next? ==> Run(skipBody, m0, data[..p+1]) == Live(v.m, out)
      requires !v.Next? ==> Run(skipBody, m0, data[..p+1]) == Run(skipBody, m0, data)
      requires !v.Next? ==>
        Run(skipBody, m0, data) == Stopped(if v.Error? then Malformed else SwitchedProtocol, p, v.m, out)
      modifies this`flags, this`contentLength, this`httpMajor, this`httpMinor, this`statusCode, this`upgrade, this`state
      ensures Reports(skipBody, m0, t0, data, p, Refused, Fields(), trace)
    {
      hide Run, CutAll, RefusedBy;
      if refused.Data? {
        SaveShared(m);
      } else if refused.HeadersComplete? {
        SaveShared(v.m.(flags := m.flags));
        state := HeadersAlmostDone;
      } else {
        SaveShared(v.m);
      }
      assert RefusedAt(skipBody, m0, t0, data, p, Fields(), trace);
      if v.Next? {
        MidRefusal(skipBody, m0, t0, data, p + 1, trace);
        RefusedMid(skipBody, m0, t0, data, p, Fields(), trace);
      }
    }

    /** The exits through an error and through another protocol. */
    method LeaveStopped(data: string, p: nat, v: Verdict,
                        ghost m0: Machine, ghost t0: seq<Event>, ghost out: seq<Event>)
      returns (ghost exit: Exit)
      requires (v.Error? || v.Handover?) && Unsaved(m0) && trace == t0 + CutAll(NOTHING, out).done
      requires Run(skipBody, m0, data) == Stopped(if v.Error? then Malformed else SwitchedProtocol, p, v.m, out)
      modifies this`flags, this`contentLength, this`httpMajor, this`httpMinor, this`statusCode, this`upgrade, this`state
      ensures exit == Failed || exit == HandedOver
      ensures Reports(skipBody, m0, t0, data, p, exit, Fields(), trace)
    {
      hide Run, CutAll;
      SaveShared(v.m);
      if v.Handover? {
        exit := HandedOver;
      } else {
        state, exit := Dead, Failed;
      }
    }

    /** One turn of the loop in any other state. */
    method TakeByte(data: string, p: nat, m: Machine, fm: Option<nat>, vm: Option<nat>,
                    ghost m0: Machine, ghost t0: seq<Event>, ghost out: seq<Event>)
      returns (go: bool, m1: Machine, fm1: Option<nat>, vm1: Option<nat>,
               ghost out1: seq<Event>, ghost exit: Exit)
      requires p < |data| && !m.BulkState()
      requires InSync(skipBody, m0, t0, data, p, m, fm, vm, out, trace)
      requires Book() && Accepted(deliver, origin, trace) && Unsaved(m0)
      modifies this
      ensures Book()
      ensures go ==> InSync(skipBody, m0, t0, data, p + 1, m1, fm1, vm1, out1, trace)
      ensures go ==> Accepted(deliver, origin, trace) && Unsaved(m0)
      ensures !go ==> Reports(skipBody, m0, t0, data, p, exit, Fields(), trace)
      ensures !go ==> exit != Consumed && (exit == Refused <==> !Accepted(deliver, origin, trace))
      ensures !go && exit == Refused ==> JustRefused()
    {
      hide Switch, Step, Run, Inv, Agrees, Accepted, Fold, ObserveAll, CutAll, CutOne, Emitted, MarksFit, RefusedBy,
           Reports;
      exit, out1, go := Consumed, [], true;
      ByteTurn(skipBody, m0, t0, data, p, m, fm, vm, out, trace);
      var v := Switch(skipBody, m, data[p]);
      m1, fm1, vm1 := v.m, fm, vm;
      if v.Error? && v.op == Nothing {
        go := false;
        exit := LeaveStopped(data, p, v, m0, t0, out);
        return;
      }
      ghost var after := if v.Next? then v.m.state else Dead;
      var refusal;
      refusal, fm1, vm1 := Perform(v.op, data, p, fm, vm, after, t0, CutAll(NOTHING, out));
      out1 := out + Emitted(v.op, after, data[p]);
      if refusal.Some? {
        go, exit := false, Refused;
        LeaveRefused(data, p, m, v, refusal.value, m0, t0, out, out1);
        return;
      }
      if v.Next? {
        return;
      }
      go := false;
      exit := LeaveStopped(data, p, v, m0, t0, out1);
    }

    /** One turn of the loop; `p1` is where it goes on, or the value that the call returns. */
    method Turn(data: string, p: nat, m: Machine, fm: Option<nat>, vm: Option<nat>,
                ghost m0: Machine, ghost t0: seq<Event>, ghost out: seq<Event>)
      returns (go: bool, p1: nat, m1: Machine, fm1: Option<nat>, vm1: Option<nat>,
               ghost out1: seq<Event>, ghost exit: Exit)
      requires p < |data| && InSync(skipBody, m0, t0, data, p, m, fm, vm, out, trace)
      requires Book() && Accepted(deliver, origin, trace) && Unsaved(m0)
      modifies this
      ensures Book()
      ensures go ==> p < p1 <= |data| && InSync(skipBody, m0, t0, data, p1, m1, fm1, vm1, out1, trace)
      ensures go ==> Accepted(deliver, origin, trace) && Unsaved(m0)
      ensures !go ==> Reports(skipBody, m0, t0, data, p1, exit, Fields(), trace)
      ensures !go ==> exit != Consumed && (exit == Refused <==> !Accepted(deliver, origin, trace))
      ensures !go && exit == Refused ==> JustRefused()
    {
      hide Run, Accepted, Fold, Reports, InSync, BulkNext, BulkCalls;
      exit := Refused;
      if m.BulkState() {
        NoMarkInBulk(skipBody, m0, t0, data, p, m, fm, vm, out, trace);
        fm1, vm1 := None, None;
        go, m1, p1, out1 := TakeBody(data, p, m, m0, t0, out);
        if !go {
          p1 := p1 - 1;
        }
      } else {
        go, m1, fm1, vm1, out1, exit := TakeByte(data, p, m, fm, vm, m0, t0, out);
        p1 := if go then p + 1 else p;
      }
    }

    /** After the last byte: deliver what is still marked and save the locals. */
    method Finish(data: string, m: Machine, fm: Option<nat>, vm: Option<nat>,
                  ghost m0: Machine, ghost t0: seq<Event>, ghost out: seq<Event>)
      returns (ghost exit: Exit)
      requires data != [] && InSync(skipBody, m0, t0, data, |data|, m, fm, vm, out, trace)
      requires Book() && Accepted(deliver, origin, trace) && Unsaved(m0)
      modifies this
      ensures Book() && Reports(skipBody, m0, t0, data, |data|, exit, Fields(), trace)
      ensures exit == Consumed || exit == Refused
      ensures exit == Refused <==> !Accepted(deliver, origin, trace)
      ensures exit == Refused ==> JustRefused()
      ensures exit == Consumed ==> Valid()
    {
      hide Switch, Step, Norm, Run, Inv, Agrees, Accepted, Fold, ObserveAll, Observe, CutAll, CutOne, InSync;
      LastFlush(skipBody, m0, t0, data, m, fm, vm, out, trace);
      var ok := true;
      if fm.Some? {
        ok := Notify(Data(Field, data[fm.value..]));
      } else if vm.Some? {
        ok := Notify(Data(Value, data[vm.value..]));
      }
      SaveShared(m);
      if !ok {
        return Refused;
      }
      SaveLocals(m);
      exit := Consumed;
    }

    /** `http_parser_execute` with `len == 0`: the end of the stream. */
    method ExecuteEof() returns (n: nat)
      requires Book()
      modifies this`client, this`trace
      ensures Book()
      ensures n == if state == BodyIdentityEof || state == Dead || state == StartRes then 0 else 1
      ensures trace == old(trace) + if state == BodyIdentityEof then [Fields().Completion()] else []
    {
      match state
      case BodyIdentityEof =>
        // the return value is p - data, which is 0, whatever the callback answers
        var _ := Notify(Fields().Completion());
        return 0;
      case Dead | StartRes =>
        return 0;
      case _ =>
        return 1;
    }

    /** `http_parser_execute` on a buffer. */
    method Execute(data: string) returns (n: nat, ghost exit: Exit)
      requires Valid() && data != []
      modifies this
      ensures Book()
      ensures Reports(skipBody, old(Fields()), old(trace), data, n, exit, Fields(), trace)
      ensures exit == Refused <==> !Accepted(deliver, origin, trace)
      ensures exit == Refused ==> JustRefused()
      ensures exit == Refused <==>
              !Accepted(deliver, origin, old(trace) + Callbacks(Run(skipBody, old(Fields()), data)))
      ensures exit == Consumed ==> Valid()
    {
      hide Switch, Step, Norm, Run, Inv, Agrees, Accepted, Fold, ObserveAll, Observe, CutAll, Callbacks, Reports,
           InSync, BulkNext, BulkCalls;
      var m := Fields();
      ghost var m0, t0, out := m, trace, [];
      ghost var all := t0 + Callbacks(Run(skipBody, m0, data));
      var fm: Option<nat> := if state == HeaderField then Some(0) else None;
      var vm: Option<nat> := if state == HeaderValue then Some(0) else None;
      var p := 0;
      StartsInSync(skipBody, m0, t0, data, fm, vm);

      while p < |data|
        invariant p <= |data| && InSync(skipBody, m0, t0, data, p, m, fm, vm, out, trace)
        invariant Book() && Accepted(deliver, origin, trace) && Unsaved(m0)
        decreases |data| - p
      {
        var go;
        go, p, m, fm, vm, out, exit := Turn(data, p, m, fm, vm, m0, t0, out);
        if !go {
          ReportedTrace(skipBody, m0, t0, data, p, exit, Fields(), trace);
          RefusedAll(deliver, origin, trace, all);
          return p, exit;
        }
      }
      exit := Finish(data, m, fm, vm, m0, t0, out);
      ReportedTrace(skipBody, m0, t0, data, p, exit, Fields(), trace);
      RefusedAll(deliver, origin, trace, all);
      n := p;
    }
  }
}
