/**
 The data marks of `http_parser_execute`: pointers into the caller's buffer that stand for data
 not yet delivered. They are the open pile of HttpCut.
 */
module HttpMarks {
  import opened Octets
  import opened HttpEvents
  import opened HttpMachine
  import opened HttpInvariant
  import opened HttpBody
  import opened HttpCut
  import opened Options

  /** The data between a mark and the current position, not yet delivered. */
  function Pending(data: string, fieldMark: Option<nat>, valueMark: Option<nat>, p: nat): seq<Event>
    requires p <= |data|
    requires fieldMark.Some? ==> fieldMark.value <= p
    requires valueMark.Some? ==> valueMark.value <= p
  {
    if fieldMark.Some? then [Data(Field, data[fieldMark.value..p])]
    else if valueMark.Some? then [Data(Value, data[valueMark.value..p])]
    else []
  }

  /** A pile is the pending data; a mark resumed at the start of a buffer has none yet. */
  ghost predicate SamePile(open: seq<Event>, pending: seq<Event>) {
    open == pending || (open == [] && |pending| == 1 && pending[0].Data? && pending[0].bytes == [])
  }

  predicate NoData(es: seq<Event>) { forall e :: e in es ==> !e.Data? }

  /** Which marks an operation needs and leaves, in terms of the states around it. */
  predicate OpFits(s: State, v: Verdict) {
    match v
    case Next(m1, op) =>
      (match op
       case Nothing => (m1.state == s || (!Marking(s) && !Marking(m1.state)))
       case MarkField => s == HeaderFieldStart && m1.state == HeaderField
       case MarkValue => s == HeaderValueStart && m1.state == HeaderValue
       case FlushField => s == HeaderField && !Marking(m1.state)
       case FlushValue => s == HeaderValue && !Marking(m1.state)
       case MarkFlushValue => s == HeaderValueStart && !Marking(m1.state)
       case Notify(es) => !Marking(s) && !Marking(m1.state) && NoData(es))
    case Error(_, op) => op == Nothing || (op.Notify? && !Marking(s) && NoData(op.events))
    case Handover(_, op) => op.Notify? && !Marking(s) && NoData(op.events)
    case AssertFailed => true
  }

  lemma FieldOps(skip: bool, m: Machine, ch: char)
    ensures m.state == HeaderFieldStart ==> OpFits(m.state, FieldStart(skip, m, ch))
    ensures m.state == HeaderField ==> OpFits(m.state, FieldChar(m, ch))
  {
    hide Token, CharAt;
  }

  lemma ValueOps(m: Machine, ch: char)
    ensures m.state == HeaderValueStart ==> OpFits(m.state, ValueStart(m, ch))
    ensures m.state == HeaderValue ==> OpFits(m.state, ValueChar(m, ch))
  {
    hide OrBit5, CharAt;
  }

  lemma ChunkOps(m: Machine, ch: char)
    requires ChunkState(m.state)
    ensures OpFits(m.state, ChunkChar(m, ch))
  {
    hide Unhex;
  }

  lemma StatusLineOps(m: Machine, ch: char)
    requires !TrailerState(m.state) && !m.BodyState()
    ensures OpFits(m.state, StartLine(m, ch))
    ensures m.state == ResFirstMajor ==> OpFits(m.state, FirstMajor(m, ch))
    ensures m.state == ResMajor ==> OpFits(m.state, Major(m, ch))
    ensures m.state == ResFirstMinor ==> OpFits(m.state, FirstMinor(m, ch))
    ensures m.state == ResMinor ==> OpFits(m.state, Minor(m, ch))
    ensures m.state == ResFirstStatusCode ==> OpFits(m.state, FirstStatusCode(m, ch))
    ensures m.state == ResStatusCode ==> OpFits(m.state, StatusCode(m, ch))
    ensures m.state == ResStatus ==> OpFits(m.state, Reason(m, ch))
  {
    hide IsDigit;
  }

  lemma SwitchOps(skip: bool, m: Machine, ch: char)
    requires !m.BulkState()
    ensures OpFits(m.state, Switch(skip, m, ch))
  {
    hide StartLine, FirstMajor, Major, FirstMinor, Minor, FirstStatusCode, StatusCode, Reason,
         FieldStart, FieldChar, ValueStart, ValueChar, ChunkChar;
    var n := Counted(m);
    if TrailerState(m.state) {
      FieldOps(skip, n, ch);
      ValueOps(n, ch);
    } else if ChunkState(m.state) {
      ChunkOps(n, ch);
    } else {
      StatusLineOps(n, ch);
    }
  }

  /** The marks are in range and are those that `op` expects on its way to state `after`. */
  ghost predicate MarksFit(op: Op, fm: Option<nat>, vm: Option<nat>, p: nat, after: State) {
    && (fm.Some? ==> fm.value <= p)
    && (vm.Some? ==> vm.value <= p)
    && (fm.None? || vm.None?)
    && match op
       case Nothing => (after == HeaderField <==> fm.Some?) && (after == HeaderValue <==> vm.Some?)
       case MarkField => fm.None? && vm.None? && after == HeaderField
       case MarkValue => fm.None? && vm.None? && after == HeaderValue
       case FlushField => fm.Some? && !Marking(after)
       case FlushValue => vm.Some? && !Marking(after)
       case MarkFlushValue => fm.None? && vm.None? && !Marking(after)
       case Notify(es) => fm.None? && vm.None? && !Marking(after) && NoData(es)
  }

  lemma BulkAdvance(skip: bool, m0: Machine, data: string, p: nat, q: nat, m: Machine, out: seq<Event>)
    requires p <= q <= |data| && Run(skip, m0, data[..p]) == Live(m, out)
    ensures Run(skip, m0, data[..q]) == After(out, p, Run(skip, m, data[p..q]))
  {
    hide Step;
    assert data[..q] == data[..p] + data[p..q];
    RunConcat(skip, m0, data[..p], data[p..q]);
  }

  /** A bulk state after `k` bytes of its body. */
  function BulkNext(m: Machine, k: nat): Machine {
    if m.state == BodyIdentityEof then m
    else
      var m1 := m.(contentLength := m.contentLength - k);
      if m1.contentLength != 0 then m1
      else if m.state == BodyIdentity then m1.(state := m1.NewMessage())
      else m1.(state := ChunkDataAlmostDone)
  }

  /** The callbacks of `s` in a bulk state: one piece of data, and the completion if it is due. */
  function BulkCalls(m: Machine, s: string): seq<Event> {
    [Data(Body, s)]
    + if m.state == BodyIdentity && |s| == m.contentLength then [BulkNext(m, |s|).Completion()] else []
  }

  /** Body data that goes on after `s`. */
  predicate BulkOpen(m: Machine, s: string) { m.state == BodyIdentityEof || |s| != m.contentLength }

  lemma BulkRun(skip: bool, m: Machine, s: string, c: Cut)
    requires Inv(m) && m.BulkState() && s != [] && c.open == []
    requires m.state != BodyIdentityEof ==> |s| <= m.contentLength
    ensures var r := Run(skip, m, s); var c1 := CutAll(c, r.out);
      && r.Live? && r.m == BulkNext(m, |s|) && !Marking(r.m.state)
      && c1.Whole() == c.done + BulkCalls(m, s)
      && (BulkOpen(m, s) ==> r.m.BulkState())
      && (!BulkOpen(m, s) ==> c1.open == [])
  {
    hide Switch, Step, Run, CutAll;
    CutSingles(c, Body, s);
    if BulkOpen(m, s) {
      if m.state == BodyIdentity {
        IdentityPrefix(skip, m, s);
      } else if m.state == ChunkData {
        ChunkPrefix(skip, m, s);
      } else {
        EofRun(skip, m, s);
      }
      assert c.done + [Data(Body, s)] == c.done + BulkCalls(m, s);
    } else if m.state == BodyIdentity {
      IdentityWhole(skip, m, s);
      var e := BulkNext(m, |s|).Completion();
      CutSnoc(c, Singles(Body, s), e);
      assert c.done + [Data(Body, s)] + [e] + [] == c.done + ([Data(Body, s)] + [e]);
    } else {
      ChunkWhole(skip, m, s);
      CutSnoc(c, Singles(Body, s), Data(Body, []));
      assert c.done + [Data(Body, s)] + [] == c.done + ([Data(Body, s)] + []);
    }
  }

  lemma ByteAdvance(skip: bool, m0: Machine, data: string, p: nat, m: Machine, out: seq<Event>)
    requires p < |data| && Run(skip, m0, data[..p]) == Live(m, out)
    ensures Run(skip, m0, data[..p+1]) == After(out, p, Step(skip, m, data[p]))
    ensures Step(skip, m, data[p]).Stopped? ==>
              Run(skip, m0, data) == After(out, p, Step(skip, m, data[p]))
  {
    hide Step;
    assert data[..p+1] == data[..p] + [data[p]];
    RunSnoc(skip, m0, data[..p], data[p]);
    assert data == data[..p+1] + data[p+1..];
    RunConcat(skip, m0, data[..p+1], data[p+1..]);
  }

  lemma StepOf(skip: bool, m: Machine, ch: char)
    requires !m.BulkState() && !Switch(skip, m, ch).AssertFailed?
    ensures var v := Switch(skip, m, ch);
            Step(skip, m, ch) ==
              if v.Next? then Live(v.m, Emitted(v.op, v.m.state, ch))
              else Stopped(if v.Error? then Malformed else SwitchedProtocol, 0, v.m, EmittedBeforeError(v.op))
  {
    hide Switch;
  }

  lemma FitsMarks(s: State, v: Verdict, fm: Option<nat>, vm: Option<nat>, p: nat)
    requires OpFits(s, v) && !v.AssertFailed?
    requires fm.Some? <==> s == HeaderField
    requires vm.Some? <==> s == HeaderValue
    requires fm.Some? ==> fm.value <= p
    requires vm.Some? ==> vm.value <= p
    ensures v.Next? || v.op.Notify? ==> MarksFit(v.op, fm, vm, p, if v.Next? then v.m.state else Dead)
    ensures v.Handover? ==> v.op.Notify?
    ensures v.Error? ==> v.op == Nothing || v.op.Notify?
    ensures !v.Next? && v.op.Notify? ==> fm.None? && vm.None?
  {}

  /** Everything the loop needs to know about the verdict on `data[p]`. */
  lemma ByteFacts(skip: bool, m0: Machine, l: Log, data: string, p: nat, m: Machine, out: seq<Event>,
                  fm: Option<nat>, vm: Option<nat>)
    requires p < |data| && !m.BulkState()
    requires Run(skip, m0, data[..p]) == Live(m, out)
    requires Inv(m0) && Agrees(m0, l)
    requires fm.Some? <==> m.state == HeaderField
    requires vm.Some? <==> m.state == HeaderValue
    requires fm.Some? ==> fm.value <= p
    requires vm.Some? ==> vm.value <= p
    ensures var v := Switch(skip, m, data[p]);
      && !v.AssertFailed?
      && (v.Next? || v.op.Notify? ==> MarksFit(v.op, fm, vm, p, if v.Next? then v.m.state else Dead))
      && (!v.Next? && v.op.Notify? ==> fm.None? && vm.None?)
      && (v.Handover? ==> v.op.Notify?)
      && (v.Error? ==> v.op == Nothing || v.op.Notify?)
      && (!v.Next? && v.op.Notify? ==> Emitted(v.op, Dead, data[p]) == EmittedBeforeError(v.op))
      && (v.Next? ==> Run(skip, m0, data[..p+1]) == Live(v.m, out + Emitted(v.op, v.m.state, data[p])))
      && (v.Error? ==> Run(skip, m0, data) == Stopped(Malformed, p, v.m, out + EmittedBeforeError(v.op)))
      && (v.Handover? ==> Run(skip, m0, data) == Stopped(SwitchedProtocol, p, v.m, out + EmittedBeforeError(v.op)))
      && (!v.Next? ==> Run(skip, m0, data[..p+1]) == Run(skip, m0, data))
  {
    hide Switch, Step, Run, Inv, Agrees, ObserveAll, LogAfter, OpFits, MarksFit;
    RunSound(skip, m0, data[..p], l);
    SwitchSound(skip, m, data[p], ObserveAll(l, out));
    SwitchOps(skip, m, data[p]);
    FitsMarks(m.state, Switch(skip, m, data[p]), fm, vm, p);
    StepOf(skip, m, data[p]);
    ByteAdvance(skip, m0, data, p, m, out);
  }

  // ----- what one operation does to the pile

  lemma PileGrows(c: Cut, k: Kind, s: string, ch: char)
    requires c.Valid() && SamePile(c.open, [Data(k, s)])
    ensures CutAll(c, [Data(k, [ch])]) == Cut(c.done, [Data(k, s + [ch])])
  {
    CutSingle(c, Data(k, [ch]));
    assert c.done + [] == c.done;
    assert s == [] ==> s + [ch] == [ch];
  }

  lemma PileExtended(c: Cut, data: string, fm: Option<nat>, vm: Option<nat>, p: nat, after: State)
    requires p < |data| && MarksFit(Nothing, fm, vm, p, after)
    requires c.Valid() && SamePile(c.open, Pending(data, fm, vm, p))
    ensures CutAll(c, Emitted(Nothing, after, data[p])) == Cut(c.done, Pending(data, fm, vm, p + 1))
  {
    hide CutOne, CutAll;
    if fm.Some? {
      PileGrows(c, Field, data[fm.value..p], data[p]);
      assert data[fm.value..p+1] == data[fm.value..p] + [data[p]];
    } else if vm.Some? {
      PileGrows(c, Value, data[vm.value..p], data[p]);
      assert data[vm.value..p+1] == data[vm.value..p] + [data[p]];
    } else {
      CutEmpty(c);
    }
  }

  lemma PileStarted(c: Cut, k: Kind, ch: char)
    requires c.open == []
    ensures CutAll(c, [Data(k, [ch])]) == Cut(c.done, [Data(k, [ch])])
  {
    CutSingle(c, Data(k, [ch]));
    assert c.done + [] == c.done;
  }

  /** A mark set at the current byte starts a pile with it. */
  lemma PileMarked(c: Cut, k: Kind, data: string, p: nat)
    requires p < |data| && c.open == []
    ensures CutAll(c, [Data(k, [data[p]])]) == Cut(c.done, [Data(k, data[p..p+1])])
  {
    PileStarted(c, k, data[p]);
    assert data[p..p+1] == [data[p]];
  }

  lemma PileClosed(c: Cut, k: Kind, s: string)
    requires c.Valid() && SamePile(c.open, [Data(k, s)])
    ensures CutAll(c, [Data(k, [])]) == Cut(c.done + [Data(k, s)], [])
  {
    CutSingle(c, Data(k, []));
    assert c.done + [] + [Data(k, [])] == c.done + [Data(k, [])];
  }

  // ----- the callbacks of a whole run

  /** The callbacks that a buffered parser makes for a run none of whose callbacks refuses. */
  function Callbacks(r: Result): seq<Event> {
    var c := CutAll(NOTHING, r.out);
    if r.Live? then c.Whole() else c.done
  }

  lemma OutGrows(skip: bool, m0: Machine, data: string, k: nat)
    requires k <= |data| && Run(skip, m0, data[..k]).Live?
    ensures Run(skip, m0, data[..k]).out <= Run(skip, m0, data).out
  {
    hide Step;
    assert data == data[..k] + data[k..];
    RunConcat(skip, m0, data[..k], data[k..]);
  }

  lemma DoneGrows(out: seq<Event>, all: seq<Event>)
    requires out <= all
    ensures CutAll(NOTHING, out).done <= CutAll(NOTHING, all).done
    ensures CutAll(NOTHING, all).Valid()
  {
    assert all == out + all[|out|..];
    CutConcat(NOTHING, out, all[|out|..]);
    CutGrows(NOTHING, out);
    CutGrows(CutAll(NOTHING, out), all[|out|..]);
  }

  /** A run that ends inside a field or value has left a pile. */
  lemma MarkingOpens(skip: bool, m0: Machine, data: string)
    requires data != []
    ensures var r := Run(skip, m0, data);
            r.Live? && Marking(r.m.state) ==> CutAll(NOTHING, r.out).open != []
  {
    var init, ch := data[..|data|-1], data[|data|-1];
    assert data == init + [ch];
    RunSnoc(skip, m0, init, ch);
    var r := Run(skip, m0, data);
    if r.Live? && Marking(r.m.state) {
      var before := Run(skip, m0, init);
      SwitchLeavesByte(skip, before.m, ch);
      var e := Step(skip, before.m, ch).out;
      assert e == [e[0]];
      CutSnoc(NOTHING, before.out, e[0]);
      hide Step, Run;
    }
  }

  lemma SwitchLeavesByte(skip: bool, m: Machine, ch: char)
    requires var r := Step(skip, m, ch); r.Live? && Marking(r.m.state)
    ensures var r := Step(skip, m, ch); |r.out| == 1 && r.out[0].Data? && r.out[0].bytes != []
  {
    hide Switch;
    if !m.BulkState() {
      SwitchOps(skip, m, ch);
    }
  }

  // ----- the loop of the buffered parser

  /**
   `data[..p]` is consumed: the locals are those of the byte-wise run, and the callbacks made, `t`,
   are all but the pile. The pile is what is marked, or body data that was delivered ahead up to
   the end of the buffer.
   */
  ghost predicate InSync(skip: bool, m0: Machine, t0: seq<Event>, data: string, p: nat,
                         m: Machine, fm: Option<nat>, vm: Option<nat>, out: seq<Event>, t: seq<Event>)
  {
    && p <= |data|
    && Run(skip, m0, data[..p]) == Live(m, out)
    && (fm.Some? <==> m.state == HeaderField) && (fm.Some? ==> fm.value <= p && (p == 0 || fm.value < p))
    && (vm.Some? <==> m.state == HeaderValue) && (vm.Some? ==> vm.value <= p && (p == 0 || vm.value < p))
    && Inv(m0) && Agrees(m0, ObserveAll(EMPTY_LOG, t0))
    && var c := CutAll(NOTHING, out);
       || (t == t0 + c.done && SamePile(c.open, Pending(data, fm, vm, p)))
       || (p == |data| && m.BulkState() && t == t0 + c.Whole())
  }

  /** Some callback of `data[..q]` was refused after the callbacks `t`. */
  ghost predicate RefusedBy(skip: bool, m0: Machine, t0: seq<Event>, data: string, t: seq<Event>) {
    var r := Run(skip, m0, data);
    t <= t0 + Callbacks(r) && !(r.Live? && Marking(r.m.state) && t == t0 + Callbacks(r))
  }

  /** The callbacks that are complete after `n` bytes. */
  function DoneBy(skip: bool, m0: Machine, data: string, n: nat): seq<Event>
    requires n <= |data|
  {
    CutAll(NOTHING, Run(skip, m0, data[..n]).out).done
  }

  /** Byte `n` is the one that makes the last callback of `t`. */
  ghost predicate MadeAt(skip: bool, m0: Machine, t0: seq<Event>, data: string, n: nat, t: seq<Event>) {
    && n < |data| && Run(skip, m0, data[..n]).Live?
    && |t0 + DoneBy(skip, m0, data, n)| < |t| && t <= t0 + DoneBy(skip, m0, data, n + 1)
  }

  lemma DoneByGrows(skip: bool, m0: Machine, data: string, n: nat, k: nat)
    requires n <= k <= |data| && Run(skip, m0, data[..n]).Live?
    ensures DoneBy(skip, m0, data, n) <= DoneBy(skip, m0, data, k)
  {
    hide Run, CutAll;
    assert data[..k][..n] == data[..n];
    OutGrows(skip, m0, data[..k], n);
    DoneGrows(Run(skip, m0, data[..n]).out, Run(skip, m0, data[..k]).out);
  }

  /** There is only one such byte. */
  lemma MadeOnce(skip: bool, m0: Machine, t0: seq<Event>, data: string, n: nat, k: nat, t: seq<Event>)
    requires MadeAt(skip, m0, t0, data, n, t) && MadeAt(skip, m0, t0, data, k, t)
    ensures n == k
  {
    hide DoneBy, Run;
    if n < k {
      MadeBefore(skip, m0, t0, data, n, k, t);
    } else if k < n {
      MadeBefore(skip, m0, t0, data, k, n, t);
    }
  }

  lemma MadeBefore(skip: bool, m0: Machine, t0: seq<Event>, data: string, n: nat, k: nat, t: seq<Event>)
    requires MadeAt(skip, m0, t0, data, n, t) && n < k <= |data| && Run(skip, m0, data[..k]).Live?
    ensures |t| <= |t0 + DoneBy(skip, m0, data, k)|
  {
    hide DoneBy, Run;
    LiveBefore(skip, m0, data, n + 1, k);
    DoneByGrows(skip, m0, data, n + 1, k);
  }

  lemma LiveBefore(skip: bool, m0: Machine, data: string, n: nat, k: nat)
    requires n <= k <= |data| && Run(skip, m0, data[..k]).Live?
    ensures Run(skip, m0, data[..n]).Live?
  {
    hide Run;
    assert data[..k] == data[..n] + data[n..k];
    RunConcat(skip, m0, data[..n], data[n..k]);
  }

  /** While a body lasts no callback is complete. */
  lemma BodyOpenDone(skip: bool, m0: Machine, data: string, p: nat, q: nat, m: Machine, out: seq<Event>)
    requires p <= q <= |data| && Run(skip, m0, data[..p]) == Live(m, out)
    requires m.state == BodyIdentity && q - p < m.contentLength && CutAll(NOTHING, out).open == []
    ensures Run(skip, m0, data[..q]).Live? && DoneBy(skip, m0, data, q) == CutAll(NOTHING, out).done
  {
    hide Step, Run, CutAll;
    var s, c := data[p..q], CutAll(NOTHING, out);
    IdentityPrefix(skip, m, s);
    BulkAdvance(skip, m0, data, p, q, m, out);
    CutConcat(NOTHING, out, Singles(Body, s));
    if s == [] {
      assert Singles(Body, s) == [];
      CutEmpty(c);
    } else {
      CutSingles(c, Body, s);
      assert c.done + [] == c.done;
    }
  }

  /** Its last byte makes the completion. */
  lemma BodyEndDone(skip: bool, m0: Machine, data: string, p: nat, q: nat, m: Machine, out: seq<Event>)
    requires p < q <= |data| && Run(skip, m0, data[..p]) == Live(m, out)
    requires m.state == BodyIdentity && q - p == m.contentLength && CutAll(NOTHING, out).open == []
    ensures DoneBy(skip, m0, data, q) == CutAll(NOTHING, out).done + BulkCalls(m, data[p..q])
  {
    hide Step, Run, CutAll;
    var s, c := data[p..q], CutAll(NOTHING, out);
    IdentityWhole(skip, m, s);
    BulkAdvance(skip, m0, data, p, q, m, out);
    var e := BulkNext(m, |s|).Completion();
    CutConcat(NOTHING, out, Singles(Body, s) + [e]);
    CutSingles(c, Body, s);
    CutSnoc(c, Singles(Body, s), e);
    assert c.done + [] + [Data(Body, s)] + [e] == c.done + ([Data(Body, s)] + [e]);
  }

  lemma BodyEndMade(skip: bool, m0: Machine, t0: seq<Event>, data: string, p: nat, q: nat,
                    m: Machine, out: seq<Event>, t: seq<Event>)
    requires InSync(skip, m0, t0, data, p, m, None, None, out, t)
    requires p < q <= |data| && m.state == BodyIdentity && q - p == m.contentLength
    ensures MadeAt(skip, m0, t0, data, q - 1, t + BulkCalls(m, data[p..q]))
  {
    hide Step, Run, Inv, Agrees, ObserveAll, CutAll, DoneBy;
    BodyOpenDone(skip, m0, data, p, q - 1, m, out);
    BodyEndDone(skip, m0, data, p, q, m, out);
    var c := CutAll(NOTHING, out);
    assert t0 + c.done + BulkCalls(m, data[p..q]) == t0 + (c.done + BulkCalls(m, data[p..q]));
  }

  /** A callback refused before the end of the buffer is one of those closed by then. */
  lemma MidRefusal(skip: bool, m0: Machine, t0: seq<Event>, data: string, q: nat, t: seq<Event>)
    requires 0 < q <= |data| && Run(skip, m0, data[..q]).Live?
    requires t <= t0 + CutAll(NOTHING, Run(skip, m0, data[..q]).out).done
    ensures RefusedBy(skip, m0, t0, data, t)
  {
    hide Run, CutAll;
    OutGrows(skip, m0, data, q);
    DoneGrows(Run(skip, m0, data[..q]).out, Run(skip, m0, data).out);
    MarkingOpens(skip, m0, data);
    var r := Run(skip, m0, data);
    var c, c1 := CutAll(NOTHING, Run(skip, m0, data[..q]).out), CutAll(NOTHING, r.out);
    assert t0 + c.done <= t0 + c1.done;
    assert t0 + c1.Whole() == (t0 + c1.done) + c1.open;
  }

  /** In a bulk state there is body data left to come. */
  lemma BodyDue(skip: bool, m0: Machine, t0: seq<Event>, data: string, p: nat,
                m: Machine, out: seq<Event>, t: seq<Event>)
    requires InSync(skip, m0, t0, data, p, m, None, None, out, t) && m.BulkState()
    ensures m.state != BodyIdentityEof ==> m.contentLength > 0
    ensures p <= |data|
  {
    hide Step, Run, CutAll, Agrees, ObserveAll;
    RunSound(skip, m0, data[..p], ObserveAll(EMPTY_LOG, t0));
  }

  /** One turn of the loop in a bulk state. */
  lemma BodyTurn(skip: bool, m0: Machine, t0: seq<Event>, data: string, p: nat, q: nat,
                 m: Machine, out: seq<Event>, t: seq<Event>)
    requires InSync(skip, m0, t0, data, p, m, None, None, out, t)
    requires p < q <= |data| && m.BulkState()
    requires m.state == BodyIdentityEof || q - p <= m.contentLength
    requires BulkOpen(m, data[p..q]) ==> q == |data|
    ensures var s := data[p..q]; var r := Run(skip, m0, data[..q]);
      && r.Live? && r.m == BulkNext(m, q - p)
      && InSync(skip, m0, t0, data, q, r.m, None, None, r.out, t + BulkCalls(m, s))
      && (!BulkOpen(m, s) ==> RefusedBy(skip, m0, t0, data, t + BulkCalls(m, s)))
  {
    hide Switch, Step, Run, Inv, Agrees, ObserveAll, CutAll, CutOne, BulkCalls, BulkNext, BulkOpen, RefusedBy;
    RunSound(skip, m0, data[..p], ObserveAll(EMPTY_LOG, t0));
    var s, c := data[p..q], CutAll(NOTHING, out);
    BulkRun(skip, m, s, c);
    BulkAdvance(skip, m0, data, p, q, m, out);
    CutConcat(NOTHING, out, Run(skip, m, s).out);
    var c1 := CutAll(NOTHING, out + Run(skip, m, s).out);
    assert t0 + c.done + BulkCalls(m, s) == t0 + c1.Whole();
    if !BulkOpen(m, s) {
      assert t0 + c1.Whole() == t0 + c1.done;
      MidRefusal(skip, m0, t0, data, q, t + BulkCalls(m, s));
    }
  }

  /** What the verdict `v` on `data[p]` means for the pile and for the run. */
  ghost predicate TurnFacts(skip: bool, m0: Machine, t0: seq<Event>, data: string, p: nat, v: Verdict,
                            fm: Option<nat>, vm: Option<nat>, out: seq<Event>, t: seq<Event>)
    requires p < |data| && !v.AssertFailed?
    requires fm.Some? ==> fm.value <= p
    requires vm.Some? ==> vm.value <= p
  {
    var after := if v.Next? then v.m.state else Dead;
    var e := Emitted(v.op, after, data[p]);
    var c := CutAll(NOTHING, out);
    && c.Valid() && t == t0 + c.done && SamePile(c.open, Pending(data, fm, vm, p))
    && CutAll(NOTHING, out + e) == CutAll(c, e)
    && (v.Error? ==> v.op == Nothing || v.op.Notify?)
    && (v.Handover? ==> v.op.Notify?)
    && (v.Error? && v.op == Nothing ==> Run(skip, m0, data) == Stopped(Malformed, p, v.m, out))
    && (!(v.Error? && v.op == Nothing) ==> MarksFit(v.op, fm, vm, p, after))
    && (v.Next? ==> Run(skip, m0, data[..p+1]) == Live(v.m, out + e))
    && (!v.Next? && v.op.Notify? ==>
          Run(skip, m0, data[..p+1]) == Run(skip, m0, data)
          == Stopped(if v.Error? then Malformed else SwitchedProtocol, p, v.m, out + e))
  }

  lemma ByteTurn(skip: bool, m0: Machine, t0: seq<Event>, data: string, p: nat,
                 m: Machine, fm: Option<nat>, vm: Option<nat>, out: seq<Event>, t: seq<Event>)
    requires InSync(skip, m0, t0, data, p, m, fm, vm, out, t)
    requires p < |data| && !m.BulkState()
    ensures !Switch(skip, m, data[p]).AssertFailed?
    ensures TurnFacts(skip, m0, t0, data, p, Switch(skip, m, data[p]), fm, vm, out, t)
  {
    hide Switch, Step, Run, Inv, Agrees, ObserveAll, CutAll, CutOne, Emitted, MarksFit;
    ByteFacts(skip, m0, ObserveAll(EMPTY_LOG, t0), data, p, m, out, fm, vm);
    CutGrows(NOTHING, out);
    var v := Switch(skip, m, data[p]);
    var after := if v.Next? then v.m.state else Dead;
    CutConcat(NOTHING, out, Emitted(v.op, after, data[p]));
    assert out + [] == out;
  }
}
