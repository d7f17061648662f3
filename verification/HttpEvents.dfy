/**
 The callbacks of `http_parser_settings`, as a trace, and the normal form that forgets how a
 run of data was cut into callbacks.
 */
module HttpEvents {

  datatype Kind = Field | Value | Body

  datatype Event =
    | Begin
    | Data(kind: Kind, bytes: string)
    | HeadersComplete(major: nat, minor: nat, status: nat, keepAlive: bool)
    | MessageComplete(keepAlive: bool)

  /** Append one event to a normal form: adjacent data of one kind is one event. */
  function Merge(t: seq<Event>, e: Event): seq<Event> {
    if e.Data? && |t| > 0 && t[|t|-1].Data? && t[|t|-1].kind == e.kind
    then t[..|t|-1] + [Data(e.kind, t[|t|-1].bytes + e.bytes)]
    else t + [e]
  }

  function MergeAll(t: seq<Event>, es: seq<Event>): seq<Event> {
    if es == [] then t else Merge(MergeAll(t, es[..|es|-1]), es[|es|-1])
  }

  /** The trace with adjacent callbacks for the same kind of data joined. */
  function Norm(t: seq<Event>): seq<Event> {
    MergeAll([], t)
  }

  /** One data event for each character: what a parser fed byte by byte reports. */
  function Singles(k: Kind, s: string): (es: seq<Event>)
    ensures |es| == |s|
  {
    seq(|s|, i requires 0 <= i < |s| => Data(k, [s[i]]))
  }

  lemma {:induction false} MergeAllConcat(t: seq<Event>, a: seq<Event>, b: seq<Event>)
    ensures MergeAll(t, a + b) == MergeAll(MergeAll(t, a), b)
    decreases |b|
  {
    if b == [] {
      assert a + b == a;
    } else {
      assert (a + b)[..|a + b|-1] == a + b[..|b|-1];
      MergeAllConcat(t, a, b[..|b|-1]);
    }
  }

  lemma NormConcat(a: seq<Event>, b: seq<Event>)
    ensures Norm(a + b) == MergeAll(Norm(a), b)
  {
    MergeAllConcat([], a, b);
  }

  /** The normal form of an extended trace depends only on the normal form of the trace. */
  lemma NormCongruence(a: seq<Event>, b: seq<Event>, c: seq<Event>)
    requires Norm(a) == Norm(b)
    ensures Norm(a + c) == Norm(b + c)
  {
    NormConcat(a, c);
    NormConcat(b, c);
  }

  lemma MergeAllOne(t: seq<Event>, e: Event)
    ensures MergeAll(t, [e]) == Merge(t, e)
  {
    assert [e][..0] == [];
  }

  lemma NormSnoc(t: seq<Event>, e: Event)
    ensures Norm(t + [e]) == Merge(Norm(t), e)
  {
    NormConcat(t, [e]);
    MergeAllOne(Norm(t), e);
  }

  lemma MergeTwice(t: seq<Event>, k: Kind, x: string, y: string)
    ensures Merge(Merge(t, Data(k, x)), Data(k, y)) == Merge(t, Data(k, x + y))
  {
    var u := Merge(t, Data(k, x));
    assert u[|u|-1].Data? && u[|u|-1].kind == k;
    if |t| > 0 && t[|t|-1].Data? && t[|t|-1].kind == k {
      assert (t[|t|-1].bytes + x) + y == t[|t|-1].bytes + (x + y);
      assert u[..|u|-1] == t[..|t|-1];
    } else {
      assert u[..|u|-1] == t;
    }
  }

  /** Cutting a piece of data in two does not change the normal form. */
  lemma NormSplitData(t: seq<Event>, k: Kind, x: string, y: string)
    ensures Norm(t + [Data(k, x)] + [Data(k, y)]) == Norm(t + [Data(k, x + y)])
  {
    NormSnoc(t, Data(k, x));
    NormSnoc(t + [Data(k, x)], Data(k, y));
    NormSnoc(t, Data(k, x + y));
    MergeTwice(Norm(t), k, x, y);
  }

  lemma SinglesSnoc(k: Kind, s: string, c: char)
    ensures Singles(k, s + [c]) == Singles(k, s) + [Data(k, [c])]
  {}

  lemma {:induction false} NormSingles(t: seq<Event>, k: Kind, s: string)
    requires s != []
    ensures Norm(t + Singles(k, s)) == Norm(t + [Data(k, s)])
    decreases |s|
  {
    var init, last := s[..|s|-1], s[|s|-1];
    assert s == init + [last];
    if init == [] {
      assert Singles(k, s) == [Data(k, s)];
    } else {
      NormSingles(t, k, init);
      SinglesSnoc(k, init, last);
      assert t + Singles(k, s) == (t + Singles(k, init)) + [Data(k, [last])];
      NormCongruence(t + Singles(k, init), t + [Data(k, init)], [Data(k, [last])]);
      NormSplitData(t, k, init, [last]);
    }
  }

  lemma NormSinglesThen(t: seq<Event>, k: Kind, s: string, e: Event)
    requires s != []
    ensures Norm(t + (Singles(k, s) + [e])) == Norm(t + [Data(k, s)] + [e])
  {
    NormSingles(t, k, s);
    NormCongruence(t + Singles(k, s), t + [Data(k, s)], [e]);
    assert t + Singles(k, s) + [e] == t + (Singles(k, s) + [e]);
  }

  /** An empty data event after data of the same kind disappears. */
  lemma NormEmptyData(t: seq<Event>, k: Kind)
    requires |t| > 0 && t[|t|-1].Data? && t[|t|-1].kind == k
    ensures Norm(t + [Data(k, [])]) == Norm(t)
  {
    var u, e := t[..|t|-1], t[|t|-1];
    assert t == u + [e];
    NormSplitData(u, k, e.bytes, []);
    assert e.bytes + [] == e.bytes;
  }

  // ----- what the normal form keeps

  /** A trace with its data spelled out, one event for each byte. */
  function Spelled(t: seq<Event>): seq<Event> {
    if t == [] then [] else Spelled(t[..|t|-1]) + SpelledOne(t[|t|-1])
  }

  function SpelledOne(e: Event): seq<Event> {
    if e.Data? then Singles(e.kind, e.bytes) else [e]
  }

  predicate SameKind(d: Event, e: Event) { d.Data? && e.Data? && d.kind == e.kind }

  /** Merging neither loses nor moves a byte or a callback. */
  lemma {:induction false} NormSpelled(t: seq<Event>)
    ensures Spelled(Norm(t)) == Spelled(t)
    decreases |t|
  {
    hide Norm, SpelledOne;
    if t == [] {
      NormNone();
    } else {
      var init, e := t[..|t|-1], t[|t|-1];
      assert t == init + [e];
      NormSpelled(init);
      NormSnoc(init, e);
      SpelledMerge(Norm(init), e);
    }
  }

  lemma NormNone()
    ensures Norm([]) == []
  {}

  lemma SpelledMerge(t: seq<Event>, e: Event)
    ensures Spelled(Merge(t, e)) == Spelled(t) + SpelledOne(e)
  {
    if t != [] && SameKind(t[|t|-1], e) {
      var init, d := t[..|t|-1], t[|t|-1];
      var u := init + [Data(e.kind, d.bytes + e.bytes)];
      assert u[..|u|-1] == init && u[|u|-1] == Data(e.kind, d.bytes + e.bytes);
      assert Singles(e.kind, d.bytes + e.bytes) == Singles(e.kind, d.bytes) + Singles(e.kind, e.bytes);
      assert Spelled(init) + (SpelledOne(d) + SpelledOne(e)) == Spelled(init) + SpelledOne(d) + SpelledOne(e);
    } else {
      assert (t + [e])[..|t + [e]|-1] == t;
    }
  }

  /** Nothing is left to merge. */
  lemma {:induction false} NormMerged(t: seq<Event>)
    ensures var n := Norm(t); forall i :: 0 <= i < |n| - 1 ==> !SameKind(n[i], n[i + 1])
    decreases |t|
  {
    hide Norm;
    if t == [] {
      NormNone();
    } else {
      var init, e := t[..|t|-1], t[|t|-1];
      assert t == init + [e];
      NormMerged(init);
      NormSnoc(init, e);
      var n, u := Norm(init), Norm(t);
      forall i | 0 <= i < |u| - 1
        ensures !SameKind(u[i], u[i + 1])
      {
        assert u[i] == n[i];
        assert i + 1 < |n| ==> !SameKind(n[i], n[i + 1]);
      }
    }
  }
}
