/**
 From the byte-wise events of a run to the callbacks a buffered parser makes: data piles up until
 something closes it, and a pile is one callback.
 */
module HttpCut {
  import opened HttpEvents

  /** Callbacks made, and the data piled up since (nothing or one non-empty piece). */
  datatype Cut = Cut(done: seq<Event>, open: seq<Event>) {
    /** All callbacks, once the pile has been delivered too. */
    function Whole(): seq<Event> { done + open }

    ghost predicate Valid() {
      open == [] || (|open| == 1 && open[0].Data? && open[0].bytes != [])
    }
  }

  const NOTHING := Cut([], [])

  /** One more byte-wise event: a byte joins the pile, an empty piece of data closes it. */
  function CutOne(c: Cut, e: Event): Cut {
    if e.Data? && c.open != [] && c.open[0].Data? && c.open[0].kind == e.kind then
      if e.bytes == [] then Cut(c.done + c.open, [])
      else Cut(c.done, [Data(e.kind, c.open[0].bytes + e.bytes)])
    else if e.Data? && e.bytes != [] then Cut(c.done + c.open, [e])
    else Cut(c.done + c.open + [e], [])
  }

  function CutAll(c: Cut, es: seq<Event>): Cut {
    if es == [] then c else CutOne(CutAll(c, es[..|es|-1]), es[|es|-1])
  }

  lemma CutSnoc(c: Cut, es: seq<Event>, e: Event)
    ensures CutAll(c, es + [e]) == CutOne(CutAll(c, es), e)
  {
    assert (es + [e])[..|es + [e]|-1] == es;
  }

  lemma CutEmpty(c: Cut)
    ensures CutAll(c, []) == c
  {}

  lemma CutSingle(c: Cut, e: Event)
    ensures CutAll(c, [e]) == CutOne(c, e)
  {
    CutSnoc(c, [], e);
    assert [] + [e] == [e];
  }

  lemma {:induction false} CutConcat(c: Cut, a: seq<Event>, b: seq<Event>)
    ensures CutAll(c, a + b) == CutAll(CutAll(c, a), b)
    decreases |b|
  {
    if b == [] {
      assert a + b == a;
    } else {
      var b1, e := b[..|b|-1], b[|b|-1];
      assert b == b1 + [e] && a + b == (a + b1) + [e];
      CutConcat(c, a, b1);
      CutSnoc(c, a + b1, e);
      CutSnoc(CutAll(c, a), b1, e);
    }
  }

  /** Callbacks are never taken back. */
  lemma {:induction false} CutGrows(c: Cut, es: seq<Event>)
    requires c.Valid()
    ensures c.done <= CutAll(c, es).done && CutAll(c, es).Valid()
    decreases |es|
  {
    if es != [] {
      CutGrows(c, es[..|es|-1]);
    }
  }

  /** Events that are not data are callbacks of their own. */
  lemma {:induction false} CutNotes(c: Cut, es: seq<Event>)
    requires c.open == [] && forall e :: e in es ==> !e.Data?
    ensures CutAll(c, es) == Cut(c.done + es, [])
    decreases |es|
  {
    if es == [] {
      assert c.done + es == c.done;
    } else {
      var init, e := es[..|es|-1], es[|es|-1];
      assert es == init + [e];
      CutNotes(c, init);
      assert c.done + init + [] + [e] == c.done + es;
    }
  }

  /** A block of bytes with no pile before it is one pile. */
  lemma {:induction false} CutSingles(c: Cut, k: Kind, s: string)
    requires c.open == [] && s != []
    ensures CutAll(c, Singles(k, s)) == Cut(c.done, [Data(k, s)])
    decreases |s|
  {
    var init, last := s[..|s|-1], s[|s|-1];
    assert s == init + [last];
    SinglesSnoc(k, init, last);
    CutSnoc(c, Singles(k, init), Data(k, [last]));
    if init == [] {
      assert Singles(k, init) == [];
      assert c.done + [] == c.done;
    } else {
      CutSingles(c, k, init);
    }
  }

  lemma NormCutOne(t: seq<Event>, c: Cut, e: Event)
    requires c.Valid()
    ensures Norm(t + CutOne(c, e).Whole()) == Norm(t + c.Whole() + [e])
  {
    hide Norm;
    if e.Data? && c.open != [] && c.open[0].kind == e.kind {
      var u, x := t + c.done, c.open[0].bytes;
      assert c.open == [Data(e.kind, x)] && e == Data(e.kind, e.bytes);
      assert t + c.Whole() + [e] == u + [Data(e.kind, x)] + [e];
      if e.bytes == [] {
        NormEmptyData(u + [Data(e.kind, x)], e.kind);
        assert t + CutOne(c, e).Whole() == u + [Data(e.kind, x)];
      } else {
        NormSplitData(u, e.kind, x, e.bytes);
        assert t + CutOne(c, e).Whole() == u + [Data(e.kind, x + e.bytes)];
      }
    } else {
      assert t + CutOne(c, e).Whole() == t + c.Whole() + [e];
    }
  }

  /** Cutting data differently does not change the normal form. */
  lemma {:induction false} NormCut(t: seq<Event>, c: Cut, es: seq<Event>)
    requires c.Valid()
    ensures Norm(t + CutAll(c, es).Whole()) == Norm(t + c.Whole() + es)
    decreases |es|
  {
    hide Norm;
    if es == [] {
      assert t + c.Whole() + es == t + c.Whole();
    } else {
      var init, e := es[..|es|-1], es[|es|-1];
      assert es == init + [e];
      NormCut(t, c, init);
      CutGrows(c, init);
      NormCutOne(t, CutAll(c, init), e);
      NormCongruence(t + CutAll(c, init).Whole(), t + c.Whole() + init, [e]);
      assert t + c.Whole() + es == t + c.Whole() + init + [e];
    }
  }
}
