/**
 The client of the parser: `settings` and `parser->data`. It is a value of any type S and a
 function `deliver` that takes each callback; its Boolean says whether the callback lets the
 parser go on.
 */
module HttpClient {
  import opened HttpEvents

  /** The client after the callbacks `es`. */
  function Fold<S>(deliver: (S, Event) -> (S, bool), c: S, es: seq<Event>): S {
    if es == [] then c else deliver(Fold(deliver, c, es[..|es|-1]), es[|es|-1]).0
  }

  predicate IsBody(e: Event) { e.Data? && e.kind == Body }

  /** No callback in `es` stopped the parser; what on_body returns is ignored. */
  predicate Accepted<S>(deliver: (S, Event) -> (S, bool), c: S, es: seq<Event>) {
    es == [] ||
    (var init, last := es[..|es|-1], es[|es|-1];
     && Accepted(deliver, c, init)
     && (IsBody(last) || deliver(Fold(deliver, c, init), last).1))
  }

  lemma FoldSnoc<S>(deliver: (S, Event) -> (S, bool), c: S, es: seq<Event>, e: Event)
    ensures Fold(deliver, c, es + [e]) == deliver(Fold(deliver, c, es), e).0
    ensures Accepted(deliver, c, es + [e]) <==>
            Accepted(deliver, c, es) && (IsBody(e) || deliver(Fold(deliver, c, es), e).1)
  {
    assert (es + [e])[..|es + [e]|-1] == es;
  }

  lemma {:induction false} AcceptedPrefix<S>(deliver: (S, Event) -> (S, bool), c: S, t: seq<Event>, u: seq<Event>)
    requires t <= u && Accepted(deliver, c, u)
    ensures Accepted(deliver, c, t)
    decreases |u|
  {
    if |t| < |u| {
      assert t <= u[..|u|-1];
      AcceptedPrefix(deliver, c, t, u[..|u|-1]);
    } else {
      assert t == u;
    }
  }
}
