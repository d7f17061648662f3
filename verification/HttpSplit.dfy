/**
 Split independence: whatever pieces a stream arrives in, a response parser that accepts it
 ends in the same fields and has made the same callbacks, up to how data was cut; and one that
 does not stops at the same byte.
 */
module HttpSplit {
  import opened HttpEvents
  import opened HttpMachine
  import opened HttpInvariant
  import opened HttpCut
  import opened HttpClient
  import opened HttpMarks
  import opened HttpParser

  function Joined(pieces: seq<string>): string {
    if pieces == [] then [] else Joined(pieces[..|pieces|-1]) + pieces[|pieces|-1]
  }

  lemma JoinedSnoc(pieces: seq<string>, k: nat)
    requires k < |pieces|
    ensures Joined(pieces[..k+1]) == Joined(pieces[..k]) + pieces[k]
  {
    assert pieces[..k+1][..k] == pieces[..k];
  }

  lemma {:induction false} JoinedConcat(a: seq<string>, b: seq<string>)
    ensures Joined(a + b) == Joined(a) + Joined(b)
    decreases |b|
  {
    if b == [] {
      assert a + b == a;
    } else {
      var init, last := b[..|b|-1], b[|b|-1];
      assert (a + b)[..|a + b|-1] == a + init;
      JoinedConcat(a, init);
      assert Joined(a) + Joined(init) + last == Joined(a) + (Joined(init) + last);
    }
  }

  ghost predicate NeverRefuses<C(!new)>(deliver: (C, Event) -> (C, bool)) {
    forall c: C, e: Event :: deliver(c, e).1
  }

  lemma {:induction false} AlwaysAccepted<C(!new)>(deliver: (C, Event) -> (C, bool), c: C, es: seq<Event>)
    requires NeverRefuses(deliver)
    ensures Accepted(deliver, c, es)
    decreases |es|
  {
    if es != [] {
      AlwaysAccepted(deliver, c, es[..|es|-1]);
    }
  }

  lemma NextPiece(skip: bool, m0: Machine, pieces: seq<string>, k: nat, m: Machine, out: seq<Event>)
    requires k < |pieces| && Run(skip, m0, Joined(pieces[..k])) == Live(m, out)
    ensures var r := After(out, |Joined(pieces[..k])|, Run(skip, m, pieces[k]));
            && Run(skip, m0, Joined(pieces[..k+1])) == r
            && (r.Stopped? ==> Run(skip, m0, Joined(pieces)) == r)
  {
    hide Step;
    JoinedSnoc(pieces, k);
    RunConcat(skip, m0, Joined(pieces[..k]), pieces[k]);
    assert pieces == pieces[..k+1] + pieces[k+1..];
    JoinedConcat(pieces[..k+1], pieces[k+1..]);
    RunConcat(skip, m0, Joined(pieces[..k+1]), Joined(pieces[k+1..]));
  }

  /** The callbacks for one more piece, whichever way its data is cut. */
  lemma PieceNorm(t: seq<Event>, t0: seq<Event>, out: seq<Event>, r: Result)
    requires Norm(t) == Norm(t0 + out) && r.Live?
    ensures Norm(t + Callbacks(r)) == Norm(t0 + (out + r.out))
  {
    hide Norm, CutAll;
    NormCut(t, NOTHING, r.out);
    assert t + NOTHING.Whole() == t;
    NormCongruence(t, t0 + out, r.out);
    assert t0 + out + r.out == t0 + (out + r.out);
  }

  /** The fields that every exit saves. */
  predicate SharedFields(a: Machine, b: Machine) {
    && a.flags == b.flags && a.contentLength == b.contentLength && a.upgrade == b.upgrade
    && a.major == b.major && a.minor == b.minor && a.status == b.status
  }

  /** What a call that did not consume its piece says about the run over the piece. */
  lemma Unconsumed(skip: bool, m0: Machine, t0: seq<Event>, data: string, n: nat, exit: Exit,
                   fields: Machine, trace: seq<Event>)
    requires Reports(skip, m0, t0, data, n, exit, fields, trace) && exit != Consumed && exit != Refused
    ensures var r := Run(skip, m0, data);
      && r.Stopped? && n == r.at && n < |data| && SharedFields(fields, r.m)
      && (r.why == Malformed ==> fields.state == Dead)
  {
    RunStopsInside(skip, m0, data);
    hide Run, Callbacks;
  }

  /** Give a parser a stream in pieces; `whole` says that it consumed all of it, and `at` how much it did. */
  method Feed<C(!new)>(parser: Parser<C>, pieces: seq<string>) returns (whole: bool, at: nat)
    requires parser.Valid() && NeverRefuses(parser.deliver)
    requires forall s :: s in pieces ==> s != []
    modifies parser
    ensures var r := Run(parser.skipBody, old(parser.Fields()), Joined(pieces));
      && (whole <==> r.Live?)
      && (whole ==> && parser.Valid() && at == |Joined(pieces)| && parser.Fields() == r.m
                    && Norm(parser.trace) == Norm(old(parser.trace) + r.out))
      && (!whole ==> && at == r.at && SharedFields(parser.Fields(), r.m)
                     && (r.why == Malformed ==> parser.state == Dead))
  {
    hide Step, Run, Norm, CutAll, Callbacks, Accepted, Fold, Inv, Agrees, ObserveAll, Reports, RefusedAt;
    var k := 0;
    at := 0;
    ghost var m0, t0, out := parser.Fields(), parser.trace, [];
    RunEmpty(parser.skipBody, m0);
    assert t0 + [] == t0;
    while k < |pieces|
      invariant k <= |pieces| && at == |Joined(pieces[..k])|
      invariant parser.Valid()
      invariant Run(parser.skipBody, m0, Joined(pieces[..k])) == Live(parser.Fields(), out)
      invariant Norm(parser.trace) == Norm(t0 + out)
    {
      ghost var m, t := parser.Fields(), parser.trace;
      NextPiece(parser.skipBody, m0, pieces, k, m, out);
      assert pieces[k] in pieces;
      var n, exit := parser.Execute(pieces[k]);
      AlwaysAccepted(parser.deliver, parser.origin, parser.trace);
      at := at + n;
      if n != |pieces[k]| {
        AllConsumed(parser.skipBody, m, t, pieces[k], n, exit, parser.Fields(), parser.trace);
        Unconsumed(parser.skipBody, m, t, pieces[k], n, exit, parser.Fields(), parser.trace);
        return false, at;
      }
      ghost var r := Run(parser.skipBody, m, pieces[k]);
      AllConsumed(parser.skipBody, m, t, pieces[k], n, exit, parser.Fields(), parser.trace);
      PieceNorm(t, t0, out, r);
      out := out + r.out;
      JoinedSnoc(pieces, k);
      k := k + 1;
    }
    assert pieces[..|pieces|] == pieces;
    whole := true;
  }

  /** Without a refusal, the full length is returned exactly when everything was consumed. */
  lemma AllConsumed(skip: bool, m0: Machine, t0: seq<Event>, data: string, n: nat, exit: Exit,
                    fields: Machine, trace: seq<Event>)
    requires Reports(skip, m0, t0, data, n, exit, fields, trace) && exit != Refused
    ensures n == |data| <==> exit == Consumed
    ensures exit == Consumed ==>
      var r := Run(skip, m0, data); r.Live? && fields == r.m && trace == t0 + Callbacks(r)
  {
    RunStopsInside(skip, m0, data);
    hide Run, Callbacks;
  }

  /** A run stops at one of its bytes, never after the last one. */
  lemma {:induction false} RunStopsInside(skip: bool, m: Machine, data: string)
    ensures var r := Run(skip, m, data); r.Stopped? ==> r.at < |data|
    decreases |data|
  {
    hide Switch, Emitted;
    if data != [] {
      RunStopsInside(skip, m, data[..|data|-1]);
    }
  }

  /** Two parsers in the same state, one stream, two ways to cut it. */
  method SplitIndependence<C(!new)>(p: Parser<C>, q: Parser<C>, ps: seq<string>, qs: seq<string>)
    returns (wholeP: bool, atP: nat, wholeQ: bool, atQ: nat)
    requires p != q && p.Valid() && q.Valid()
    requires NeverRefuses(p.deliver) && NeverRefuses(q.deliver)
    requires p.Fields() == q.Fields() && p.skipBody == q.skipBody && Norm(p.trace) == Norm(q.trace)
    requires forall s :: s in ps || s in qs ==> s != []
    requires Joined(ps) == Joined(qs)
    modifies p, q
    ensures wholeP == wholeQ && atP == atQ && SharedFields(p.Fields(), q.Fields())
    ensures wholeP ==> p.Fields() == q.Fields() && Norm(p.trace) == Norm(q.trace)
  {
    hide Step, Run, Norm;
    ghost var r := Run(p.skipBody, p.Fields(), Joined(ps));
    NormCongruence(p.trace, q.trace, r.out);
    wholeP, atP := Feed(p, ps);
    wholeQ, atQ := Feed(q, qs);
  }
}
