/**
 Where the body of a response ends: section 4.4 of RFC 2616 beside what the parser does. The two
 rules differ, and this is exactly where and with what effect.
 */
module HttpFraming {
  import opened Octets
  import opened HttpEvents
  import opened HttpMachine
  import L = HttpLines
  import opened HttpHead
  import opened HttpMessages
  import opened Options

  // ----- the rule of the standard

  /** Responses that never have a body, whatever their headers say. */
  predicate Bodyless(status: nat) { 100 <= status <= 199 || status == 204 || status == 304 }

  /**
   Section 4.4: `head` says that the response answers a HEAD request. Multipart ranges, which delimit
   themselves, are not considered.
   */
  function RfcFraming(head: bool, status: nat, chunked: bool, length: Option<nat>): Framing {
    if head || Bodyless(status) then NoBody
    else if chunked then Chunks
    else match length
      case Some(n) => if n == 0 then NoBody else Length(n)
      case None => ToEof
  }

  /** The Content-Length of a head, if it has one. */
  function Announced(s: L.Meaning): Option<nat> {
    if s.contentLength >= 0 then Some(s.contentLength) else None
  }

  function RfcFramingOf(head: bool, status: nat, s: L.Meaning): Framing {
    RfcFraming(head, status, s.flags.chunked, Announced(s))
  }

  /** The heads after which the parser follows the rule. */
  predicate Follows(head: bool, status: nat, s: L.Meaning, keepAlive: bool) {
    head ||
    if Bodyless(status) then !s.flags.chunked && (s.contentLength == 0 || (s.contentLength < 0 && keepAlive))
    else s.flags.chunked || s.contentLength >= 0 || !keepAlive
  }

  lemma FramingFollows(head: bool, status: nat, s: L.Meaning, keepAlive: bool)
    requires s.contentLength >= -1 && (s.flags.skipBody ==> head)
    ensures FramingOf(head, s, keepAlive) == RfcFramingOf(head, status, s) <==> Follows(head, status, s, keepAlive)
  {}

  /** After a head, the parser is where the rule of section 4.4 wants it exactly in the cases of `Follows`. */
  lemma HeadEndByRfc(head: bool, m: Machine, crlf: bool)
    requires m.state == HeaderFieldStart && L.Room(m, |L.EndOfLine(crlf)|)
    requires !m.flags.trailing && !m.upgrade && !m.flags.upgrade && !m.flags.skipBody && m.contentLength >= -1
    ensures var r := Run(head, m, L.EndOfLine(crlf)); var f := RfcFramingOf(head, m.status, L.MeaningOf(m));
      r.Live? && r.out == HeadEvents(m, f) && r.m.state == FirstBodyState(m, f)
      <==> Follows(head, m.status, L.MeaningOf(m), m.ShouldKeepAlive())
  {
    hide Run;
    HeadEnd(head, m, crlf);
    FramingFollows(head, m.status, L.MeaningOf(m), m.ShouldKeepAlive());
  }

  // ----- whole responses

  function Status(r: Response): nat
    requires StatusLineOk(r.status)
  {
    DecimalValue(r.status.status)
  }

  /** The body is framed by the rule of the standard. */
  ghost predicate RfcBodyOk(skip: bool, r: Response)
    requires HeadOk(skip, r)
  {
    FramedAs(RfcFramingOf(skip, Status(r), HeadMeaning(skip, r)), r.body)
  }

  ghost predicate HeadFollows(skip: bool, r: Response)
    requires HeadOk(skip, r)
  {
    var s := HeadMeaning(skip, r);
    Follows(skip, Status(r), s, Persistent(r.status, s.flags))
  }

  lemma OneFraming(f: Framing, g: Framing, b: BodyText)
    requires FramedAs(f, b) && FramedAs(g, b)
    ensures f == g
  {
    hide ChunkOk, SizeOk, ExtOk, L.HeaderOk;
  }

  /** A response framed by the standard is one framed by the parser exactly if its head follows the rule. */
  lemma RfcResponses(skip: bool, r: Response)
    requires HeadOk(skip, r) && RfcBodyOk(skip, r)
    ensures ResponseOk(skip, r) <==> HeadFollows(skip, r)
  {
    hide FramedAs, ApplyBlock, L.HeaderOk, DecimalValue, StatusLineOk;
    BlockKeepsTrailing(NO_MEANING, r.headers);
    var s := HeadMeaning(skip, r);
    FramingFollows(skip, Status(r), s, Persistent(r.status, s.flags));
    if ResponseOk(skip, r) {
      OneFraming(FramingOf(skip, s, Persistent(r.status, s.flags)), RfcFramingOf(skip, Status(r), s), r.body);
    }
  }

  /** The other way round: the parser expects the standard's framing exactly after a head that follows the rule. */
  lemma ParserResponses(skip: bool, r: Response)
    requires ResponseOk(skip, r)
    ensures RfcBodyOk(skip, r) <==> HeadFollows(skip, r)
  {
    hide FramedAs, ApplyBlock, L.HeaderOk, DecimalValue, StatusLineOk;
    BlockKeepsTrailing(NO_MEANING, r.headers);
    var s := HeadMeaning(skip, r);
    FramingFollows(skip, Status(r), s, Persistent(r.status, s.flags));
    if RfcBodyOk(skip, r) {
      OneFraming(FramingOf(skip, s, Persistent(r.status, s.flags)), RfcFramingOf(skip, Status(r), s), r.body);
    }
  }

  // ----- what the parser does where it does not follow the rule

  lemma {:induction false} BlockIsData(hs: seq<L.Header>)
    ensures forall e :: e in BlockEvents(hs) ==> e.Data?
    decreases |hs|
  {
    if hs != [] {
      BlockIsData(hs[..|hs|-1]);
    }
  }

  /** A bodyless response whose head announces a body: the parser has taken all of it and waits for that body. */
  lemma BodylessWaits(m: Machine, r: Response)
    requires m.state == StartRes && !m.upgrade && HeadFits(m, |HeadText(r)|)
    requires HeadOk(false, r) && RfcBodyOk(false, r) && Bodyless(Status(r)) && !HeadFollows(false, r)
    ensures var res := Run(false, m, ResponseText(r)); var s := HeadMeaning(false, r);
      && res.Live? && (forall e :: e in res.out ==> !e.MessageComplete?)
      && res.m.contentLength == s.contentLength
      && res.m.state == if s.flags.chunked then ChunkSizeStart
                        else if s.contentLength > 0 then BodyIdentity else BodyIdentityEof
  {
    hide Run, HeadText, BlockEvents, ApplyBlock, DecimalValue, L.HeaderOk;
    HeadRun(false, m, r);
    BlockKeepsTrailing(NO_MEANING, r.headers);
    BlockIsData(r.headers);
    assert HeadText(r) + [] == HeadText(r);
  }

  /**
   A response that ends with the stream, on a connection that is kept: the parser completes the message
   at the end of the head, and what follows must be the next message.
   */
  lemma CloseIgnored(m: Machine, r: Response)
    requires m.state == StartRes && !m.upgrade && HeadFits(m, |HeadText(r)|)
    requires HeadOk(false, r) && RfcBodyOk(false, r) && !Bodyless(Status(r)) && !HeadFollows(false, r)
    ensures var h := Run(false, m, HeadText(r));
      && r.body.UntilEof? && h.Live? && h.m.state == StartRes
      && h.out == [Begin] + BlockEvents(r.headers) + HeadEvents(h.m, NoBody)
    ensures r.body.bytes != [] && r.body.bytes[0] != 'H' && r.body.bytes[0] != CR && r.body.bytes[0] != LF ==>
              var res := Run(false, m, ResponseText(r));
              res.Stopped? && res.why == Malformed && res.at == |HeadText(r)|
  {
    hide Run, Step, HeadText, BlockEvents, ApplyBlock, DecimalValue, L.HeaderOk;
    HeadRun(false, m, r);
    BlockKeepsTrailing(NO_MEANING, r.headers);
    var h := Run(false, m, HeadText(r));
    var bytes := r.body.bytes;
    if bytes != [] && bytes[0] != 'H' && bytes[0] != CR && bytes[0] != LF {
      NoStart(h.m, bytes[0]);
      assert bytes == [bytes[0]] + bytes[1..];
      RunOne(false, h.m, bytes[0]);
      RunConcat(false, h.m, [bytes[0]], bytes[1..]);
      RunConcat(false, m, HeadText(r), bytes);
    }
  }

  lemma NoStart(m: Machine, ch: char)
    requires m.state == StartRes && ch != 'H' && ch != CR && ch != LF
    ensures var r := Step(false, m, ch); r.Stopped? && r.why == Malformed && r.at == 0
  {}
}
