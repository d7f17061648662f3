/**
 The status that a caller finds after a call, whatever the call returned: the number in the last
 status line that was read.
 */
module MurlStatus {
  import opened Octets
  import opened HttpEvents
  import opened HttpMachine
  import opened HttpInvariant
  import opened HttpCut
  import opened HttpClient
  import opened HttpMarks
  import L = HttpLines
  import opened HttpHead
  import opened HttpMessages
  import opened MurlHttp
  import opened MurlResponses
  import opened MurlTruncation

  /** Inside a status line. */
  predicate InStatusLine(s: State) {
    match s
    case ResH | ResHT | ResHTT | ResHTTP | ResFirstMajor | ResMajor | ResFirstMinor | ResMinor
       | ResFirstStatusCode | ResStatusCode | ResStatus | ResLineAlmostDone => true
    case _ => false
  }

  lemma BodyStays(m: Machine, ch: char)
    requires m.BulkState()
    ensures var r := BodyByte(m, ch); r.Live? ==> !InStatusLine(r.m.state)
  {}

  lemma BlockStays(m: Machine, ch: char)
    ensures var v := BlockEnd(false, m, ch); v.Next? ==> !InStatusLine(v.m.state)
  {}

  lemma ChunkStays(m: Machine, ch: char)
    ensures var v := ChunkChar(m, ch); v.Next? ==> !InStatusLine(v.m.state)
  {
    hide Unhex;
  }

  lemma NameStays(m: Machine, ch: char)
    ensures m.state == HeaderField ==> var v := FieldChar(m, ch); v.Next? ==> !InStatusLine(v.m.state)
  {
    hide Token, NameChar;
    NameCharStays(m, ch, Token(ch));
  }

  lemma NameCharStays(m: Machine, ch: char, c: char)
    ensures var v := NameChar(m, ch, c); v.Next? ==> v.m.state == m.state
  {}

  lemma ValuesStay(m: Machine, ch: char)
    ensures m.state == HeaderValueStart ==> var v := ValueStart(m, ch); v.Next? ==> !InStatusLine(v.m.state)
    ensures m.state == HeaderValue ==> var v := ValueChar(m, ch); v.Next? ==> !InStatusLine(v.m.state)
  {
    hide OrBit5, ClosedFlags;
  }

  lemma FeedStatus(m: Machine, ch: char)
    ensures var v := LineEnd(m, ch, Nothing);
      v.m.status == m.status && !v.AssertFailed? && (v.Next? ==> !InStatusLine(v.m.state))
  {}

  /** The status is kept, and no status line is entered. */
  predicate Outside(m: Machine, r: Result) {
    r.m.status == m.status && (r.Live? ==> !InStatusLine(r.m.state))
  }

  lemma StartOutside(m: Machine, ch: char)
    requires (m.state == StartRes && ch != 'H') || m.state == Dead
    ensures Outside(m, Step(false, m, ch))
  {}

  lemma BlockOutside(m: Machine, ch: char)
    requires m.state == HeaderField || m.state == HeaderFieldStart || m.state == HeadersAlmostDone
    ensures Outside(m, Step(false, m, ch))
  {
    hide FieldChar, BlockEnd, Token;
    var n := Counted(m);
    BlockStays(n, ch);
    BlockStays(n.(state := HeadersAlmostDone), ch);
    NameStays(n, ch);
    HeaderStatus(false, n, ch);
    HeaderStatus(false, n.(state := HeadersAlmostDone), ch);
    NameStatus(n, ch);
  }

  lemma ValueOutside(m: Machine, ch: char)
    requires m.state == HeaderValueStart || m.state == HeaderValue || m.state == HeaderAlmostDone
    ensures Outside(m, Step(false, m, ch))
  {
    hide ValueStart, ValueChar, LineEnd;
    var n := Counted(m);
    ValuesStay(n, ch);
    ValueStatus(n, ch);
    FeedStatus(n, ch);
  }

  lemma ChunkOutside(m: Machine, ch: char)
    requires ChunkState(m.state) && !m.BulkState()
    ensures Outside(m, Step(false, m, ch))
  {
    hide ChunkChar;
    ChunkStays(m, ch);
    HeaderStatus(false, m, ch);
  }

  /** Only the letter H at the start of a message leads into a status line. */
  lemma StepOutside(m: Machine, ch: char)
    requires !InStatusLine(m.state) && (m.state == StartRes ==> ch != 'H')
    ensures Outside(m, Step(false, m, ch))
  {
    if m.BulkState() {
      BodyStays(m, ch);
      BodyStatus(m, ch);
      hide BodyByte;
    } else {
      hide Step, Outside;
      if ChunkState(m.state) {
        ChunkOutside(m, ch);
      } else if m.state == StartRes || m.state == Dead {
        StartOutside(m, ch);
      } else if m.state == HeaderField || m.state == HeaderFieldStart || m.state == HeadersAlmostDone {
        BlockOutside(m, ch);
      } else {
        ValueOutside(m, ch);
      }
    }
  }

  /** From here on no other message starts. */
  ghost predicate NoOtherStart(text: string, from: nat) {
    forall k :: from <= k < |text| && RunOf(text[..k]).Live? && RunOf(text[..k]).m.state == StartRes ==> text[k] != 'H'
  }

  lemma {:induction false} StatusStays(text: string, from: nat, n: nat)
    requires from <= n <= |text| && NoOtherStart(text, from)
    requires RunOf(text[..from]).Live? && !InStatusLine(RunOf(text[..from]).m.state)
    ensures var r := RunOf(text[..n]);
      r.m.status == RunOf(text[..from]).m.status && (r.Live? ==> !InStatusLine(r.m.state))
    decreases n
  {
    hide Step, Run;
    if from < n {
      StatusStays(text, from, n - 1);
      assert text[..n] == text[..n - 1] + [text[n - 1]];
      RunSnoc(false, INITIAL, text[..n - 1], text[n - 1]);
      var r := RunOf(text[..n - 1]);
      if r.Live? {
        StepOutside(r.m, text[n - 1]);
      }
    }
  }

  /** A message may begin here: everything before it was taken. */
  ghost predicate Opening(a: string) {
    && RunOf(a).Live? && RunOf(a).m.state == StartRes
    && Accepted(Deliver, EMPTY_MSG, CallsOf(a))
  }

  /** The status line that follows, byte by byte. */
  lemma OpensLine(a: string, l: StatusLine)
    requires Opening(a) && StatusLineOk(l) && RunOf(a).m.nread + |StatusText(l)| <= MAX_HEADER_SIZE
    ensures var r := RunOf(a + StatusText(l));
      && r.Live? && r.m.state == HeaderFieldStart && r.m.status == DecimalValue(l.status)
      && r.out == RunOf(a).out + [Begin]
  {
    hide Step, Run, StatusText, DecimalValue, Accepted;
    var m := RunOf(a).m;
    assert |StatusText(l)| > 0 by { StatusTextParts(l); }
    StatusLineRun(false, m, l);
    L.Chain(false, INITIAL, a, m, RunOf(a).out, StatusText(l), AfterStatusLine(m, l), [Begin]);
  }

  lemma LineTaken(a: string, l: StatusLine, rest: string)
    requires Opening(a) && RunOf(a + StatusText(l)).Live?
    requires RunOf(a + StatusText(l)).out == RunOf(a).out + [Begin]
    ensures ReadUpTo(a + StatusText(l) + rest) >= |a + StatusText(l)|
  {
    hide Step, Run, StatusText, Accepted, CutAll, TakenBy, ReadUpTo, Deliver;
    var text, n := a + StatusText(l) + rest, |a + StatusText(l)|;
    assert text[..n] == a + StatusText(l);
    CutSnoc(NOTHING, RunOf(a).out, Begin);
    assert DoneBy(false, INITIAL, text, n) == CallsOf(a) + [Begin];
    AssembledSnoc(CallsOf(a), Begin);
    BeginIsTaken(Assembled(CallsOf(a)));
    ReadUpToIs(text, 0);
    var k := ReadUpTo(text);
    if k < n {
      PartTaken(text, k + 1, n);
    }
  }

  lemma PartTaken(text: string, k: nat, n: nat)
    requires k <= n <= |text| && RunOf(text[..n]).Live? && Accepted(Deliver, EMPTY_MSG, DoneBy(false, INITIAL, text, n))
    ensures TakenBy(text, k)
  {
    hide Run, Accepted, DoneBy;
    LiveBefore(false, INITIAL, text, k, n);
    DoneByGrows(false, INITIAL, text, k, n);
    AcceptedPrefix(Deliver, EMPTY_MSG, DoneBy(false, INITIAL, text, k), DoneBy(false, INITIAL, text, n));
  }

  /**
   Whatever follows a status line, and whatever the call returns: the status is its number, unless
   another message begins.
   */
  lemma StatusKnown(a: string, l: StatusLine, rest: string)
    requires Opening(a) && StatusLineOk(l) && RunOf(a).m.nread + |StatusText(l)| <= MAX_HEADER_SIZE
    requires NoOtherStart(a + StatusText(l) + rest, |a + StatusText(l)|)
    ensures StatusLeft(a + StatusText(l) + rest) == DecimalValue(l.status)
  {
    hide Run, StatusText, Opening, DecimalValue, ReadUpTo, NoOtherStart;
    var text, n := a + StatusText(l) + rest, |a + StatusText(l)|;
    assert text[..n] == a + StatusText(l);
    OpensLine(a, l);
    LineTaken(a, l, rest);
    StatusStays(text, n, ReadUpTo(text));
  }

  /** A part of a response, or all of it, with at least the status line: the status is known. */
  lemma StatusOfPart(r: Response, n: nat)
    requires ResponseOk(false, r) && |HeadText(r)| <= MAX_HEADER_SIZE
    requires |StatusText(r.status)| <= n <= |ResponseText(r)|
    ensures StatusLeft(ResponseText(r)[..n]) == DecimalValue(r.status.status)
  {
    hide RunOf, StatusText, BlockText, TextOfBody, HeadOk, BodyOk, DecimalValue, StatusLeft, Opening;
    var text := ResponseText(r);
    StatusFirst(r);
    var l, k := r.status, |StatusText(r.status)|;
    var part := text[..n];
    assert part == "" + StatusText(l) + text[k..n];
    OpensEmpty();
    NoOtherStartInside(r, n);
    StatusKnown("", l, text[k..n]);
  }

  lemma OpensEmpty()
    ensures Opening("") && RunOf("").m.nread == 0
  {
    EmptyBuffer();
    NothingRefuses();
  }

  lemma StatusFirst(r: Response)
    requires HeadOk(false, r)
    ensures StatusText(r.status) <= ResponseText(r) && 0 < |StatusText(r.status)| <= |HeadText(r)|
    ensures StatusLineOk(r.status)
  {
    StatusTextParts(r.status);
    hide StatusText, BlockText, TextOfBody;
    assert ResponseText(r) == StatusText(r.status) + (BlockText(r.headers) + L.EndOfLine(r.crlf) + TextOfBody(r.body));
  }

  lemma NoOtherStartInside(r: Response, n: nat)
    requires ResponseOk(false, r) && |HeadText(r)| <= MAX_HEADER_SIZE
    requires |StatusText(r.status)| <= n <= |ResponseText(r)|
    ensures NoOtherStart(ResponseText(r)[..n], |StatusText(r.status)|)
  {
    hide Run, StatusText, HeadText, ResponseText, HeadOk, BodyOk;
    StatusFirst(r);
    var text, part := ResponseText(r), ResponseText(r)[..n];
    forall k | |StatusText(r.status)| <= k < n && RunOf(part[..k]).Live?
      ensures RunOf(part[..k]).m.state != StartRes
    {
      assert part[..k] == text[..k];
      RestInside(r, k);
      if r.body.UntilEof? && k >= |HeadText(r)| {
        OpenBody(r, k);
      }
    }
  }

  /** Behind the head of a response that ends with the stream there is nothing but body. */
  lemma OpenBody(r: Response, k: nat)
    requires ResponseOk(false, r) && |HeadText(r)| <= MAX_HEADER_SIZE && r.body.UntilEof?
    requires |HeadText(r)| <= k <= |ResponseText(r)|
    ensures RunOf(ResponseText(r)[..k]).Live? && RunOf(ResponseText(r)[..k]).m.state == BodyIdentityEof
  {
    hide Run, HeadText, ResponseText, HeadOk, BodyOk;
    TextStarts(r);
    EofAfterHead(r);
    var text, h := ResponseText(r), |HeadText(r)|;
    assert text[..h] == HeadText(r);
    EofGoesOn(text, h, k);
  }

  /** Another message does replace it: after a response that was taken, the next status line counts. */
  lemma StatusReplaced(r: Response, l: StatusLine)
    requires ResponseOk(false, r) && |HeadText(r)| <= MAX_HEADER_SIZE && Fits(r)
    requires EndState(false, r) == StartRes && StatusLineOk(l) && |StatusText(l)| <= MAX_HEADER_SIZE
    ensures StatusLeft(ResponseText(r) + StatusText(l)) == DecimalValue(l.status)
  {
    hide RunOf, StatusText, HeadText, ResponseText, HeadOk, BodyOk, DecimalValue, StatusLeft, EndState, Fits,
         CallsOf, Accepted;
    var a := ResponseText(r);
    EndToEnd(r);
    WholeTaken(a);
    StartsOver(r);
    assert a + StatusText(l) + "" == a + StatusText(l);
    StatusKnown(a, l, "");
  }

  lemma StartsOver(r: Response)
    requires ResponseOk(false, r) && |HeadText(r)| <= MAX_HEADER_SIZE && EndState(false, r) == StartRes
    ensures RunOf(ResponseText(r)).m.state == StartRes && RunOf(ResponseText(r)).m.nread == 0
  {
    hide Run, HeadText, ResponseText, ResponseOk, EndState, DecimalValue, Equiv, Calls;
    ResponseRun(false, INITIAL, r);
  }
}
