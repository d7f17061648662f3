/**
 Header lines. The parser matches names and values one character at a time; here the result is
 compared with what a header means: its name and value as whole strings.
 */
module HttpHeaders {
  import opened Octets
  import opened HttpMachine

  const CONNECTION := "connection"
  const PROXY_CONNECTION := "proxy-connection"
  const CONTENT_LENGTH := "content-length"
  const TRANSFER_ENCODING := "transfer-encoding"
  const UPGRADE := "upgrade"
  const CHUNKED := "chunked"
  const KEEP_ALIVE := "keep-alive"
  const CLOSE := "close"

  /** `w` is a proper prefix of `word`, at least `from` long. */
  predicate Partial(w: string, word: string, from: nat) {
    from <= |w| < |word| && w == word[..|w|]
  }

  /** The sub-state that a lower-case name must have led to. */
  function Heard(w: string): HeaderState {
    if IsPadded(CONNECTION, w) || IsPadded(PROXY_CONNECTION, w) then Connection
    else if IsPadded(CONTENT_LENGTH, w) then ContentLength
    else if IsPadded(TRANSFER_ENCODING, w) then TransferEncoding
    else if IsPadded(UPGRADE, w) then Upgrade
    else if Partial(w, CONNECTION, 1) then
      if |w| == 1 then C else if |w| == 2 then CO else if |w| == 3 then CON else MatchingConnection
    else if Partial(w, PROXY_CONNECTION, 1) then MatchingProxyConnection
    else if Partial(w, CONTENT_LENGTH, 4) then MatchingContentLength
    else if Partial(w, TRANSFER_ENCODING, 1) then MatchingTransferEncoding
    else if Partial(w, UPGRADE, 1) then MatchingUpgrade
    else General
  }

  lemma PartialSnoc(w: string, c: char, word: string, from: nat)
    ensures Partial(w + [c], word, from) <==>
            from <= |w| + 1 < |word| && w == word[..|w|] && word[|w|] == c
  {
    if |w| < |word| {
      assert word[..|w|+1] == word[..|w|] + [word[|w|]];
      if w + [c] == word[..|w|+1] {
        assert w == (w + [c])[..|w|] == word[..|w|+1][..|w|] == word[..|w|];
      }
    }
  }

  lemma PaddedSnoc(w: string, c: char, word: string)
    ensures IsPadded(word, w + [c]) <==>
            (IsPadded(word, w) && c == ' ') || (|w| + 1 == |word| && w == word[..|w|] && word[|w|] == c)
  {
    var u := w + [c];
    if |word| <= |w| {
      assert u[..|word|] == w[..|word|];
      assert forall i :: |word| <= i < |w| ==> w[i] == u[i];
      assert u[|w|] == c;
    } else if |w| + 1 == |word| {
      assert u[..|word|] == u;
      assert word == word[..|w|] + [word[|w|]];
      assert u[..|w|] == w && u[|w|] == c;
      assert u == word ==> word[..|w|] == w;
    }
  }

  /** The first and the fourth letter tell the words apart. */
  predicate Landmarks(w: string, first: char, fourth: char, word: string)
    requires |word| > 3
  {
    && word[0] == first && word[3] == fourth
    && (IsPadded(word, w) || (|w| <= |word| && w == word[..|w|]) ==>
          (|w| > 0 ==> w[0] == first) && (|w| > 3 ==> w[3] == fourth))
  }

  lemma LandmarksHold(w: string, word: string)
    requires |word| > 3
    ensures Landmarks(w, word[0], word[3], word)
  {
    if IsPadded(word, w) {
      assert w[..|word|][0] == w[0] && w[..|word|][3] == w[3];
    }
  }

  lemma AllLandmarks(w: string)
    ensures Landmarks(w, 'c', 'n', CONNECTION) && Landmarks(w, 'p', 'x', PROXY_CONNECTION)
    ensures Landmarks(w, 'c', 't', CONTENT_LENGTH) && Landmarks(w, 't', 'n', TRANSFER_ENCODING)
    ensures Landmarks(w, 'u', 'r', UPGRADE)
  {
    LandmarksHold(w, CONNECTION);
    LandmarksHold(w, PROXY_CONNECTION);
    LandmarksHold(w, CONTENT_LENGTH);
    LandmarksHold(w, TRANSFER_ENCODING);
    LandmarksHold(w, UPGRADE);
  }

  /** A field name `w` has been read: the sub-state is the one `w` calls for, and the index is its end. */
  ghost predicate Hears(m: Machine, w: string) {
    && w != []
    && m.hstate == Heard(w)
    && (m.hstate == General || m.hstate == Connection || m.hstate == ContentLength
        || m.hstate == TransferEncoding || m.hstate == Upgrade || m.index == |w| - 1)
  }

  /** How one more character affects one word. */
  predicate Snoc(w: string, c: char, word: string, from: nat) {
    && (Partial(w + [c], word, from) <==> from <= |w| + 1 < |word| && w == word[..|w|] && word[|w|] == c)
    && (IsPadded(word, w + [c]) <==>
          (IsPadded(word, w) && c == ' ') || (|w| + 1 == |word| && w == word[..|w|] && word[|w|] == c))
  }

  lemma SnocFacts(w: string, c: char)
    ensures Snoc(w, c, CONNECTION, 1) && Snoc(w, c, PROXY_CONNECTION, 1) && Snoc(w, c, CONTENT_LENGTH, 4)
    ensures Snoc(w, c, TRANSFER_ENCODING, 1) && Snoc(w, c, UPGRADE, 1)
  {
    PartialSnoc(w, c, CONNECTION, 1);
    PartialSnoc(w, c, PROXY_CONNECTION, 1);
    PartialSnoc(w, c, CONTENT_LENGTH, 4);
    PartialSnoc(w, c, TRANSFER_ENCODING, 1);
    PartialSnoc(w, c, UPGRADE, 1);
    PaddedSnoc(w, c, CONNECTION);
    PaddedSnoc(w, c, PROXY_CONNECTION);
    PaddedSnoc(w, c, CONTENT_LENGTH);
    PaddedSnoc(w, c, TRANSFER_ENCODING);
    PaddedSnoc(w, c, UPGRADE);
  }

  /** What one more character does to `Heard` in the middle of a word. */
  predicate Follows(w: string, c: char, word: string, done: HeaderState) {
    |w| < |word| &&
    Heard(w + [c]) == if c != word[|w|] then General else if |w| + 1 == |word| then done else Heard(w)
  }

  lemma HeardGeneral(w: string, c: char)
    requires w != [] && Heard(w) == General
    ensures Heard(w + [c]) == General
  {
    SnocFacts(w, c);
    AllLandmarks(w);
    AllLandmarks(w + [c]);
  }

  predicate Ended(h: HeaderState) { h == Connection || h == ContentLength || h == TransferEncoding || h == Upgrade }

  lemma HeardSpace(w: string)
    requires w != [] && Ended(Heard(w))
    ensures Heard(w + [' ']) == Heard(w)
  {
    SnocFacts(w, ' ');
    AllLandmarks(w);
  }

  lemma HeardMore(w: string, c: char)
    requires w != [] && Ended(Heard(w)) && c != ' '
    ensures Heard(w + [c]) == General
  {
    SnocFacts(w, c);
    AllLandmarks(w);
  }

  lemma HeardDone(w: string, c: char)
    requires w != [] && Ended(Heard(w))
    ensures Heard(w + [c]) == if c == ' ' then Heard(w) else General
  {
    hide Heard;
    if c == ' ' {
      HeardSpace(w);
    } else {
      HeardMore(w, c);
    }
  }

  lemma HeardShort(w: string, c: char)
    requires w != []
    ensures Heard(w) == C ==> Heard(w + [c]) == if c == 'o' then CO else General
    ensures Heard(w) == CO ==> Heard(w + [c]) == if c == 'n' then CON else General
    ensures Heard(w) == CON ==> Heard(w + [c]) == if c == 'n' then MatchingConnection
                                                  else if c == 't' then MatchingContentLength else General
  {
    SnocFacts(w, c);
    AllLandmarks(w);
    AllLandmarks(w + [c]);
    assert CONTENT_LENGTH[..3] == CONNECTION[..3];
  }

  lemma HeardConnection(w: string, c: char)
    requires w != []
    ensures Heard(w) == MatchingConnection ==> Follows(w, c, CONNECTION, Connection)
  {
    SnocFacts(w, c);
    AllLandmarks(w);
    AllLandmarks(w + [c]);
  }

  lemma HeardProxyConnection(w: string, c: char)
    requires w != []
    ensures Heard(w) == MatchingProxyConnection ==> Follows(w, c, PROXY_CONNECTION, Connection)
  {
    SnocFacts(w, c);
    AllLandmarks(w);
    AllLandmarks(w + [c]);
  }

  lemma HeardContentLength(w: string, c: char)
    requires w != []
    ensures Heard(w) == MatchingContentLength ==> Follows(w, c, CONTENT_LENGTH, ContentLength)
  {
    SnocFacts(w, c);
    AllLandmarks(w);
    AllLandmarks(w + [c]);
  }

  lemma HeardTransferEncoding(w: string, c: char)
    requires w != []
    ensures Heard(w) == MatchingTransferEncoding ==> Follows(w, c, TRANSFER_ENCODING, TransferEncoding)
  {
    SnocFacts(w, c);
    AllLandmarks(w);
    AllLandmarks(w + [c]);
  }

  lemma HeardUpgrade(w: string, c: char)
    requires w != []
    ensures Heard(w) == MatchingUpgrade ==> Follows(w, c, UPGRADE, Upgrade)
  {
    SnocFacts(w, c);
    AllLandmarks(w);
    AllLandmarks(w + [c]);
  }

  predicate Settled(h: HeaderState) {
    h == General || h == Connection || h == ContentLength || h == TransferEncoding || h == Upgrade
  }

  /** The new machine differs from the old one in its sub-state and index, and hears one letter more. */
  ghost predicate NameGrows(v: Verdict, m: Machine, w: string) {
    && v.Next? && v.op == Nothing && v.m == m.(hstate := v.m.hstate, index := v.m.index) && Hears(v.m, w)
  }

  lemma MatchGrows(m: Machine, c: char, w: string, word: string, done: HeaderState)
    requires Hears(m, w) && !Settled(m.hstate) && Follows(w, c, word, done) && Settled(done)
    ensures NameGrows(Next(Match(m, c, word, done), Nothing), m, w + [c])
  {
    hide Heard;
  }

  lemma ShortGrows(m: Machine, ch: char, c: char, w: string)
    requires Hears(m, w) && (m.hstate == C || m.hstate == CO || m.hstate == CON)
    ensures NameGrows(NameChar(m, ch, c), m, w + [c])
  {
    HeardShort(w, c);
    hide Heard;
  }

  lemma SettledGrows(m: Machine, ch: char, c: char, w: string)
    requires Hears(m, w) && Settled(m.hstate) && (c == ' ' <==> ch == ' ')
    ensures NameGrows(NameChar(m, ch, c), m, w + [c])
  {
    hide Heard;
    if m.hstate == General {
      HeardGeneral(w, c);
    } else {
      HeardDone(w, c);
    }
  }

  /** A token character inside a name keeps the sub-state in step with the name. */
  lemma NameStep(m: Machine, ch: char, c: char, w: string)
    requires Hears(m, w) && c != NUL && (c == ' ' <==> ch == ' ')
    ensures NameGrows(NameChar(m, ch, c), m, w + [c])
  {
    HeardStates(w);
    hide Heard, Follows, Match, NameGrows;
    if Settled(m.hstate) {
      SettledGrows(m, ch, c, w);
    } else if m.hstate == C || m.hstate == CO || m.hstate == CON {
      ShortGrows(m, ch, c, w);
    } else if m.hstate == MatchingConnection {
      HeardConnection(w, c);
      MatchGrows(m, c, w, CONNECTION, Connection);
    } else if m.hstate == MatchingProxyConnection {
      HeardProxyConnection(w, c);
      MatchGrows(m, c, w, PROXY_CONNECTION, Connection);
    } else if m.hstate == MatchingContentLength {
      HeardContentLength(w, c);
      MatchGrows(m, c, w, CONTENT_LENGTH, ContentLength);
    } else if m.hstate == MatchingTransferEncoding {
      HeardTransferEncoding(w, c);
      MatchGrows(m, c, w, TRANSFER_ENCODING, TransferEncoding);
    } else {
      HeardUpgrade(w, c);
      MatchGrows(m, c, w, UPGRADE, Upgrade);
    }
  }

  lemma HeardStates(w: string)
    ensures var h := Heard(w);
      h == General || h == C || h == CO || h == CON || h == MatchingConnection || h == MatchingProxyConnection
      || h == MatchingContentLength || h == MatchingTransferEncoding || h == MatchingUpgrade
      || h == Connection || h == ContentLength || h == TransferEncoding || h == Upgrade
  {}

  // ----- values

  /** The sub-state after the characters `w` (lower case) of a Connection value. */
  function HeardConnectionValue(w: string): HeaderState {
    if IsPadded(KEEP_ALIVE, w) then KeepAlive
    else if IsPadded(CLOSE, w) then Close
    else if Partial(w, KEEP_ALIVE, 1) then MatchingKeepAlive
    else if Partial(w, CLOSE, 1) then MatchingClose
    else General
  }

  /** The sub-state after the characters `w` (lower case) of a Transfer-Encoding value. */
  function HeardEncodingValue(w: string): HeaderState {
    if IsPadded(CHUNKED, w) then Chunked
    else if Partial(w, CHUNKED, 1) then MatchingChunked
    else General
  }

  ghost predicate Plain(ch: char) { ch != CR && ch != LF }

  lemma ConnectionValueStep(m: Machine, ch: char, w: string)
    requires Plain(ch) && w != [] && m.hstate == HeardConnectionValue(w)
    requires m.hstate == MatchingKeepAlive || m.hstate == MatchingClose ==> m.index == |w| - 1
    ensures var v := ValueChar(m, ch); var h := HeardConnectionValue(w + [ToLower(ch)]);
      && v.Next? && v.op == Nothing && v.m == m.(hstate := h, index := v.m.index)
      && (h == MatchingKeepAlive || h == MatchingClose ==> v.m.index == |w|)
  {
    var c := ToLower(ch);
    PartialSnoc(w, c, KEEP_ALIVE, 1);
    PartialSnoc(w, c, CLOSE, 1);
    PaddedSnoc(w, c, KEEP_ALIVE);
    PaddedSnoc(w, c, CLOSE);
    LandmarksHold(w, KEEP_ALIVE);
    LandmarksHold(w, CLOSE);
    if |w| < 10 { OrBit5IsLowerCase(ch, KEEP_ALIVE[|w|]); }
    if |w| < 5 { OrBit5IsLowerCase(ch, CLOSE[|w|]); }
    hide OrBit5;
  }

  lemma EncodingValueStep(m: Machine, ch: char, w: string)
    requires Plain(ch) && w != [] && m.hstate == HeardEncodingValue(w)
    requires m.hstate == MatchingChunked ==> m.index == |w| - 1
    ensures var v := ValueChar(m, ch); var h := HeardEncodingValue(w + [ToLower(ch)]);
      && v.Next? && v.op == Nothing && v.m == m.(hstate := h, index := v.m.index)
      && (h == MatchingChunked ==> v.m.index == |w|)
  {
    var c := ToLower(ch);
    PartialSnoc(w, c, CHUNKED, 1);
    PaddedSnoc(w, c, CHUNKED);
    if |w| < 7 { OrBit5IsLowerCase(ch, CHUNKED[|w|]); }
    hide OrBit5;
  }
}
