/**
 Runs through the three bulk states: n body bytes fed one at a time are one block of n bytes,
 and the bytes delivered plus the length still expected stay constant.
 */
module HttpBody {
  import opened HttpEvents
  import opened HttpMachine

  /** The machine after `k` more bytes of a body of known length. */
  function Reduced(m: Machine, k: nat): Machine
    requires k <= m.contentLength
  {
    m.(contentLength := m.contentLength - k)
  }

  lemma {:induction false} IdentityPrefix(skip: bool, m: Machine, s: string)
    requires m.state == BodyIdentity && |s| < m.contentLength
    ensures Run(skip, m, s) == Live(Reduced(m, |s|), Singles(Body, s))
    decreases |s|
  {
    hide Switch;
    if s != [] {
      var init, last := s[..|s|-1], s[|s|-1];
      IdentityPrefix(skip, m, init);
      SinglesSnoc(Body, init, last);
      assert s == init + [last];
    }
  }

  /** The last byte of an identity body completes the message. */
  lemma IdentityWhole(skip: bool, m: Machine, s: string)
    requires m.state == BodyIdentity && 0 < |s| == m.contentLength
    ensures var m1 := Reduced(m, |s|);
            Run(skip, m, s) == Live(m1.(state := m1.NewMessage()), Singles(Body, s) + [m1.Completion()])
  {
    hide Switch;
    var init, last := s[..|s|-1], s[|s|-1];
    IdentityPrefix(skip, m, init);
    SinglesSnoc(Body, init, last);
    assert s == init + [last];
    var e := Reduced(m, |s|).Completion();
    assert Singles(Body, init) + ([Data(Body, [last])] + [e]) == Singles(Body, s) + [e];
  }

  lemma {:induction false} ChunkPrefix(skip: bool, m: Machine, s: string)
    requires m.state == ChunkData && m.flags.chunked && |s| < m.contentLength
    ensures Run(skip, m, s) == Live(Reduced(m, |s|), Singles(Body, s))
    decreases |s|
  {
    hide Switch;
    if s != [] {
      var init, last := s[..|s|-1], s[|s|-1];
      ChunkPrefix(skip, m, init);
      SinglesSnoc(Body, init, last);
      assert s == init + [last];
    }
  }

  lemma ChunkWhole(skip: bool, m: Machine, s: string)
    requires m.state == ChunkData && m.flags.chunked && 0 < |s| == m.contentLength
    ensures Run(skip, m, s) ==
            Live(Reduced(m, |s|).(state := ChunkDataAlmostDone), Singles(Body, s) + [Data(Body, [])])
  {
    hide Switch;
    var init, last := s[..|s|-1], s[|s|-1];
    ChunkPrefix(skip, m, init);
    SinglesSnoc(Body, init, last);
    assert s == init + [last];
    assert Singles(Body, init) + ([Data(Body, [last])] + [Data(Body, [])]) == Singles(Body, s) + [Data(Body, [])];
  }

  lemma {:induction false} EofRun(skip: bool, m: Machine, s: string)
    requires m.state == BodyIdentityEof
    ensures Run(skip, m, s) == Live(m, Singles(Body, s))
    decreases |s|
  {
    hide Switch;
    if s != [] {
      var init, last := s[..|s|-1], s[|s|-1];
      EofRun(skip, m, init);
      SinglesSnoc(Body, init, last);
      assert s == init + [last];
    }
  }
}
