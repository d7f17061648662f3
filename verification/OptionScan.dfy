/**
 Command lines as a list of words: which words are options, which are their arguments, and which are
 left over, decided from left to right.
 */
module OptionScan {
  import opened Options

  const OPTION_NAME_MAX: nat := 128
  const OSTR: string := "vhas:u:r:p:"

  datatype LongOpt = LongOpt(name: string, hasArg: int, val: int)

  /** A word that does not look like an option; a lone dash is one of them. */
  predicate Plain(w: string) { |w| < 2 || w[0] != '-' }

  // ----- long options

  /** The option name of a long option word: up to '=' or the end. */
  function NameEnd(w: string, j: nat): (e: nat)
    requires j <= |w|
    ensures j <= e <= |w| && (e == |w| || w[e] == '=') && '=' !in w[j..e]
    decreases |w| - j
  {
    if j == |w| || w[j] == '=' then j else NameEnd(w, j + 1)
  }

  /** The option's name begins with what was typed, which is not empty and not too long. */
  predicate Begins(typed: string, o: LongOpt) {
    0 < |typed| <= OPTION_NAME_MAX && typed <= o.name
  }

  /** Places among the first `n` options whose name is what was typed, or begins with it. */
  function Hits(typed: string, opts: seq<LongOpt>, n: nat, exact: bool): (h: seq<nat>)
    requires n <= |opts|
    ensures forall k: nat :: k in h <==> k < n && Begins(typed, opts[k]) && (opts[k].name == typed) == exact
  {
    if n == 0 then []
    else
      var h := Hits(typed, opts, n - 1, exact);
      if Begins(typed, opts[n - 1]) && (opts[n - 1].name == typed) == exact then h + [n - 1] else h
  }

  datatype Choice = Unknown | Ambiguous | One(index: nat)

  /** The option that was meant: the one of that name, or else the only one that begins so. */
  function Choose(typed: string, opts: seq<LongOpt>): (c: Choice)
    ensures c.One? ==> c.index < |opts| && Begins(typed, opts[c.index])
  {
    var exact, partial := Hits(typed, opts, |opts|, true), Hits(typed, opts, |opts|, false);
    if |exact| > 1 || (|exact| == 0 && |partial| > 1) then Ambiguous
    else if |exact| == 1 then assert exact[0] in exact; One(exact[0])
    else if |partial| == 1 then assert partial[0] in partial; One(partial[0])
    else Unknown
  }

  ghost predicate Increasing(h: seq<nat>) { forall i, j :: 0 <= i < j < |h| ==> h[i] < h[j] }

  lemma {:induction false} HitsIncrease(typed: string, opts: seq<LongOpt>, n: nat, exact: bool)
    requires n <= |opts|
    ensures Increasing(Hits(typed, opts, n, exact))
  {
    if n > 0 {
      HitsIncrease(typed, opts, n - 1, exact);
      var h, h' := Hits(typed, opts, n, exact), Hits(typed, opts, n - 1, exact);
      forall i, j | 0 <= i < j < |h|
        ensures h[i] < h[j]
      {
        if j == |h'| {
          assert h'[i] in h' && h[i] == h'[i] && h[j] == n - 1;
        } else {
          assert h[i] == h'[i] && h[j] == h'[j];
        }
      }
    }
  }

  lemma ChosenAlone(h: seq<nat>, k: nat)
    requires Increasing(h)
    ensures |h| == 1 && h[0] == k <==> k in h && forall m: nat :: m in h ==> m == k
  {
    if |h| > 1 {
      assert h[0] in h && h[1] in h && h[0] != h[1];
    }
  }

  /** An option is chosen if nothing else fits, or if it fits exactly and nothing else does. */
  lemma ChooseMeans(typed: string, opts: seq<LongOpt>, k: nat)
    requires k < |opts|
    ensures Choose(typed, opts) == One(k) <==>
      Begins(typed, opts[k]) && forall m: nat :: m < |opts| && m != k && Begins(typed, opts[m]) ==>
        opts[k].name == typed && opts[m].name != typed
  {
    var exact, partial := Hits(typed, opts, |opts|, true), Hits(typed, opts, |opts|, false);
    HitsIncrease(typed, opts, |opts|, true);
    HitsIncrease(typed, opts, |opts|, false);
    ChosenAlone(exact, k);
    ChosenAlone(partial, k);
    if |exact| > 0 {
      assert exact[0] in exact;
    }
    if |partial| > 0 {
      assert partial[0] in partial;
    }
    if |exact| > 1 {
      assert exact[1] in exact;
    }
    if |partial| > 1 {
      assert partial[1] in partial;
    }
  }

  // ----- reading one option

  /** What stands at the front of the remaining words. */
  datatype Reading =
    | Nothing                                   // no option
    | Bare                                      // "--": the end of the options
    | Cluster                                   // several letters after one dash: not supported, not consumed
    | Unclear                                   // a long option that may be several: not consumed
    | Item(code: int, seen: int, size: nat, arg: Option<string>, longidx: int)
      // value for the caller, option that was read, words used up, argument, place among the long options

  function ReadLong(ws: seq<string>, opts: seq<LongOpt>): (r: Reading)
    requires |ws| > 0 && |ws[0]| > 2
    ensures r.Unclear? || (r.Item? && 1 <= r.size <= 2 && r.size <= |ws|)
  {
    var w := ws[0];
    var e := NameEnd(w, 2);
    match Choose(w[2..e], opts)
    case Ambiguous => Unclear
    case Unknown => Item('?' as int, 0, 1, None, -1)
    case One(k) =>
      if e < |w| then Item(opts[k].val, opts[k].val, 1, Some(w[e + 1..]), k)
      else if opts[k].hasArg == 0 then Item(opts[k].val, opts[k].val, 1, None, k)
      else if |ws| > 1 then Item(opts[k].val, opts[k].val, 2, Some(ws[1]), k)
      else if opts[k].hasArg == 1 then Item(':' as int, opts[k].val, 1, None, k)
      else Item(opts[k].val, opts[k].val, 1, None, k)
  }

  /** The first place of a letter in the option string. */
  function Place(c: char, s: string): (p: Option<nat>)
    ensures p.None? ==> c !in s
    ensures p.Some? ==> p.value < |s| && s[p.value] == c && c !in s[..p.value]
  {
    if s == "" then None
    else if s[0] == c then Some(0)
    else
      match Place(c, s[1..])
      case None => None
      case Some(k) => Some(k + 1)
  }

  /** The letter wants an argument: a colon follows it in the option string. */
  predicate WantsArg(p: nat, s: string) { p + 1 < |s| && s[p + 1] == ':' }

  function ReadShort(ws: seq<string>): (r: Reading)
    requires |ws| > 0 && |ws[0]| == 2
    ensures r.Item? && 1 <= r.size <= 2 && r.size <= |ws|
  {
    var c := ws[0][1];
    match Place(c, OSTR)
    case None => Item('?' as int, c as int, 1, None, -1)
    case Some(p) =>
      if !WantsArg(p, OSTR) then Item(c as int, c as int, 1, None, -1)
      else if |ws| > 1 then Item(c as int, c as int, 2, Some(ws[1]), -1)
      else Item(':' as int, c as int, 1, None, -1)
  }

  function Read(ws: seq<string>, opts: seq<LongOpt>): (r: Reading)
    ensures Taken(r) <= |ws|
  {
    if ws == [] || Plain(ws[0]) then Nothing
    else if ws[0] == "--" then Bare
    else if ws[0][1] == '-' then ReadLong(ws, opts)
    else if |ws[0]| == 2 then ReadShort(ws)
    else Cluster
  }

  /** Words used up. */
  function Taken(r: Reading): nat {
    match r case Bare => 1 case Item(_, _, size, _, _) => size case _ => 0
  }

  /** The value returned to the caller. */
  function Code(r: Reading): int {
    match r case Unclear => '?' as int case Item(code, _, _, _, _) => code case _ => -1
  }

  /** The caller stops at a negative value, at '?' and at ':'. */
  predicate Stops(code: int) { code < 0 || code == '?' as int || code == ':' as int }

  /** How many words before the first option. */
  function Skips(ws: seq<string>): (k: nat)
    ensures k <= |ws|
    ensures forall i :: 0 <= i < k ==> Plain(ws[i])
    ensures k < |ws| ==> !Plain(ws[k])
  {
    if ws == [] || !Plain(ws[0]) then 0 else 1 + Skips(ws[1..])
  }

  // ----- a whole command line

  /** Options in order, the words they took, the words passed over, the words not looked at, and the
   reading that ended it. */
  datatype Result = Result(items: seq<Reading>, used: seq<string>, passed: seq<string>, rest: seq<string>, end: Reading)

  function Scan(ws: seq<string>, opts: seq<LongOpt>): (r: Result)
    ensures |r.used| + |r.passed| + |r.rest| == |ws|
    decreases |ws|
  {
    var k := Skips(ws);
    var after := ws[k..];
    var o := Read(after, opts);
    var n := Taken(o);
    if o.Item? && n > 0 && !Stops(o.code) then
      var t := Scan(after[n..], opts);
      Result([o] + t.items, after[..n] + t.used, ws[..k] + t.passed, t.rest, t.end)
    else Result([], after[..n], ws[..k], after[n..], o)
  }

  /** `ws` is `a` and `b` shuffled together, each in its order. */
  ghost predicate Shuffle(ws: seq<string>, a: seq<string>, b: seq<string>)
    decreases |ws|
  {
    if ws == [] then a == [] && b == []
    else
      (a != [] && ws[0] == a[0] && Shuffle(ws[1..], a[1..], b))
      || (b != [] && ws[0] == b[0] && Shuffle(ws[1..], a, b[1..]))
  }

  lemma {:induction false} ShuffleFront(front: seq<string>, ws: seq<string>, a: seq<string>, b: seq<string>)
    requires Shuffle(ws, a, b)
    ensures Shuffle(front + ws, front + a, b) && Shuffle(front + ws, a, front + b)
    decreases |front|
  {
    if front == [] {
      assert front + ws == ws && front + a == a && front + b == b;
    } else {
      ShuffleFront(front[1..], ws, a, b);
      assert (front + ws)[1..] == front[1..] + ws;
      assert (front + a)[1..] == front[1..] + a;
      assert (front + b)[1..] == front[1..] + b;
    }
  }

  lemma ShuffleStep(x: seq<string>, y: seq<string>, ws: seq<string>, a: seq<string>, b: seq<string>)
    requires Shuffle(ws, a, b)
    ensures Shuffle(x + (y + ws), y + a, x + b)
  {
    ShuffleFront(y, ws, a, b);
    ShuffleFront(x, y + ws, y + a, b);
  }

  lemma ScanMore(ws: seq<string>, opts: seq<LongOpt>, k: nat, o: Reading, n: nat)
    requires k == Skips(ws) && o == Read(ws[k..], opts) && n == Taken(o) <= |ws| - k
    requires o.Item? && n > 0 && !Stops(o.code)
    ensures var t := Scan(ws[k + n..], opts);
      Scan(ws, opts) == Result([o] + t.items, ws[k..k + n] + t.used, ws[..k] + t.passed, t.rest, t.end)
  {
    hide Read, Skips;
    assert ws[k..][n..] == ws[k + n..] && ws[k..][..n] == ws[k..k + n];
  }

  lemma ScanEnd(ws: seq<string>, opts: seq<LongOpt>, k: nat, o: Reading, n: nat)
    requires k == Skips(ws) && o == Read(ws[k..], opts) && n == Taken(o) <= |ws| - k
    requires !(o.Item? && n > 0 && !Stops(o.code))
    ensures Scan(ws, opts) == Result([], ws[k..k + n], ws[..k], ws[k + n..], o)
  {
    hide Read, Skips;
    assert ws[k..][n..] == ws[k + n..] && ws[k..][..n] == ws[k..k + n];
  }

  /** Options used and plain words passed over, each in order, and then the rest. */
  ghost predicate Partitions(ws: seq<string>, r: Result) {
    var n := |r.used| + |r.passed|;
    n <= |ws| && Shuffle(ws[..n], r.used, r.passed) && ws[n..] == r.rest
  }

  lemma PartitionMore(ws: seq<string>, k: nat, n: nat, t: Result, items: seq<Reading>)
    requires k + n <= |ws| && Partitions(ws[k + n..], t)
    ensures Partitions(ws, Result(items, ws[k..k + n] + t.used, ws[..k] + t.passed, t.rest, t.end))
  {
    hide Shuffle;
    var x, y, tail, m := ws[..k], ws[k..k + n], ws[k + n..], |t.used| + |t.passed|;
    ShuffleStep(x, y, tail[..m], t.used, t.passed);
    assert ws[..k + n + m] == x + (y + tail[..m]);
    assert ws[k + n + m..] == tail[m..];
  }

  lemma PartitionEnd(ws: seq<string>, k: nat, n: nat, end: Reading)
    requires k + n <= |ws|
    ensures Partitions(ws, Result([], ws[k..k + n], ws[..k], ws[k + n..], end))
  {
    hide Shuffle;
    var x, y := ws[..k], ws[k..k + n];
    NoShuffle();
    ShuffleStep(x, y, [], [], []);
    assert x + (y + []) == ws[..k + n] && y + [] == y && x + [] == x;
  }

  /** The scan is a stable partition of the words before the rest. */
  lemma {:induction false} ScanPartitions(ws: seq<string>, opts: seq<LongOpt>)
    ensures Partitions(ws, Scan(ws, opts))
    decreases |ws|
  {
    hide Read, Skips, Scan, Partitions;
    var k := Skips(ws);
    var o := Read(ws[k..], opts);
    var n := Taken(o);
    if o.Item? && n > 0 && !Stops(o.code) {
      ScanMore(ws, opts, k, o, n);
      ScanPartitions(ws[k + n..], opts);
      PartitionMore(ws, k, n, Scan(ws[k + n..], opts), [o] + Scan(ws[k + n..], opts).items);
    } else {
      ScanEnd(ws, opts, k, o, n);
      PartitionEnd(ws, k, n, o);
    }
  }

  lemma NoShuffle()
    ensures Shuffle([], [], [])
  {}

  lemma {:induction false} ShuffleBag(ws: seq<string>, a: seq<string>, b: seq<string>)
    requires Shuffle(ws, a, b)
    ensures multiset(ws) == multiset(a + b)
    decreases |ws|
  {
    if ws == [] {
    } else if a != [] && ws[0] == a[0] && Shuffle(ws[1..], a[1..], b) {
      ShuffleBag(ws[1..], a[1..], b);
      assert ws == [ws[0]] + ws[1..] && a + b == [a[0]] + (a[1..] + b);
    } else {
      ShuffleBag(ws[1..], a, b[1..]);
      assert ws == [ws[0]] + ws[1..] && b == [b[0]] + b[1..] && a + b == a + [b[0]] + b[1..];
      assert multiset(a + b) == multiset(a) + multiset{b[0]} + multiset(b[1..]);
    }
  }
}
