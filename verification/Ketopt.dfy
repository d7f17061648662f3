/**
 The option parser: each call reads one option, and moves it ahead of the plain words that were
 passed over, in place.
 */
module Ketopt {
  import opened Options
  import opened OptionScan

  /** `n` words from `at` on, moved to the left over the `m` words before them. */
  function Moved(a: seq<string>, at: nat, m: nat, n: nat): (r: seq<string>)
    requires m <= at && at + n <= |a|
    ensures |r| == |a|
  {
    a[..at - m] + a[at..at + n] + a[at - m..at] + a[at + n..]
  }

  /** Moves argv[j] over n elements to the left. */
  method Permute(argv: array<string>, j: nat, n: nat)
    requires n <= j < argv.Length
    modifies argv
    ensures argv[..] == Moved(old(argv[..]), j, n, 1)
  {
    var p := argv[j];
    var k := 0;
    while k < n
      invariant k <= n
      invariant forall x :: 0 <= x <= j - k ==> argv[x] == old(argv[x])
      invariant forall x :: j - k < x <= j ==> argv[x] == old(argv[x - 1])
      invariant forall x :: j < x < argv.Length ==> argv[x] == old(argv[x])
    {
      argv[j - k] := argv[j - k - 1];
      k := k + 1;
    }
    argv[j - k] := p;
    MovedOne(old(argv[..]), argv[..], j, n);
  }

  lemma MovedOne(was: seq<string>, now: seq<string>, j: nat, n: nat)
    requires n <= j < |was| == |now| && now[j - n] == was[j]
    requires forall x :: 0 <= x < j - n || j < x < |was| ==> now[x] == was[x]
    requires forall x :: j - n < x <= j ==> now[x] == was[x - 1]
    ensures now == Moved(was, j, n, 1)
  {}

  lemma MovedNone(a: seq<string>, at: nat, m: nat)
    requires m <= at <= |a|
    ensures Moved(a, at, m, 0) == a
  {}

  lemma MovedMore(a: seq<string>, at: nat, m: nat, n: nat)
    requires m <= at && at + n < |a|
    ensures Moved(Moved(a, at, m, n), at + n, m, 1) == Moved(a, at, m, n + 1)
  {}

  lemma LongWord(w: string)
    requires |w| >= 2 && w[0] == w[1] == '-' && w != "--"
    ensures |w| > 2
  {
    assert w == [w[0], w[1]] + w[2..];
  }

  lemma NoneToCross(a: seq<string>, at: nat, n: nat)
    requires at + n <= |a|
    ensures Moved(a, at, 0, n) == a
  {}

  class Ketopt {
    var ind: int
    var opt: int
    var arg: Option<string>
    var longidx: int
    var i: nat
    var pos: int
    var nArgs: nat

    constructor ()
      ensures ind == 1 && opt == 0 && arg == None && longidx == -1 && i == 1 && pos == 0 && nArgs == 0
    {
      ind, opt, arg, longidx, i, pos, nArgs := 1, 0, None, -1, 1, 0, 0;
    }

    /** Between two calls. */
    ghost predicate Ready(argv: array<string>)
      reads this, argv
    {
      pos == 0 && nArgs < i <= argv.Length
    }

    /** Counts the long options that begin with `typed`, and remembers the last of each kind. */
    static method FindLong(typed: string, opts: seq<LongOpt>) returns (nExact: nat, nPartial: nat, oExact: nat,
            oPartial: nat)
      ensures var h := Hits(typed, opts, |opts|, true); nExact == |h| && (h != [] ==> oExact == h[|h| - 1])
      ensures var h := Hits(typed, opts, |opts|, false); nPartial == |h| && (h != [] ==> oPartial == h[|h| - 1])
    {
      nExact, nPartial, oExact, oPartial := 0, 0, 0, 0;
      var k := 0;
      while k < |opts|
        invariant k <= |opts|
        invariant var h := Hits(typed, opts, k, true); nExact == |h| && (h != [] ==> oExact == h[|h| - 1])
        invariant var h := Hits(typed, opts, k, false); nPartial == |h| && (h != [] ==> oPartial == h[|h| - 1])
      {
        if Begins(typed, opts[k]) {
          if |opts[k].name| == |typed| {
            nExact, oExact := nExact + 1, k;
          } else {
            nPartial, oPartial := nPartial + 1, k;
          }
        }
        k := k + 1;
      }
    }

    /** A word that begins with two dashes. */
    method LongOption(argv: array<string>, opts: seq<LongOpt>) returns (c: int, unclear: bool)
      requires i < argv.Length && |argv[i]| > 2 && arg == None && longidx == -1
      modifies `opt, `arg, `longidx, `i, `pos
      ensures old(i) <= i < argv.Length && pos == -1 && unclear == ReadLong(argv[old(i)..], opts).Unclear?
      ensures unclear ==> opt == 0 && arg == None && longidx == -1 && i == old(i)
      ensures !unclear ==>
        ReadLong(argv[old(i)..], opts) == Item(c, opt, i + 1 - old(i), arg, longidx)
    {
      opt, c, pos, unclear := 0, '?' as int, -1, false;
      var w := argv[i];
      var j := 2;
      while j < |w| && w[j] != '='
        invariant 2 <= j <= |w| && NameEnd(w, 2) == NameEnd(w, j)
      {
        j := j + 1;
      }
      var nExact, nPartial, oExact, oPartial := FindLong(w[2..j], opts);
      if nExact > 1 || (nExact == 0 && nPartial > 1) {
        unclear := true;
        return;
      }
      if nExact == 1 || nPartial == 1 {
        var o := if nExact == 1 then oExact else oPartial;
        assert Choose(w[2..j], opts) == One(o);
        opt, c, longidx := opts[o].val, opts[o].val, o;
        if j < |w| {
          arg := Some(w[j + 1..]);
        }
        if opts[o].hasArg != 0 && j == |w| {
          if i < argv.Length - 1 {
            assert argv[i..][1] == argv[i + 1];
            i := i + 1;
            arg := Some(argv[i]);
          } else if opts[o].hasArg == 1 {
            c := ':' as int;
          }
        }
      }
    }

    /** A dash and one letter. */
    method ShortOption(argv: array<string>) returns (c: int)
      requires i < argv.Length && |argv[i]| == 2 && arg == None && longidx == -1 && pos == 0
      modifies `opt, `arg, `i, `pos
      ensures old(i) <= i < argv.Length && ReadShort(argv[old(i)..]) == Item(c, opt, i + 1 - old(i), arg, -1)
      ensures pos == -1 || (pos == 2 && i == old(i))
    {
      if pos == 0 {
        pos := 1;
      }
      c := argv[i][pos] as int;
      opt := c;
      pos := pos + 1;
      var p := Place(argv[i][1], OSTR);
      if p.None? {
        c := '?' as int;
      } else if WantsArg(p.value, OSTR) {
        if i < argv.Length - 1 {
          assert argv[i..][1] == argv[i + 1];
          i := i + 1;
          arg := Some(argv[i]);
        } else {
          c := ':' as int;
        }
        pos := -1;
      }
    }

    /** Moves the words from `from` up to `i` over the plain words before them. */
    method MoveAhead(argv: array<string>, from: nat)
      requires nArgs <= from <= i <= argv.Length
      modifies argv
      ensures argv[..] == Moved(old(argv[..]), from, nArgs, i - from)
    {
      hide Moved;
      ghost var was := argv[..];
      MovedNone(was, from, nArgs);
      if nArgs > 0 {
        var j := from;
        while j < i
          invariant from <= j <= i && argv[..] == Moved(was, from, nArgs, j - from)
        {
          MovedMore(was, from, nArgs, j - from);
          Permute(argv, j, nArgs);
          j := j + 1;
        }
      } else {
        NoneToCross(was, from, i - from);
      }
    }

    /** Passes over plain words. */
    method Skip(argv: array<string>)
      requires nArgs < i <= argv.Length
      modifies `i, `nArgs
      ensures i == old(i) + Skips(argv[old(i)..]) && nArgs == old(nArgs) + Skips(argv[old(i)..])
    {
      while i < argv.Length && Plain(argv[i])
        invariant old(i) <= i <= argv.Length && i - old(i) == nArgs - old(nArgs)
        invariant Skips(argv[old(i)..]) == i - old(i) + Skips(argv[i..])
      {
        assert argv[i..][1..] == argv[i + 1..];
        i, nArgs := i + 1, nArgs + 1;
      }
    }

    /** Reads the option at `i`; on success `i` is left on the last word it took. */
    method ReadOption(argv: array<string>, opts: seq<LongOpt>) returns (c: int, unclear: bool)
      requires i < argv.Length && !Plain(argv[i]) && argv[i] != "--"
      requires pos == 0 && arg == None && longidx == -1
      modifies `opt, `arg, `longidx, `i, `pos
      ensures old(i) <= i < argv.Length && c == Code(Read(argv[old(i)..], opts))
      ensures var r := Read(argv[old(i)..], opts);
        && !r.Nothing? && !r.Bare? && unclear == r.Unclear?
        && arg == (if r.Item? then r.arg else None) && longidx == (if r.Item? then r.longidx else -1)
        && opt == (if r.Item? then r.seen else if r.Unclear? then 0 else old(opt))
        && (if r.Unclear? then pos == -1 && i == old(i)
            else if r.Cluster? then pos == 0 && i == old(i) && |argv[i]| > 2
            else i + 1 == old(i) + r.size && (pos == -1 || pos == |argv[i]|))
    {
      hide ReadLong, ReadShort;
      c, unclear := -1, false;
      if argv[i][1] == '-' {
        LongWord(argv[i]);
        c, unclear := LongOption(argv, opts);
        if unclear {
          c := '?' as int;
          return;
        }
      } else if |argv[i]| == 2 {
        c := ShortOption(argv);
      }
    }

    /** One call: reads the option at the front of the words not yet looked at, after the plain words
     before it, and moves what it read ahead of all plain words. */
    method Next(argv: array<string>, permute: bool, opts: seq<LongOpt>) returns (c: int)
      requires Ready(argv)
      modifies this, argv
      ensures var k := if permute then Skips(old(argv[i..])) else 0;
        var r := Read(old(argv[i..])[k..], opts);
        && c == Code(r)
        && i == old(i) + k + Taken(r) && nArgs == old(nArgs) + k
        && argv[..] == Moved(old(argv[..]), old(i) + k, nArgs, Taken(r))
        && arg == (if r.Item? then r.arg else None) && longidx == (if r.Item? then r.longidx else -1)
        && opt == (if r.Item? then r.seen else if r.Unclear? then 0 else old(opt))
        && (if r.Unclear? then pos == -1 && ind == old(ind) else pos == 0 && ind == i - nArgs)
    {
      if permute {
        Skip(argv);
      }
      assert argv[i..] == old(argv[i..])[i - old(i)..];
      c := ReadMoving(argv, opts);
    }

    /** The rest of a call, after the plain words have been passed over. */
    method ReadMoving(argv: array<string>, opts: seq<LongOpt>) returns (c: int)
      requires pos == 0 && nArgs < i <= argv.Length
      modifies this, argv
      ensures nArgs == old(nArgs) && c == Code(Read(old(argv[i..]), opts))
      ensures var r := Read(old(argv[i..]), opts);
        && i == old(i) + Taken(r) && argv[..] == Moved(old(argv[..]), old(i), nArgs, Taken(r))
        && arg == (if r.Item? then r.arg else None) && longidx == (if r.Item? then r.longidx else -1)
        && opt == (if r.Item? then r.seen else if r.Unclear? then 0 else old(opt))
        && (if r.Unclear? then pos == -1 && ind == old(ind) else pos == 0 && ind == i - nArgs)
    {
      hide Moved, ReadLong, ReadShort;
      arg, longidx := None, -1;
      var from := i;
      ghost var words := argv[i..];
      MovedNone(argv[..], from, nArgs);
      if i >= argv.Length || Plain(argv[i]) {
        assert i < argv.Length ==> words[0] == argv[i];
        ind := i - nArgs;
        return -1;
      }
      assert words[0] == argv[i];
      if argv[i][1] == '-' && |argv[i]| == 2 {
        assert argv[i] == "--";
        Permute(argv, i, nArgs);
        i := i + 1;
        ind := i - nArgs;
        return -1;
      }
      var unclear;
      c, unclear := ReadOption(argv, opts);
      if unclear {
        return;
      }
      if pos < 0 || pos == |argv[i]| {
        i, pos := i + 1, 0;
        MoveAhead(argv, from);
      }
      ind := i - nArgs;
    }
  }

  lemma MovedParts(head: seq<string>, used: seq<string>, passed: seq<string>, x: seq<string>, y: seq<string>,
          tail: seq<string>)
    ensures var a := head + used + passed + (x + y + tail);
      Moved(a, |head + used + passed + x|, |passed + x|, |y|) == head + (used + y) + (passed + x) + tail
  {
    var a := head + used + passed + (x + y + tail);
    var at, m := |head + used + passed + x|, |passed + x|;
    assert a[..at - m] == head + used;
    assert a[at..at + |y|] == y;
    assert a[at - m..at] == passed + x;
    assert a[at + |y|..] == tail;
  }

  /** One more reading in front of a scan. */
  lemma ScanJoin(before: Result, items: seq<Reading>, used: seq<string>, passed: seq<string>,
          rest: seq<string>, opts: seq<LongOpt>, k: nat, o: Reading)
    requires k == Skips(rest) && o == Read(rest[k..], opts) && o.Item? && Taken(o) > 0 && !Stops(o.code)
    requires before == Joined(items, used, passed, Scan(rest, opts))
    ensures k + Taken(o) <= |rest|
    ensures before == Joined(items + [o], used + rest[k..k + Taken(o)], passed + rest[..k],
                             Scan(rest[k + Taken(o)..], opts))
  {
    hide Read, Skips, Scan;
    ScanMore(rest, opts, k, o, Taken(o));
  }

  /** What has been read so far in front of what the scan of the rest will find. */
  function Joined(items: seq<Reading>, used: seq<string>, passed: seq<string>, s: Result): Result {
    Result(items + s.items, used + s.used, passed + s.passed, s.rest, s.end)
  }

  function Codes(items: seq<Reading>): (r: seq<(int, Option<string>)>) {
    seq(|items|, k requires 0 <= k < |items| => (Code(items[k]), if items[k].Item? then items[k].arg else None))
  }

  /** A call, seen on a command line that is already partly sorted. */
  method SortNext(k: Ketopt, argv: array<string>, opts: seq<LongOpt>, ghost used: seq<string>,
          ghost passed: seq<string>, ghost rest: seq<string>)
    returns (c: int)
    requires k.Ready(argv) && argv.Length > 0 && argv[..] == [argv[0]] + used + passed + rest
    requires k.nArgs == |passed| && k.i == 1 + |used| + |passed|
    modifies k, argv
    ensures var n := Skips(rest); var o := Read(rest[n..], opts); var t := Taken(o);
      && c == Code(o) && k.nArgs == |passed| + n && k.i == 1 + |used| + |passed| + n + t
      && argv[..] == [old(argv[0])] + (used + rest[n..n + t]) + (passed + rest[..n]) + rest[n + t..]
      && k.arg == (if o.Item? then o.arg else None)
      && (if o.Unclear? then k.pos == -1 else k.pos == 0 && k.ind == k.i - k.nArgs)
  {
    hide Read, Skips, Moved;
    ghost var a := argv[..];
    assert argv[k.i..] == a[k.i..] == rest;
    c := k.Next(argv, true, opts);
    ghost var n := Skips(rest);
    ghost var t := Taken(Read(rest[n..], opts));
    ghost var x, y, tail := rest[..n], rest[n..n + t], rest[n + t..];
    assert rest == x + y + tail;
    MovedParts([a[0]], used, passed, x, y, tail);
  }

  /** The loop of a caller that permutes and stops at a negative value, '?' or ':'. It leaves the options
   with their arguments in front, then the plain words, then what it did not look at. */
  method ParseAll(argv: array<string>, opts: seq<LongOpt>) returns (k: Ketopt, c: int, codes: seq<(int,
          Option<string>)>)
    requires argv.Length > 0
    modifies argv
    ensures var r := Scan(old(argv[1..]), opts);
      && argv[..] == [old(argv[0])] + r.used + r.passed + r.rest
      && c == Code(r.end) && codes == Codes(r.items)
      && (!r.end.Unclear? ==> k.ind == 1 + |r.used|)
  {
    hide Read, Skips, Scan, Stops, Taken, Code, Joined, Codes;
    ghost var a0, result := argv[0], Scan(argv[1..], opts);
    k := new Ketopt();
    codes := [];
    ghost var items, used, passed, rest := [], [], [], argv[1..];
    assert argv[..] == [a0] + used + passed + rest;
    JoinedNone(result);
    while true
      invariant fresh(k) && k.Ready(argv) && argv[..] == [a0] + used + passed + rest
      invariant k.nArgs == |passed| && k.i == 1 + |used| + |passed|
      invariant result == Joined(items, used, passed, Scan(rest, opts)) && codes == Codes(items)
      decreases argv.Length - k.i
    {
      c := SortNext(k, argv, opts, used, passed, rest);
      ghost var n := Skips(rest);
      ghost var o := Read(rest[n..], opts);
      if Stops(c) {
        ScanStop(rest, opts, n, o);
        JoinedStop(items, used, passed, Scan(rest, opts));
        break;
      }
      GoesOn(rest[n..], opts);
      CodesSnoc(items, o);
      codes := codes + [(c, k.arg)];
      ScanJoin(result, items, used, passed, rest, opts, n, o);
      items, used, passed, rest := items + [o], used + rest[n..n + Taken(o)], passed + rest[..n], rest[n + Taken(o)..];
    }
  }

  lemma CodesSnoc(items: seq<Reading>, o: Reading)
    ensures Codes(items + [o]) == Codes(items) + [(Code(o), if o.Item? then o.arg else None)]
  {}

  lemma JoinedStop(items: seq<Reading>, used: seq<string>, passed: seq<string>, s: Result)
    requires s.items == []
    ensures Joined(items, used, passed, s) == Result(items, used + s.used, passed + s.passed, s.rest, s.end)
  {}

  lemma JoinedNone(s: Result)
    ensures Joined([], [], [], s) == s && Codes([]) == []
  {}

  lemma ScanStop(rest: seq<string>, opts: seq<LongOpt>, n: nat, o: Reading)
    requires n == Skips(rest) && o == Read(rest[n..], opts) && Stops(Code(o))
    ensures n + Taken(o) <= |rest|
    ensures Scan(rest, opts) == Result([], rest[n..n + Taken(o)], rest[..n], rest[n + Taken(o)..], o)
  {
    hide Read, Skips, Scan;
    ScanEnd(rest, opts, n, o, Taken(o));
  }

  lemma GoesOn(ws: seq<string>, opts: seq<LongOpt>)
    requires !Stops(Code(Read(ws, opts)))
    ensures Read(ws, opts).Item? && Taken(Read(ws, opts)) > 0 && !Stops(Read(ws, opts).code)
  {}

  /** Afterwards the array holds the same words: a stable partition of what was looked at, then the rest. */
  lemma Rearranged(ws: seq<string>, opts: seq<LongOpt>)
    ensures var r := Scan(ws, opts);
      Partitions(ws, r) && multiset(r.used + r.passed + r.rest) == multiset(ws)
  {
    hide Scan, Shuffle;
    var r := Scan(ws, opts);
    ScanPartitions(ws, opts);
    var n := |r.used| + |r.passed|;
    ShuffleBag(ws[..n], r.used, r.passed);
    assert ws == ws[..n] + ws[n..];
  }
}
