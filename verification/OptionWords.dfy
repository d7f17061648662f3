/**
 Command lines written down from what they are meant to say, in every form that an option can take;
 the parser reads back exactly that. And what it answers to words that say nothing it knows.
 */
module OptionWords {
  import opened Options
  import opened OptionScan
  import opened Ketopt

  /** Something to say on a command line. */
  datatype Piece =
    | Word(word: string)                      // a word of its own
    | LongEquals(name: string, arg: string)   // --name=arg
    | LongSpace(name: string, arg: string)    // --name arg
    | LongAlone(name: string)                 // --name
    | Letter(c: char)                         // -c
    | LetterSpace(c: char, arg: string)       // -c arg

  /** The words it takes. */
  function Written(p: Piece): seq<string> {
    match p
    case Word(w) => [w]
    case LongEquals(name, v) => ["--" + name + "=" + v]
    case LongSpace(name, v) => ["--" + name, v]
    case LongAlone(name) => ["--" + name]
    case Letter(c) => [['-', c]]
    case LetterSpace(c, v) => [['-', c], v]
  }

  /** What was typed is meant for one option, whose value does not look like an answer of the parser itself. */
  predicate Known(name: string, opts: seq<LongOpt>) {
    && '=' !in name && Choose(name, opts).One?
    && var val := opts[Choose(name, opts).index].val; val >= 0 && val != 63 && val != 58
  }

  function LongNamed(name: string, opts: seq<LongOpt>): LongOpt
    requires Known(name, opts)
  {
    opts[Choose(name, opts).index]
  }

  /** Long options take the forms they were declared for. -s, -u, -r and -p have an argument, -v, -h and -a none. */
  predicate Sayable(p: Piece, opts: seq<LongOpt>) {
    match p
    case Word(w) => |w| < 2 || w[0] != '-'
    case LongEquals(name, _) => Known(name, opts)
    case LongSpace(name, _) => Known(name, opts) && LongNamed(name, opts).hasArg != 0
    case LongAlone(name) => Known(name, opts) && LongNamed(name, opts).hasArg == 0
    case Letter(c) => c == 'v' || c == 'h' || c == 'a'
    case LetterSpace(c, _) => c == 's' || c == 'u' || c == 'r' || c == 'p'
  }

  /** What the caller is to be told: value, option, words, argument, place; nothing of a plain word. */
  function Told(p: Piece, opts: seq<LongOpt>): (r: seq<Reading>)
    requires Sayable(p, opts)
    ensures |r| == if p.Word? then 0 else 1
  {
    match p
    case Word(_) => []
    case LongEquals(name, v) => [LongTold(name, opts, 1, Some(v))]
    case LongSpace(name, v) => [LongTold(name, opts, 2, Some(v))]
    case LongAlone(name) => [LongTold(name, opts, 1, None)]
    case Letter(c) => [Item(c as int, c as int, 1, None, -1)]
    case LetterSpace(c, v) => [Item(c as int, c as int, 2, Some(v), -1)]
  }

  function LongTold(name: string, opts: seq<LongOpt>, size: nat, arg: Option<string>): Reading
    requires Known(name, opts)
  {
    Item(LongNamed(name, opts).val, LongNamed(name, opts).val, size, arg, Choose(name, opts).index)
  }

  // ----- one option

  lemma NameEnds(w: string, j: nat, e: nat)
    requires j <= e <= |w| && '=' !in w[j..e] && (e < |w| ==> w[e] == '=')
    ensures NameEnd(w, j) == e
  {}

  /** `--name=v`: the argument is what follows the equals sign. */
  lemma ReadsEquals(name: string, v: string, rest: seq<string>, opts: seq<LongOpt>, k: nat)
    requires '=' !in name && k < |opts| && Choose(name, opts) == One(k)
    ensures Read(["--" + name + "=" + v] + rest, opts) == Item(opts[k].val, opts[k].val, 1, Some(v), k)
  {
    hide Choose;
    var w := "--" + name + "=" + v;
    var e := 2 + |name|;
    assert w[2..e] == name && w[e] == '=' && w[e + 1..] == v;
    NameEnds(w, 2, e);
  }

  /** `--name`: no argument, or the next word; a missing one is an error only if it is required. */
  lemma ReadsName(name: string, rest: seq<string>, opts: seq<LongOpt>, k: nat)
    requires '=' !in name && k < |opts| && Choose(name, opts) == One(k)
    ensures Read(["--" + name] + rest, opts) ==
      if opts[k].hasArg == 0 then Item(opts[k].val, opts[k].val, 1, None, k)
      else if rest != [] then Item(opts[k].val, opts[k].val, 2, Some(rest[0]), k)
      else if opts[k].hasArg == 1 then Item(58, opts[k].val, 1, None, k)
      else Item(opts[k].val, opts[k].val, 1, None, k)
  {
    hide Choose;
    var w := "--" + name;
    assert w[2..|w|] == name && |name| > 0;
    NameEnds(w, 2, |w|);
  }

  /** A name that is no option, or may be several. */
  lemma ReadsStrange(name: string, rest: seq<string>, opts: seq<LongOpt>)
    requires name != [] && '=' !in name && !Choose(name, opts).One?
    ensures var r := if Choose(name, opts).Ambiguous? then Unclear else Item(63, 0, 1, None, -1);
      && Read(["--" + name] + rest, opts) == r
      && forall v :: Read(["--" + name + "=" + v] + rest, opts) == r
  {
    hide Choose;
    var w := "--" + name;
    assert w[2..|w|] == name;
    NameEnds(w, 2, |w|);
    forall v
      ensures Read(["--" + name + "=" + v] + rest, opts) == Read([w] + rest, opts)
    {
      var u, e := "--" + name + "=" + v, 2 + |name|;
      assert u[2..e] == name && u[e] == '=';
      NameEnds(u, 2, e);
    }
  }

  /** A letter after a dash. A colon is taken for a letter whose argument is missing. */
  lemma ReadsLetter(c: char, rest: seq<string>, opts: seq<LongOpt>)
    requires c != '-'
    ensures Read([['-', c]] + rest, opts) ==
      if c == 'v' || c == 'h' || c == 'a' then Item(c as int, c as int, 1, None, -1)
      else if c == 's' || c == 'u' || c == 'r' || c == 'p' then
        if rest != [] then Item(c as int, c as int, 2, Some(rest[0]), -1) else Item(58, c as int, 1, None, -1)
      else if c == ':' then Item(58, 58, 1, None, -1)
      else Item(63, c as int, 1, None, -1)
  {
    LetterPlace(c);
    hide Place;
  }

  lemma LetterPlace(c: char)
    ensures var p := Place(c, OSTR);
      && (p.Some? <==> c == 'v' || c == 'h' || c == 'a' || c == 's' || c == 'u' || c == 'r' || c == 'p' || c == ':')
      && (p.Some? ==> (WantsArg(p.value, OSTR) <==> c == 's' || c == 'u' || c == 'r' || c == 'p'))
  {
    var p := Place(c, OSTR);
    hide Place;
    assert forall i :: 0 <= i < 11 ==> OSTR[i] in OSTR;
    assert p.Some? && p.value > 4 ==> OSTR[..p.value][4] == ':';
  }

  /** Several letters after one dash are not read. */
  lemma ReadsCluster(w: string, rest: seq<string>, opts: seq<LongOpt>)
    requires |w| > 2 && w[0] == '-' && w[1] != '-'
    ensures Read([w] + rest, opts) == Cluster
  {}

  // ----- a whole command line

  function Text(ps: seq<Piece>): seq<string> {
    if ps == [] then [] else Written(ps[0]) + Text(ps[1..])
  }

  function AllTold(ps: seq<Piece>, opts: seq<LongOpt>): seq<Reading>
    requires forall p :: p in ps ==> Sayable(p, opts)
  {
    if ps == [] then []
    else Told(ps[0], opts) + AllTold(ps[1..], opts)
  }

  /** The words of the options, and the others. */
  function OptionsOf(ps: seq<Piece>): seq<string> {
    if ps == [] then [] else (if ps[0].Word? then [] else Written(ps[0])) + OptionsOf(ps[1..])
  }

  function WordsOf(ps: seq<Piece>): seq<string> {
    if ps == [] then [] else (if ps[0].Word? then [ps[0].word] else []) + WordsOf(ps[1..])
  }

  lemma SaidPiece(p: Piece, rest: seq<string>, opts: seq<LongOpt>)
    requires Sayable(p, opts) && !p.Word?
    ensures var ws := Written(p) + rest; var o := Read(ws, opts);
      && Skips(ws) == 0 && ws != [] && Told(p, opts) == [o]
      && o.Item? && Taken(o) == |Written(p)| > 0 && !Stops(o.code)
  {
    hide Choose, Read;
    match p
    case LongEquals(name, v) =>
      ReadsEquals(name, v, rest, opts, Choose(name, opts).index);
    case LongSpace(name, v) =>
      assert Written(p) + rest == ["--" + name] + ([v] + rest);
      ReadsName(name, [v] + rest, opts, Choose(name, opts).index);
    case LongAlone(name) =>
      ReadsName(name, rest, opts, Choose(name, opts).index);
    case Letter(c) =>
      ReadsLetter(c, rest, opts);
    case LetterSpace(c, v) =>
      assert Written(p) + rest == [['-', c]] + ([v] + rest);
      ReadsLetter(c, [v] + rest, opts);
  }

  lemma Assoc<T>(a: seq<T>, b: seq<T>, c: seq<T>)
    ensures a + (b + c) == a + b + c && a + [] == a && [] + a == a
  {}

  lemma Front(a: seq<string>, b: seq<string>)
    ensures var s := a + b; s[0..] == s && s[|a|..] == b && s[0..|a|] == a && s[..0] == []
  {}

  /** An option in front of other words. */
  lemma ScanOption(p: Piece, rest: seq<string>, opts: seq<LongOpt>)
    requires Sayable(p, opts) && !p.Word?
    ensures var t := Scan(rest, opts);
      Scan(Written(p) + rest, opts) ==
      Result(Told(p, opts) + t.items, Written(p) + t.used, t.passed, t.rest, t.end)
  {
    hide Read, Skips, Scan, Sayable, Told, Written;
    SaidPiece(p, rest, opts);
    Front(Written(p), rest);
    var ws := Written(p) + rest;
    ScanMore(ws, opts, 0, Read(ws, opts), |Written(p)|);
    Assoc(Scan(rest, opts).passed, [], []);
  }

  lemma SkipsOne(w: string, rest: seq<string>)
    requires |w| < 2 || w[0] != '-'
    ensures Skips([w] + rest) == Skips(rest) + 1
  {
    assert ([w] + rest)[1..] == rest;
  }

  lemma Behind(w: string, rest: seq<string>, k: nat)
    requires k <= |rest|
    ensures ([w] + rest)[k + 1..] == rest[k..] && ([w] + rest)[..k + 1] == [w] + rest[..k]
  {}

  /** A scan, given what is passed over and read first. */
  lemma ScanIs(ws: seq<string>, opts: seq<LongOpt>, skipped: seq<string>, after: seq<string>)
    requires skipped == ws[..Skips(ws)] && after == ws[Skips(ws)..]
    ensures var o := Read(after, opts); var n := Taken(o);
      Scan(ws, opts) ==
      if o.Item? && n > 0 && !Stops(o.code) then
        var t := Scan(after[n..], opts);
        Result([o] + t.items, after[..n] + t.used, skipped + t.passed, t.rest, t.end)
      else Result([], after[..n], skipped, after[n..], o)
  {
    hide Read, Skips;
  }

  /** A plain word in front of other words. */
  lemma ScanWord(w: string, rest: seq<string>, opts: seq<LongOpt>)
    requires |w| < 2 || w[0] != '-'
    ensures var t := Scan(rest, opts);
      Scan([w] + rest, opts) == Result(t.items, t.used, [w] + t.passed, t.rest, t.end)
  {
    hide Read, Skips, Scan;
    SkipsOne(w, rest);
    var ws, k := [w] + rest, Skips(rest);
    Behind(w, rest, k);
    ScanIs(rest, opts, rest[..k], rest[k..]);
    ScanIs(ws, opts, [w] + rest[..k], rest[k..]);
    Assoc([w], rest[..k], Scan(rest[k..][Taken(Read(rest[k..], opts))..], opts).passed);
  }

  lemma TextSnoc(ps: seq<Piece>, tail: seq<string>, opts: seq<LongOpt>, t: Result)
    requires ps != [] && forall p :: p in ps ==> Sayable(p, opts)
    ensures Text(ps) + tail == Written(ps[0]) + (Text(ps[1..]) + tail)
    ensures AllTold(ps, opts) + t.items == Told(ps[0], opts) + (AllTold(ps[1..], opts) + t.items)
    ensures OptionsOf(ps) + t.used
      == if ps[0].Word? then OptionsOf(ps[1..]) + t.used else Written(ps[0]) + (OptionsOf(ps[1..]) + t.used)
    ensures WordsOf(ps) + t.passed
      == if ps[0].Word? then [ps[0].word] + (WordsOf(ps[1..]) + t.passed) else WordsOf(ps[1..]) + t.passed
  {
    hide Sayable, Told, Written;
    var p, more := ps[0], ps[1..];
    Assoc(Written(p), Text(more), tail);
    Assoc(Told(p, opts), AllTold(more, opts), t.items);
    Assoc(Written(p), OptionsOf(more), t.used);
    Assoc([], OptionsOf(more), t.used);
    Assoc([], WordsOf(more), t.passed);
    if p.Word? {
      Assoc([p.word], WordsOf(more), t.passed);
    }
  }

  /**
   The round trip: whatever is said, in whatever forms and with plain words anywhere in between, the
   scan tells exactly that and goes on with the words behind it.
   */
  lemma {:induction false} ScanReadsBack(ps: seq<Piece>, tail: seq<string>, opts: seq<LongOpt>)
    requires forall p :: p in ps ==> Sayable(p, opts)
    ensures var t := Scan(tail, opts);
      Scan(Text(ps) + tail, opts) ==
      Result(AllTold(ps, opts) + t.items, OptionsOf(ps) + t.used, WordsOf(ps) + t.passed, t.rest, t.end)
  {
    hide Scan, Sayable, Told, Written;
    var t := Scan(tail, opts);
    if ps == [] {
      Assoc(tail, [], []);
      Assoc(t.items, [], []);
      Assoc(t.used, [], []);
      Assoc(t.passed, [], []);
    } else {
      var p, more := ps[0], ps[1..];
      assert p in ps && forall q :: q in more ==> q in ps;
      ScanReadsBack(more, tail, opts);
      TextSnoc(ps, tail, opts, t);
      hide Text, AllTold, OptionsOf, WordsOf;
      if p.Word? {
        WordIs(p, opts);
        Assoc(AllTold(more, opts) + t.items, [], []);
        ScanWord(p.word, Text(more) + tail, opts);
      } else {
        ScanOption(p, Text(more) + tail, opts);
      }
    }
  }

  lemma WordIs(p: Piece, opts: seq<LongOpt>)
    requires p.Word? && Sayable(p, opts)
    ensures Written(p) == [p.word] && Told(p, opts) == [] && (|p.word| < 2 || p.word[0] != '-')
  {}

  // ----- where it ends

  lemma ScanStops(w: string, rest: seq<string>, opts: seq<LongOpt>, o: Reading)
    requires |w| >= 2 && w[0] == '-' && o == Read([w] + rest, opts) && Taken(o) <= 1
    requires o.Item? ==> o.code == 63 || o.code == 58
    ensures Scan([w] + rest, opts) ==
      if Taken(o) == 1 then Result([], [w], [], rest, o) else Result([], [], [], [w] + rest, o)
  {
    var ws := [w] + rest;
    hide Read;
    assert ws[0..] == ws && ws[..0] == [] && ws[0..1] == [w] && ws[1..] == rest && ws[0..0] == [];
    assert Skips(ws) == 0;
    ScanEnd(ws, opts, 0, o, Taken(o));
  }

  /** A bare "--" ends the options, and the end of the line does; nothing behind the former is looked at. */
  lemma ScanDashes(rest: seq<string>, opts: seq<LongOpt>)
    ensures Scan(["--"] + rest, opts) == Result([], ["--"], [], rest, Bare)
    ensures Scan([], opts) == Result([], [], [], [], Nothing)
  {
    assert Read(["--"] + rest, opts) == Bare;
    ScanStops("--", rest, opts, Bare);
  }

  /** An unknown letter ends it with '?', and is used up. */
  lemma ScanLetterUnknown(c: char, rest: seq<string>, opts: seq<LongOpt>)
    requires c != '-' && c != ':' && c != 'v' && c != 'h' && c != 'a' && c != 's' && c != 'u' && c != 'r' && c != 'p'
    ensures Scan([['-', c]] + rest, opts) == Result([], [['-', c]], [], rest, Item(63, c as int, 1, None, -1))
  {
    hide Read;
    ReadsLetter(c, rest, opts);
    ScanStops(['-', c], rest, opts, Item(63, c as int, 1, None, -1));
  }

  /** A letter or long option at the end of the line whose required argument is missing ends it with ':'. */
  lemma ScanArgumentMissing(c: char, name: string, opts: seq<LongOpt>, k: nat)
    requires c == 's' || c == 'u' || c == 'r' || c == 'p'
    requires '=' !in name && k < |opts| && Choose(name, opts) == One(k) && opts[k].hasArg == 1
    ensures Scan([['-', c]], opts) == Result([], [['-', c]], [], [], Item(58, c as int, 1, None, -1))
    ensures Scan(["--" + name], opts) == Result([], ["--" + name], [], [], Item(58, opts[k].val, 1, None, k))
  {
    hide Read, Choose;
    assert [['-', c]] + [] == [['-', c]] && ["--" + name] + [] == ["--" + name];
    ReadsLetter(c, [], opts);
    ScanStops(['-', c], [], opts, Item(58, c as int, 1, None, -1));
    ReadsName(name, [], opts, k);
    ScanStops("--" + name, [], opts, Item(58, opts[k].val, 1, None, k));
  }

  /** An unknown name ends it with '?' and is used up; one that may be several, and letters in a row, are not. */
  lemma ScanNameUnknown(name: string, rest: seq<string>, opts: seq<LongOpt>)
    requires name != [] && '=' !in name && !Choose(name, opts).One?
    ensures Scan(["--" + name] + rest, opts) ==
      if Choose(name, opts).Ambiguous? then Result([], [], [], ["--" + name] + rest, Unclear)
      else Result([], ["--" + name], [], rest, Item(63, 0, 1, None, -1))
  {
    hide Read, Choose;
    ReadsStrange(name, rest, opts);
    ScanStops("--" + name, rest, opts, Read(["--" + name] + rest, opts));
  }

  lemma ScanCluster(w: string, rest: seq<string>, opts: seq<LongOpt>)
    requires |w| > 2 && w[0] == '-' && w[1] != '-'
    ensures Scan([w] + rest, opts) == Result([], [], [], [w] + rest, Cluster)
  {
    ReadsCluster(w, rest, opts);
    ScanStops(w, rest, opts, Cluster);
  }

  // ----- what the caller gets

  /** Values and arguments, one pair for each option. */
  function Pairs(ps: seq<Piece>, opts: seq<LongOpt>): seq<(int, Option<string>)>
    requires forall p :: p in ps ==> Sayable(p, opts)
  {
    if ps == [] then []
    else Pair(ps[0], opts) + Pairs(ps[1..], opts)
  }

  function Pair(p: Piece, opts: seq<LongOpt>): seq<(int, Option<string>)>
    requires Sayable(p, opts)
  {
    match p
    case Word(_) => []
    case LongEquals(name, v) => [(LongNamed(name, opts).val, Some(v))]
    case LongSpace(name, v) => [(LongNamed(name, opts).val, Some(v))]
    case LongAlone(name) => [(LongNamed(name, opts).val, None)]
    case Letter(c) => [(c as int, None)]
    case LetterSpace(c, v) => [(c as int, Some(v))]
  }

  lemma {:induction false} CodesOfTold(ps: seq<Piece>, opts: seq<LongOpt>)
    requires forall p :: p in ps ==> Sayable(p, opts)
    ensures Codes(AllTold(ps, opts)) == Pairs(ps, opts)
  {
    hide Sayable, Choose;
    if ps != [] {
      var p, more := ps[0], ps[1..];
      assert p in ps && forall q :: q in more ==> q in ps;
      CodesOfTold(more, opts);
      var one := Told(p, opts);
      assert Codes(one + AllTold(more, opts)) == Codes(one) + Codes(AllTold(more, opts));
      CodesOfOne(p, opts);
    }
  }

  lemma CodesOfOne(p: Piece, opts: seq<LongOpt>)
    requires Sayable(p, opts)
    ensures Codes(Told(p, opts)) == Pair(p, opts)
  {
    hide Choose;
  }

  /**
   The application's loop on a command line that says `ps`, then a bare "--" and any words: the values
   and arguments are those said, and argv holds the options, the plain words and the rest.
   */
  method ReadBack(argv: array<string>, ps: seq<Piece>, rest: seq<string>, opts: seq<LongOpt>)
    returns (k: Ketopt, c: int, codes: seq<(int, Option<string>)>)
    requires forall p :: p in ps ==> Sayable(p, opts)
    requires argv.Length > 0 && argv[1..] == Text(ps) + (["--"] + rest)
    modifies argv
    ensures codes == Pairs(ps, opts) && c == -1
    ensures argv[..] == [old(argv[0])] + OptionsOf(ps) + ["--"] + WordsOf(ps) + rest
    ensures k.ind == 2 + |OptionsOf(ps)|
  {
    hide Scan, Sayable, Text, AllTold, OptionsOf, WordsOf, Pairs, Codes;
    ScanReadsBack(ps, ["--"] + rest, opts);
    ScanDashes(rest, opts);
    CodesOfTold(ps, opts);
    Assoc(AllTold(ps, opts), [], []);
    Assoc(WordsOf(ps), [], []);
    Assoc([argv[0]], OptionsOf(ps), ["--"]);
    k, c, codes := ParseAll(argv, opts);
  }
}
