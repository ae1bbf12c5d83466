/** The shell's command language: trees, tokens, printing, and parsing a token sequence
    as user/sh.c does. */
module ShellSpec {

  const MAXARGS := 10

  /** W is what a word is: its text, or its place in the buffer. */
  datatype Cmd<W> =
    | Exec(argv: seq<W>)
    | Redir(cmd: Cmd<W>, file: W, output: bool)
    | Pipe(left: Cmd<W>, right: Cmd<W>)
    | List(left: Cmd<W>, right: Cmd<W>)
    | Back(cmd: Cmd<W>)

  datatype Token = Sy(c: char) | Word(w: string)

  datatype Parsed = Ok(cmd: Cmd<string>, rest: seq<Token>) | Panic

  const APPEND := '+'     // the token >>

  predicate Starts(ts: seq<Token>, cs: string) {
    ts != [] && ts[0].Sy? && ts[0].c in cs
  }

  // ----- parsing

  /** parseredirs(); > and >> give the same command. */
  function Redirs(c: Cmd<string>, ts: seq<Token>): (r: Parsed)
    ensures r.Ok? ==> |r.rest| <= |ts|
    decreases |ts|
  {
    if !Starts(ts, ['<', '>', APPEND]) then Ok(c, ts)
    else if |ts| < 2 || !ts[1].Word? then Panic
    else Redirs(Redir(c, ts[1].w, ts[0].c != '<'), ts[2..])
  }

  /** A word goes to the command inside the redirections read so far. */
  function AddWord<W>(c: Cmd<W>, w: W): Cmd<W> {
    match c
    case Exec(argv) => Exec(argv + [w])
    case Redir(d, f, o) => Redir(AddWord(d, w), f, o)
    case _ => c
  }

  /** parseexec() with n words read: redirections, then its loop. */
  function Args(c: Cmd<string>, n: nat, ts: seq<Token>): (r: Parsed)
    ensures r.Ok? ==> |r.rest| <= |ts|
    decreases |ts|, 1
  {
    MoreArgs(Redirs(c, ts), n)
  }

  function MoreArgs(q: Parsed, n: nat): (r: Parsed)
    ensures r.Ok? ==> q.Ok? && |r.rest| <= |q.rest|
    decreases if q.Ok? then |q.rest| else 0, 0
  {
    if q.Panic? then Panic
    else if q.rest == [] || Starts(q.rest, ['|', ')', '&', ';']) then q
    else if !q.rest[0].Word? || n + 1 >= MAXARGS then Panic
    else Args(AddWord(q.cmd, q.rest[0].w), n + 1, q.rest[1..])
  }

  /** parseexec() and parseblock(). */
  function Simple(ts: seq<Token>): (r: Parsed)
    ensures r.Ok? ==> |r.rest| <= |ts|
    decreases |ts|, 0
  {
    if !Starts(ts, ['(']) then Args(Exec([]), 0, ts)
    else
      var q := Line(ts[1..]);
      if q.Panic? || !Starts(q.rest, [')']) then Panic else Redirs(q.cmd, q.rest[1..])
  }

  /** parsepipe() */
  function Pipeline(ts: seq<Token>): (r: Parsed)
    ensures r.Ok? ==> |r.rest| <= |ts|
    decreases |ts|, 1
  {
    var q := Simple(ts);
    if q.Panic? || !Starts(q.rest, ['|']) then q
    else
      var p := Pipeline(q.rest[1..]);
      if p.Panic? then Panic else Ok(Pipe(q.cmd, p.cmd), p.rest)
  }

  /** parseline() */
  function Line(ts: seq<Token>): (r: Parsed)
    ensures r.Ok? ==> |r.rest| <= |ts|
    decreases |ts|, 3
  {
    var q := Pipeline(ts);
    if q.Panic? then Panic else After(q.cmd, q.rest)
  }

  /** parseline() after the command c. */
  function After(c: Cmd<string>, ts: seq<Token>): (r: Parsed)
    ensures r.Ok? ==> |r.rest| <= |ts|
    decreases |ts|, 2
  {
    if Starts(ts, ['&']) then After(Back(c), ts[1..])
    else if Starts(ts, [';']) then
      var q := Line(ts[1..]);
      if q.Panic? then Panic else Ok(List(c, q.cmd), q.rest)
    else Ok(c, ts)
  }

  /** parsecmd(): everything must be read. */
  function Command(ts: seq<Token>): Parsed {
    var q := Line(ts);
    if q.Panic? || q.rest != [] then Panic else q
  }

  // ----- printing

  function Level<W>(c: Cmd<W>): nat {
    match c
    case Exec(_) => 0
    case Redir(_, _, _) => 0
    case Pipe(_, _) => 1
    case Back(_) => 2
    case List(_, _) => 3
  }

  function Words(ws: seq<string>): (ts: seq<Token>)
    ensures |ts| == |ws| && forall i :: 0 <= i < |ws| ==> ts[i] == Word(ws[i])
  {
    if ws == [] then [] else Words(ws[..|ws| - 1]) + [Word(ws[|ws| - 1])]
  }

  function Bare(c: Cmd<string>): seq<Token>
    decreases c, 0
  {
    match c
    case Exec(argv) => Words(argv)
    case Redir(d, f, o) => At(d, 0) + [Sy(if o then '>' else '<'), Word(f)]
    case Pipe(l, r) => At(l, 0) + [Sy('|')] + At(r, 1)
    case Back(d) => At(d, 2) + [Sy('&')]
    case List(l, r) => At(l, 2) + [Sy(';')] + At(r, 3)
  }

  /** Parentheses where the place binds tighter than the command. */
  function At(c: Cmd<string>, level: nat): seq<Token>
    decreases c, 1
  {
    if Level(c) > level then [Sy('(')] + Bare(c) + [Sy(')')] else Bare(c)
  }

  /** At most 9 words a command. */
  predicate Small<W>(c: Cmd<W>) {
    match c
    case Exec(argv) => |argv| < MAXARGS
    case Redir(d, _, _) => Small(d)
    case Pipe(l, r) => Small(l) && Small(r)
    case Back(d) => Small(d)
    case List(l, r) => Small(l) && Small(r)
  }

  // ----- the round trip, level by level

  /** What redirections are around. */
  function Core<W>(c: Cmd<W>): Cmd<W> {
    if c.Redir? then Core(c.cmd) else c
  }

  /** Simple() after it has read c. */
  function Rest(c: Cmd<string>, ts: seq<Token>): Parsed {
    if Core(c).Exec? then Args(c, |Core(c).argv|, ts) else Redirs(c, ts)
  }

  lemma {:induction false} WordsTrip(ws: seq<string>, k: nat, rest: seq<Token>)
    requires k <= |ws| < MAXARGS
    ensures Args(Exec(ws[..k]), k, Words(ws)[k..] + rest) == Args(Exec(ws), |ws|, rest)
    decreases |ws| - k
  {
    if k == |ws| {
      assert ws[..k] == ws && Words(ws)[k..] + rest == rest;
    } else {
      var ts := Words(ws)[k..] + rest;
      assert ts[0] == Word(ws[k]) && ts[1..] == Words(ws)[k + 1..] + rest;
      assert AddWord(Exec(ws[..k]), ws[k]) == Exec(ws[..k + 1]);
      WordsTrip(ws, k + 1, rest);
    }
  }

  lemma {:induction false} SimpleTrip(c: Cmd<string>, rest: seq<Token>)
    requires Small(c) && !Starts(rest, ['('])
    ensures Simple(At(c, 0) + rest) == Rest(c, rest)
    decreases c, if Level(c) > 0 then 5 else 0
  {
    match c
    case Exec(argv) =>
      assert argv[..0] == [] && Words(argv)[0..] == Words(argv);
      WordsTrip(argv, 0, rest);
    case Redir(d, f, o) =>
      var rest' := [Sy(if o then '>' else '<'), Word(f)] + rest;
      RedirTokens(d, f, o, rest);
      SimpleTrip(d, rest');
    case _ =>
      LineTrip(c, [Sy(')')] + rest);
      BlockTokens(c, rest);
  }

  lemma RedirTokens(d: Cmd<string>, f: string, o: bool, rest: seq<Token>)
    ensures
      var c, rest' := Redir(d, f, o), [Sy(if o then '>' else '<'), Word(f)] + rest;
      At(c, 0) + rest == At(d, 0) + rest' && Redirs(d, rest') == Redirs(c, rest)
  {
    var rest' := [Sy(if o then '>' else '<'), Word(f)] + rest;
    assert At(Redir(d, f, o), 0) + rest == At(d, 0) + rest';
    assert rest'[2..] == rest;
  }

  lemma BlockTokens(c: Cmd<string>, rest: seq<Token>)
    requires Level(c) > 0
    ensures
      var ts, rest' := At(c, 0) + rest, [Sy(')')] + rest;
      |ts| > 0 && ts[0] == Sy('(') && ts[1..] == At(c, 3) + rest' && rest'[1..] == rest
  {
    assert (At(c, 0) + rest)[1..] == At(c, 3) + ([Sy(')')] + rest);
  }

  lemma {:induction false} PipeTrip(c: Cmd<string>, rest: seq<Token>)
    requires Small(c) && (rest == [] || Starts(rest, ['&', ';', ')']))
    ensures Pipeline(At(c, 1) + rest) == Ok(c, rest)
    decreases c, if Level(c) > 1 then 6 else 1
  {
    if c.Pipe? {
      var rest' := [Sy('|')] + (At(c.right, 1) + rest);
      assert At(c, 1) + rest == At(c.left, 0) + rest';
      assert rest'[1..] == At(c.right, 1) + rest;
      SimpleTrip(c.left, rest');
      RestEnds(c.left, rest');
      PipeTrip(c.right, rest);
    } else {
      assert At(c, 1) == At(c, 0);
      SimpleTrip(c, rest);
      RestEnds(c, rest);
    }
  }

  lemma RestEnds(c: Cmd<string>, rest: seq<Token>)
    requires rest == [] || Starts(rest, ['|', '&', ';', ')'])
    ensures Rest(c, rest) == Ok(c, rest)
  {
    assert Redirs(c, rest) == Ok(c, rest);
    if Core(c).Exec? {
      assert MoreArgs(Ok(c, rest), |Core(c).argv|) == Ok(c, rest);
    }
  }

  lemma {:induction false} BackTrip(c: Cmd<string>, rest: seq<Token>)
    requires Small(c) && (rest == [] || Starts(rest, ['&', ';', ')']))
    ensures Line(At(c, 2) + rest) == After(c, rest)
    decreases c, if Level(c) > 2 then 7 else 2
  {
    if c.Back? {
      assert At(c, 2) + rest == At(c.cmd, 2) + ([Sy('&')] + rest);
      BackTrip(c.cmd, [Sy('&')] + rest);
      assert ([Sy('&')] + rest)[1..] == rest;
    } else {
      assert At(c, 2) == At(c, 1);
      PipeTrip(c, rest);
    }
  }

  lemma {:induction false} LineTrip(c: Cmd<string>, rest: seq<Token>)
    requires Small(c) && (rest == [] || Starts(rest, [')']))
    ensures Line(At(c, 3) + rest) == Ok(c, rest)
    decreases c, 3
  {
    if c.List? {
      var rest' := [Sy(';')] + (At(c.right, 3) + rest);
      assert At(c, 3) + rest == At(c.left, 2) + rest';
      BackTrip(c.left, rest');
      assert rest'[1..] == At(c.right, 3) + rest;
      LineTrip(c.right, rest);
    } else {
      assert At(c, 3) == At(c, 2);
      BackTrip(c, rest);
    }
  }

  // ----- words and redirections in any order

  /** A word, or <, > or >> and a file name. */
  datatype Part = Arg(w: string) | To(op: char, file: string)

  predicate GoodPart(x: Part) {
    x.To? ==> x.op in ['<', '>', APPEND]
  }

  function PartTokens(xs: seq<Part>): seq<Token> {
    if xs == [] then []
    else (match xs[0] case Arg(w) => [Word(w)] case To(op, f) => [Sy(op), Word(f)]) + PartTokens(xs[1..])
  }

  function ArgsOf(xs: seq<Part>): seq<string> {
    if xs == [] then [] else (if xs[0].Arg? then [xs[0].w] else []) + ArgsOf(xs[1..])
  }

  /** The redirections around a command, the first innermost; >> is as >. */
  function Around(c: Cmd<string>, xs: seq<Part>): Cmd<string>
    decreases |xs|
  {
    if xs == [] then c
    else
      var d := Around(c, xs[..|xs| - 1]);
      match xs[|xs| - 1]
      case Arg(_) => d
      case To(op, f) => Redir(d, f, op == '>' || op == APPEND)
  }

  lemma {:induction false} AroundWord(ws: seq<string>, w: string, xs: seq<Part>)
    ensures AddWord(Around(Exec(ws), xs), w) == Around(Exec(ws + [w]), xs)
    decreases |xs|
  {
    if xs != [] {
      AroundWord(ws, w, xs[..|xs| - 1]);
    }
  }

  lemma ArgsRedir(c: Cmd<string>, n: nat, op: char, f: string, ts: seq<Token>)
    requires op in ['<', '>', APPEND]
    ensures Args(c, n, [Sy(op), Word(f)] + ts) == Args(Redir(c, f, op == '>' || op == APPEND), n, ts)
  {
    assert ([Sy(op), Word(f)] + ts)[2..] == ts;
  }

  lemma ArgsWord(c: Cmd<string>, n: nat, w: string, ts: seq<Token>)
    ensures Args(c, n, [Word(w)] + ts) == if n + 1 >= MAXARGS then Panic else Args(AddWord(c, w), n + 1, ts)
  {
    assert ([Word(w)] + ts)[1..] == ts;
  }

  /** What may follow a command. */
  predicate Follows(ts: seq<Token>) {
    ts == [] || Starts(ts, ['|', ')', '&', ';'])
  }

  lemma ArgsEnd(c: Cmd<string>, n: nat, rest: seq<Token>)
    requires Follows(rest)
    ensures Args(c, n, rest) == Ok(c, rest)
  {
    assert Redirs(c, rest) == Ok(c, rest);
  }

  lemma AroundNext(c: Cmd<string>, xs: seq<Part>, x: Part)
    ensures Around(c, xs + [x]) == match x
              case Arg(_) => Around(c, xs)
              case To(op, f) => Redir(Around(c, xs), f, op == '>' || op == APPEND)
  {
    assert (xs + [x])[..|xs|] == xs;
  }

  lemma {:induction false} PartsFrom(ws: seq<string>, done: seq<Part>, xs: seq<Part>, rest: seq<Token>)
    requires |ws| < MAXARGS && Follows(rest) && forall i :: 0 <= i < |xs| ==> GoodPart(xs[i])
    ensures
      var all := ws + ArgsOf(xs);
      Args(Around(Exec(ws), done), |ws|, PartTokens(xs) + rest) ==
      if |all| < MAXARGS then Ok(Around(Exec(all), done + xs), rest) else Panic
    decreases |xs|
  {
    hide Args, Around;
    var c := Around(Exec(ws), done);
    if xs == [] {
      ArgsEnd(c, |ws|, rest);
      assert ws + ArgsOf(xs) == ws && done + xs == done && PartTokens(xs) + rest == rest;
    } else {
      assert done + xs == done + [xs[0]] + xs[1..];
      assert GoodPart(xs[0]);
      match xs[0] {
        case To(op, f) =>
          ArgsRedir(c, |ws|, op, f, PartTokens(xs[1..]) + rest);
          assert PartTokens(xs) + rest == [Sy(op), Word(f)] + (PartTokens(xs[1..]) + rest);
          AroundNext(Exec(ws), done, xs[0]);
          assert ArgsOf(xs) == ArgsOf(xs[1..]);
          PartsFrom(ws, done + [xs[0]], xs[1..], rest);
        case Arg(w) =>
          ArgsWord(c, |ws|, w, PartTokens(xs[1..]) + rest);
          assert PartTokens(xs) + rest == [Word(w)] + (PartTokens(xs[1..]) + rest);
          AroundWord(ws, w, done);
          AroundNext(Exec(ws + [w]), done, xs[0]);
          assert ws + ArgsOf(xs) == ws + [w] + ArgsOf(xs[1..]);
          if |ws| + 1 < MAXARGS {
            PartsFrom(ws + [w], done + [xs[0]], xs[1..], rest);
          }
      }
    }
  }

  /** A line that is one simple command. */
  lemma OneCommand(ts: seq<Token>)
    requires !Starts(ts, ['('])
    ensures
      var q := Args(Exec([]), 0, ts);
      q.Panic? || q.rest == [] ==> Command(ts) == q
  {
    hide Args;
    var q := Args(Exec([]), 0, ts);
    assert Simple(ts) == q;
    if q.Panic? || q.rest == [] {
      assert Pipeline(ts) == q;
      if q.Ok? {
        assert After(q.cmd, []) == Ok(q.cmd, []);
      }
      assert Line(ts) == q;
    }
  }

  /** Words and redirections in any order: the words in order are the command's, and the
      redirections wrap it in order; a panic exactly from the tenth word on. */
  lemma PartsTrip(xs: seq<Part>)
    requires forall i :: 0 <= i < |xs| ==> GoodPart(xs[i])
    ensures Command(PartTokens(xs)) ==
            if |ArgsOf(xs)| < MAXARGS then Ok(Around(Exec(ArgsOf(xs)), xs), []) else Panic
  {
    assert !Starts(PartTokens(xs), ['(']) by {
      if xs != [] {
        assert GoodPart(xs[0]);
      }
    }
    hide Args, Around, ArgsOf, Command;
    PartsFrom([], [], xs, []);
    AroundNothing(Exec([]));
    assert [] + ArgsOf(xs) == ArgsOf(xs) && [] + xs == xs && PartTokens(xs) + [] == PartTokens(xs);
    OneCommand(PartTokens(xs));
  }

  lemma AroundNothing(c: Cmd<string>)
    ensures Around(c, []) == c
  {
  }

  /** A redirection without a file name is a panic. */
  lemma NoFile(op: char, ts: seq<Token>)
    requires op in ['<', '>', APPEND] && (ts == [] || ts[0].Sy?)
    ensures Command([Sy(op)] + ts) == Panic
  {
    var all := [Sy(op)] + ts;
    assert Redirs(Exec([]), all) == Panic;
    assert Args(Exec([]), 0, all) == Panic;
    OneCommand(all);
  }
}
