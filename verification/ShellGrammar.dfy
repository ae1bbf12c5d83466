/** The lines user/sh.c accepts: exactly those with a derivation, and the command it
    builds is the derivation's. */
module ShellGrammar {
  import opened Shell
  import opened ShellSpec

  /** Derivations:
        simple   = words and redirections | ( line ) redirections
        pipeline = simple | simple '|' pipeline
        back     = pipeline | back &
        line     = back | back ; line */
  datatype Tree =
    | Plain(xs: seq<Part>)
    | Block(t: Tree, xs: seq<Part>)
    | Piped(l: Tree, r: Tree)
    | Amp(t: Tree)
    | Semi(l: Tree, r: Tree)

  ghost predicate GoodParts(xs: seq<Part>) {
    forall i :: 0 <= i < |xs| ==> GoodPart(xs[i])
  }

  ghost predicate OnlyRedirs(xs: seq<Part>) {
    forall i :: 0 <= i < |xs| ==> xs[i].To? && GoodPart(xs[i])
  }

  /** t derives a simple command (0), a pipeline (1), a back (2), a line (3). */
  ghost predicate Derives(t: Tree, level: nat) {
    match t
    case Plain(xs) => GoodParts(xs) && |ArgsOf(xs)| < MAXARGS
    case Block(u, xs) => OnlyRedirs(xs) && Derives(u, 3)
    case Piped(l, r) => level >= 1 && Derives(l, 0) && Derives(r, 1)
    case Amp(u) => level >= 2 && Derives(u, 2)
    case Semi(l, r) => level >= 3 && Derives(l, 2) && Derives(r, 3)
  }

  function Yield(t: Tree): seq<Token> {
    match t
    case Plain(xs) => PartTokens(xs)
    case Block(u, xs) => [Sy('(')] + Yield(u) + [Sy(')')] + PartTokens(xs)
    case Piped(l, r) => Yield(l) + [Sy('|')] + Yield(r)
    case Amp(u) => Yield(u) + [Sy('&')]
    case Semi(l, r) => Yield(l) + [Sy(';')] + Yield(r)
  }

  function CmdOf(t: Tree): Cmd<string> {
    match t
    case Plain(xs) => Around(Exec(ArgsOf(xs)), xs)
    case Block(u, xs) => Around(CmdOf(u), xs)
    case Piped(l, r) => Pipe(CmdOf(l), CmdOf(r))
    case Amp(u) => Back(CmdOf(u))
    case Semi(l, r) => List(CmdOf(l), CmdOf(r))
  }

  // ----- what has a derivation is accepted

  lemma {:induction false} RedirsFull(c: Cmd<string>, done: seq<Part>, xs: seq<Part>, rest: seq<Token>)
    requires OnlyRedirs(xs) && Follows(rest)
    ensures Redirs(Around(c, done), PartTokens(xs) + rest) == Ok(Around(c, done + xs), rest)
    decreases |xs|
  {
    hide Around, PartTokens, Redirs;
    if xs == [] {
      var none := NoParts([], done, rest);
      RedirsStep(Around(c, done), rest);
    } else {
      var x, more := xs[0], PartTokens(xs[1..]) + rest;
      assert x.To? && GoodPart(x);
      var ys := Longer(x, xs[1..], done);
      assert ys == xs && PartTokens(xs) + rest == [Sy(x.op), Word(x.file)] + more;
      AroundNext(c, done, x);
      RedirsFull(c, done + [x], xs[1..], rest);
      RedirsNext(Around(c, done), x.op, x.file, more);
    }
  }

  lemma RedirsNext(c: Cmd<string>, op: char, f: string, ts: seq<Token>)
    requires op in ['<', '>', APPEND]
    ensures Redirs(c, [Sy(op), Word(f)] + ts) == Redirs(Redir(c, f, op == '>' || op == APPEND), ts)
  {
    assert ([Sy(op), Word(f)] + ts)[2..] == ts;
  }

  lemma PlainStart(xs: seq<Part>, rest: seq<Token>)
    requires GoodParts(xs) && Follows(rest)
    ensures !Starts(PartTokens(xs) + rest, ['('])
  {
    if xs != [] {
      assert GoodPart(xs[0]);
    }
  }

  lemma {:induction false} SimpleFull(t: Tree, rest: seq<Token>)
    requires Derives(t, 0) && Follows(rest)
    ensures Simple(Yield(t) + rest) == Ok(CmdOf(t), rest)
    decreases t, 0
  {
    hide Args, Redirs, Around, PartTokens;
    match t
    case Plain(xs) =>
      PlainStart(xs, rest);
      PartsFrom([], [], xs, rest);
      AroundNothing(Exec([]));
      assert [] + ArgsOf(xs) == ArgsOf(xs) && [] + xs == xs;
    case Block(u, xs) =>
      var rest' := [Sy(')')] + (PartTokens(xs) + rest);
      var ts := Yield(t) + rest;
      assert ts == [Sy('(')] + (Yield(u) + rest');
      assert ts[1..] == Yield(u) + rest' && rest'[1..] == PartTokens(xs) + rest;
      LineFull(u, rest');
      AroundNothing(CmdOf(u));
      RedirsFull(CmdOf(u), [], xs, rest);
      assert [] + xs == xs;
  }

  lemma {:induction false} PipeFull(t: Tree, rest: seq<Token>)
    requires Derives(t, 1) && (rest == [] || Starts(rest, [')', '&', ';']))
    ensures Pipeline(Yield(t) + rest) == Ok(CmdOf(t), rest)
    decreases t, 1
  {
    hide Simple, Derives;
    if t.Piped? {
      var rest' := [Sy('|')] + (Yield(t.r) + rest);
      assert Yield(t) + rest == Yield(t.l) + rest' && rest'[1..] == Yield(t.r) + rest;
      PipedParts(t);
      SimpleFull(t.l, rest');
      PipeFull(t.r, rest);
    } else {
      Lower(t, 1);
      SimpleFull(t, rest);
    }
  }

  lemma PipedParts(t: Tree)
    requires t.Piped? && Derives(t, 1)
    ensures Derives(t.l, 0) && Derives(t.r, 1)
  {
  }

  /** A derivation that is not of its level's own shape is of the level below. */
  lemma Lower(t: Tree, level: nat)
    requires Derives(t, level) && 1 <= level <= 3
    requires !(level == 1 && t.Piped?) && !(level == 2 && t.Amp?) && !(level == 3 && t.Semi?)
    ensures Derives(t, level - 1)
  {
  }

  lemma {:induction false} BackFull(t: Tree, rest: seq<Token>)
    requires Derives(t, 2) && (rest == [] || Starts(rest, [')', '&', ';']))
    ensures Line(Yield(t) + rest) == After(CmdOf(t), rest)
    decreases t, 2
  {
    hide Pipeline, Derives;
    if t.Amp? {
      var rest' := [Sy('&')] + rest;
      assert Yield(t) + rest == Yield(t.t) + rest' && rest'[1..] == rest;
      assert Derives(t.t, 2) by {
        AmpPart(t);
      }
      BackFull(t.t, rest');
    } else {
      Lower(t, 2);
      PipeFull(t, rest);
    }
  }

  lemma AmpPart(t: Tree)
    requires t.Amp? && Derives(t, 2)
    ensures Derives(t.t, 2)
  {
  }

  lemma {:induction false} LineFull(t: Tree, rest: seq<Token>)
    requires Derives(t, 3) && (rest == [] || Starts(rest, [')']))
    ensures Line(Yield(t) + rest) == Ok(CmdOf(t), rest)
    decreases t, 3
  {
    hide Pipeline, Derives;
    if t.Semi? {
      var rest' := [Sy(';')] + (Yield(t.r) + rest);
      assert Yield(t) + rest == Yield(t.l) + rest' && rest'[1..] == Yield(t.r) + rest;
      SemiParts(t);
      BackFull(t.l, rest');
      LineFull(t.r, rest);
    } else {
      Lower(t, 3);
      BackFull(t, rest);
    }
  }

  lemma SemiParts(t: Tree)
    requires t.Semi? && Derives(t, 3)
    ensures Derives(t.l, 2) && Derives(t.r, 3)
  {
  }

  // ----- what is accepted has a derivation

  lemma {:induction false} RedirsSound(c: Cmd<string>, done: seq<Part>, ts: seq<Token>) returns (xs: seq<Part>)
    requires Redirs(Around(c, done), ts).Ok?
    ensures
      var r := Redirs(Around(c, done), ts);
      OnlyRedirs(xs) && ts == PartTokens(xs) + r.rest && r.cmd == Around(c, done + xs)
    ensures !Starts(Redirs(Around(c, done), ts).rest, ['<', '>', APPEND])
    decreases |ts|
  {
    hide Around, PartTokens, Redirs;
    RedirsStep(Around(c, done), ts);
    if Starts(ts, ['<', '>', APPEND]) {
      var x := To(ts[0].c, ts[1].w);
      AroundNext(c, done, x);
      var ys := RedirsSound(c, done + [x], ts[2..]);
      xs := Longer(x, ys, done);
      assert ts == [ts[0], ts[1]] + ts[2..];
    } else {
      xs := NoParts([], done, ts);
    }
  }

  lemma RedirsStep(c: Cmd<string>, ts: seq<Token>)
    ensures !Starts(ts, ['<', '>', APPEND]) ==> Redirs(c, ts) == Ok(c, ts)
    ensures Starts(ts, ['<', '>', APPEND]) && Redirs(c, ts).Ok? ==>
              && |ts| >= 2 && ts[1].Word?
              && Redirs(c, ts) == Redirs(Redir(c, ts[1].w, ts[0].c == '>' || ts[0].c == APPEND), ts[2..])
  {
  }

  lemma {:induction false} ArgsSound(ws: seq<string>, done: seq<Part>, ts: seq<Token>) returns (xs: seq<Part>)
    requires |ws| < MAXARGS && Args(Around(Exec(ws), done), |ws|, ts).Ok?
    ensures
      var r := Args(Around(Exec(ws), done), |ws|, ts);
      && GoodParts(xs) && ts == PartTokens(xs) + r.rest && Follows(r.rest)
      && |ws + ArgsOf(xs)| < MAXARGS && r.cmd == Around(Exec(ws + ArgsOf(xs)), done + xs)
    decreases |ts|
  {
    hide Around, Args, PartTokens, ArgsOf;
    var c := Around(Exec(ws), done);
    if Follows(ts) {
      ArgsEnd(c, |ws|, ts);
      xs := NoParts(ws, done, ts);
    } else if Starts(ts, ['<', '>', APPEND]) {
      RedirFirst(c, |ws|, ts);
      var x, rest := To(ts[0].c, ts[1].w), ts[2..];
      AroundNext(Exec(ws), done, x);
      var ys := ArgsSound(ws, done + [x], rest);
      xs := Longer(x, ys, done);
      assert ts == [ts[0], ts[1]] + rest && ArgsOf(xs) == ArgsOf(ys);
    } else {
      WordFirst(c, |ws|, ts);
      var x, rest := Arg(ts[0].w), ts[1..];
      AroundWord(ws, x.w, done);
      AroundNext(Exec(ws + [x.w]), done, x);
      var ys := ArgsSound(ws + [x.w], done + [x], rest);
      xs := Longer(x, ys, done);
      assert ts == [ts[0]] + rest && ws + ArgsOf(xs) == ws + [x.w] + ArgsOf(ys);
    }
  }

  lemma NoParts(ws: seq<string>, done: seq<Part>, ts: seq<Token>) returns (xs: seq<Part>)
    ensures xs == [] && done + xs == done && PartTokens(xs) + ts == ts && ws + ArgsOf(xs) == ws
  {
    xs := [];
  }

  lemma RedirFirst(c: Cmd<string>, n: nat, ts: seq<Token>)
    requires Starts(ts, ['<', '>', APPEND]) && Args(c, n, ts).Ok?
    ensures |ts| >= 2 && ts[1].Word?
    ensures Args(c, n, ts) == Args(Redir(c, ts[1].w, ts[0].c == '>' || ts[0].c == APPEND), n, ts[2..])
  {
    assert Redirs(c, ts).Ok?;
    ArgsRedir(c, n, ts[0].c, ts[1].w, ts[2..]);
    assert ts == [ts[0], ts[1]] + ts[2..];
  }

  lemma WordFirst(c: Cmd<string>, n: nat, ts: seq<Token>)
    requires ts != [] && !Follows(ts) && !Starts(ts, ['<', '>', APPEND]) && Args(c, n, ts).Ok?
    ensures ts[0].Word? && n + 1 < MAXARGS && Args(c, n, ts) == Args(AddWord(c, ts[0].w), n + 1, ts[1..])
  {
    assert Redirs(c, ts) == Ok(c, ts);
  }

  /** One more part in front. */
  lemma Longer(x: Part, xs: seq<Part>, done: seq<Part>) returns (ys: seq<Part>)
    requires GoodParts(xs) && GoodPart(x)
    ensures ys == [x] + xs && GoodParts(ys) && done + [x] + xs == done + ys
    ensures PartTokens(ys) == PartTokens([x]) + PartTokens(xs) && ArgsOf(ys) == ArgsOf([x]) + ArgsOf(xs)
    ensures x.To? ==> PartTokens([x]) == [Sy(x.op), Word(x.file)] && ArgsOf([x]) == []
    ensures x.Arg? ==> PartTokens([x]) == [Word(x.w)] && ArgsOf([x]) == [x.w]
  {
    ys := [x] + xs;
    assert ys[1..] == xs && [x][1..] == [];
    assert PartTokens([]) == [] && ArgsOf([]) == [];
  }

  lemma {:induction false} SimpleSound(ts: seq<Token>) returns (t: Tree)
    requires Simple(ts).Ok?
    ensures
      var r := Simple(ts);
      Derives(t, 0) && ts == Yield(t) + r.rest && CmdOf(t) == r.cmd
    decreases |ts|, 0
  {
    hide Around, Args, Redirs, PartTokens;
    if !Starts(ts, ['(']) {
      AroundNothing(Exec([]));
      var xs := ArgsSound([], [], ts);
      assert [] + xs == xs && [] + ArgsOf(xs) == ArgsOf(xs);
      t := Plain(xs);
    } else {
      var q := Line(ts[1..]);
      var u := LineSound(ts[1..]);
      AroundNothing(q.cmd);
      var xs := RedirsSound(q.cmd, [], q.rest[1..]);
      assert [] + xs == xs;
      t := Block(u, xs);
      var rest := Simple(ts).rest;
      assert ts == [ts[0]] + ts[1..] && q.rest == [q.rest[0]] + q.rest[1..];
      assert Yield(t) + rest == [Sy('(')] + (Yield(u) + ([Sy(')')] + (PartTokens(xs) + rest)));
    }
  }

  lemma {:induction false} PipelineSound(ts: seq<Token>) returns (t: Tree)
    requires Pipeline(ts).Ok?
    ensures
      var r := Pipeline(ts);
      Derives(t, 1) && ts == Yield(t) + r.rest && CmdOf(t) == r.cmd
    decreases |ts|, 1
  {
    hide Simple, PartTokens, ArgsOf, Around;
    var q := Simple(ts);
    var l := SimpleSound(ts);
    if !Starts(q.rest, ['|']) {
      Higher(l, 0);
      t := l;
    } else {
      var r := PipelineSound(q.rest[1..]);
      t := Piped(l, r);
      assert q.rest == [Sy('|')] + q.rest[1..];
      assert Yield(t) + Pipeline(ts).rest == Yield(l) + ([Sy('|')] + (Yield(r) + Pipeline(ts).rest));
    }
  }

  lemma Higher(t: Tree, level: nat)
    requires Derives(t, level)
    ensures Derives(t, level + 1)
  {
  }

  lemma {:induction false} LineSound(ts: seq<Token>) returns (t: Tree)
    requires Line(ts).Ok?
    ensures
      var r := Line(ts);
      Derives(t, 3) && ts == Yield(t) + r.rest && CmdOf(t) == r.cmd
    decreases |ts|, 3
  {
    hide Pipeline, Yield, CmdOf;
    var q := Pipeline(ts);
    var l := PipelineSound(ts);
    Higher(l, 1);
    t := AfterSound(l, q.rest);
  }

  lemma {:induction false} AfterSound(l: Tree, ts: seq<Token>) returns (t: Tree)
    requires Derives(l, 2) && After(CmdOf(l), ts).Ok?
    ensures
      var r := After(CmdOf(l), ts);
      Derives(t, 3) && Yield(l) + ts == Yield(t) + r.rest && CmdOf(t) == r.cmd
    decreases |ts|, 2
  {
    hide Pipeline, Line, PartTokens, ArgsOf, Around;
    var r := After(CmdOf(l), ts);
    if Starts(ts, ['&']) {
      t := AfterSound(Amp(l), ts[1..]);
      assert Yield(l) + ts == Yield(l) + [Sy('&')] + ts[1..];
    } else if Starts(ts, [';']) {
      var u := LineSound(ts[1..]);
      t := Semi(l, u);
      SemiYield(l, u, ts, r.rest);
    } else {
      Higher(l, 2);
      t := l;
    }
  }

  lemma SemiYield(l: Tree, u: Tree, ts: seq<Token>, rest: seq<Token>)
    requires Starts(ts, [';']) && ts[1..] == Yield(u) + rest
    ensures Yield(l) + ts == Yield(Semi(l, u)) + rest
  {
    assert ts == [Sy(';')] + ts[1..];
    assert Yield(Semi(l, u)) + rest == Yield(l) + ([Sy(';')] + (Yield(u) + rest));
  }

  // ----- the language

  /** parsecmd() accepts a line iff it has a derivation, and panics on every other. */
  lemma AcceptedIff(ts: seq<Token>)
    ensures Command(ts).Ok? <==> exists t :: Derives(t, 3) && Yield(t) == ts
  {
    hide Derives, Yield, CmdOf, Line;
    if Command(ts).Ok? {
      var t := LineSound(ts);
      assert Yield(t) + [] == Yield(t);
    }
    if t :| Derives(t, 3) && Yield(t) == ts {
      LineFull(t, []);
      assert Yield(t) + [] == Yield(t);
    }
  }

  /** The command built is that of any derivation of the line: there is no ambiguity. */
  lemma BuiltIsDerived(t: Tree)
    requires Derives(t, 3)
    ensures Command(Yield(t)) == Ok(CmdOf(t), [])
  {
    hide Derives, Yield, CmdOf, Line;
    LineFull(t, []);
    assert Yield(t) + [] == Yield(t);
  }

  /** s is the tokens of t with white space, and some between two words and between > and
      a following >. */
  ghost predicate Spells(s: string, t: Tree, lead: string, gaps: seq<string>) {
    AllGood(Yield(t)) && Blank(lead) && GoodGaps(Yield(t), gaps) && s == lead + Spaced(Yield(t), gaps)
  }

  lemma TextSound(s: string) returns (t: Tree, lead: string, gaps: seq<string>)
    requires Str(s) && Command(Lex(s, 0)).Ok?
    ensures Derives(t, 3) && Spells(s, t, lead, gaps)
  {
    hide Derives, Yield, Command, Lex, Str, AllGood, GoodGaps;
    AcceptedIff(Lex(s, 0));
    t :| Derives(t, 3) && Yield(t) == Lex(s, 0);
    gaps := LexSound(s, 0);
    lead := s[..Skip(s, 0)];
    assert s == lead + s[Skip(s, 0)..];
  }

  lemma TextFull(s: string, t: Tree, lead: string, gaps: seq<string>)
    requires Str(s) && Derives(t, 3) && Spells(s, t, lead, gaps)
    ensures Command(Lex(s, 0)) == Ok(CmdOf(t), [])
  {
    hide Derives, Yield, Command, Lex, Str, AllGood, GoodGaps, CmdOf;
    LexText(lead, Yield(t), gaps);
    BuiltIsDerived(t);
  }

  /** In characters: parsecmd() accepts a line iff it spells a derivation. */
  lemma TextAcceptedIff(s: string)
    requires Str(s)
    ensures Command(Lex(s, 0)).Ok? <==> exists t, lead, gaps :: Derives(t, 3) && Spells(s, t, lead, gaps)
  {
    hide Derives, Spells, Command, Lex, Str;
    if Command(Lex(s, 0)).Ok? {
      var t, lead, gaps := TextSound(s);
    }
    if t, lead, gaps :| Derives(t, 3) && Spells(s, t, lead, gaps) {
      TextFull(s, t, lead, gaps);
    }
  }
}
