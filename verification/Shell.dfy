/** The shell's scanner and recursive-descent parser, user/sh.c: on every line they end
    and agree with the grammar on its tokens. */
module Shell {
  import opened Common
  import opened ShellSpec

  predicate Space(c: char) {
    c in [' ', '\t', '\r', '\n', '\U{0B}']
  }

  predicate Symbol(c: char) {
    c in ['<', '|', '>', '&', ';', '(', ')']
  }

  predicate WordChar(c: char) {
    !Space(c) && !Symbol(c) && c != '\0'
  }

  /** A C string: the terminating NUL is not part of s. */
  predicate Str(s: string) {
    forall i :: 0 <= i < |s| ==> s[i] != '\0'
  }

  // ----- tokens

  /** The first character at p or after that is no white space. */
  function Skip(s: string, p: nat): (r: nat)
    requires p <= |s|
    ensures p <= r <= |s| && (r < |s| ==> !Space(s[r])) && forall i :: p <= i < r ==> Space(s[i])
    decreases |s| - p
  {
    if p < |s| && Space(s[p]) then Skip(s, p + 1) else p
  }

  function WordEnd(s: string, p: nat): (r: nat)
    requires p <= |s|
    ensures p <= r <= |s| && (r < |s| ==> !WordChar(s[r])) && forall i :: p <= i < r ==> WordChar(s[i])
    decreases |s| - p
  {
    if p < |s| && WordChar(s[p]) then WordEnd(s, p + 1) else p
  }

  /** The end of the token that begins at q. */
  function TokenEnd(s: string, q: nat): (e: nat)
    requires q < |s| && Str(s) && !Space(s[q])
    ensures q < e <= |s|
  {
    if s[q] == '>' && q + 1 < |s| && s[q + 1] == '>' then q + 2
    else if Symbol(s[q]) then q + 1
    else WordEnd(s, q)
  }

  function TokenAt(s: string, q: nat): Token
    requires q < |s| && Str(s) && !Space(s[q])
  {
    if Symbol(s[q]) then Sy(if TokenEnd(s, q) == q + 2 then APPEND else s[q]) else Word(s[q..WordEnd(s, q)])
  }

  /** The tokens of s from p on. */
  function Lex(s: string, p: nat): seq<Token>
    requires p <= |s| && Str(s)
    decreases |s| - p
  {
    var q := Skip(s, p);
    if q == |s| then [] else [TokenAt(s, q)] + Lex(s, TokenEnd(s, q))
  }

  lemma LexSkip(s: string, p: nat)
    requires p <= |s| && Str(s)
    ensures Lex(s, Skip(s, p)) == Lex(s, p) && Skip(s, Skip(s, p)) == Skip(s, p)
  {
  }

  // ----- rendering

  predicate GoodWord(w: string) {
    w != [] && forall i :: 0 <= i < |w| ==> WordChar(w[i])
  }

  predicate GoodToken(t: Token) {
    if t.Sy? then t.c == APPEND || Symbol(t.c) else GoodWord(t.w)
  }

  function Show(t: Token): string {
    if t.Word? then t.w else if t.c == APPEND then ['>', '>'] else [t.c]
  }

  /** The tokens with white space after each. */
  function Spaced(ts: seq<Token>, gaps: seq<string>): string
    requires |gaps| == |ts|
  {
    if ts == [] then [] else Show(ts[0]) + gaps[0] + Spaced(ts[1..], gaps[1..])
  }

  /** Two tokens that would run into each other. */
  predicate Clash(t: Token, u: Token) {
    (t.Word? && u.Word?) || (t == Sy('>') && u.Sy? && (u.c == '>' || u.c == APPEND))
  }

  /** White space anywhere, and some where it is needed. */
  predicate GoodGaps(ts: seq<Token>, gaps: seq<string>) {
    && |gaps| == |ts| && (forall i :: 0 <= i < |ts| ==> Blank(gaps[i]))
    && forall i :: 0 <= i < |ts| - 1 && gaps[i] == [] ==> !Clash(ts[i], ts[i + 1])
  }

  predicate Blank(g: string) {
    forall i :: 0 <= i < |g| ==> Space(g[i])
  }

  lemma {:induction false} SpacedStr(ts: seq<Token>, gaps: seq<string>)
    requires AllGood(ts) && GoodGaps(ts, gaps)
    ensures Str(Spaced(ts, gaps))
  {
    if ts != [] {
      SpacedStr(ts[1..], gaps[1..]);
      assert GoodToken(ts[0]) && Blank(gaps[0]);
    }
  }

  lemma LexStep(s: string, q: nat)
    requires q < |s| && Str(s) && Skip(s, q) == q
    ensures Lex(s, q) == [TokenAt(s, q)] + Lex(s, TokenEnd(s, q))
  {
  }

  lemma {:induction false} LexGap(s: string, q: nat, e: nat)
    requires q <= e <= |s| && Str(s) && forall i :: q <= i < e ==> Space(s[i])
    ensures Lex(s, q) == Lex(s, e)
    decreases e - q
  {
    hide Lex, TokenAt, TokenEnd;
    if q < e {
      LexGap(s, q + 1, e);
      assert Skip(s, q) == Skip(s, q + 1);
      LexSkip(s, q);
      LexSkip(s, q + 1);
    }
  }

  /** What may follow a shown token: nothing that would make it longer. */
  predicate Stops(s: string, e: nat, t: Token) {
    e < |s| ==> (t.Word? ==> !WordChar(s[e])) && (t == Sy('>') ==> s[e] != '>')
  }

  lemma TokenEnds(s: string, e: nat, ts: seq<Token>, gaps: seq<string>)
    requires ts != [] && AllGood(ts) && GoodGaps(ts, gaps)
    requires e <= |s| && s[e..] == gaps[0] + Spaced(ts[1..], gaps[1..])
    ensures Stops(s, e, ts[0])
  {
    if e < |s| {
      assert s[e] == s[e..][0];
      if gaps[0] == [] && |ts| > 1 {
        assert GoodToken(ts[1]) && s[e..][0] == Show(ts[1])[0];
      } else if gaps[0] != [] {
        assert Blank(gaps[0]) && s[e] == gaps[0][0];
      }
    }
  }

  /** Tokens shown one after the other, with any white space between them and none where
      it is not needed, are read as the same tokens. */
  lemma {:induction false} LexSpaced(pre: string, ts: seq<Token>, gaps: seq<string>)
    requires AllGood(ts) && GoodGaps(ts, gaps) && Str(pre + Spaced(ts, gaps))
    ensures Lex(pre + Spaced(ts, gaps), |pre|) == ts
    decreases |ts|
  {
    hide Lex, Skip, TokenEnd, TokenAt, Show, Str, Clash, Stops;
    var s, q := pre + Spaced(ts, gaps), |pre|;
    if ts == [] {
      LexEnd(s);
    } else {
      var t, g, rest := Show(ts[0]), gaps[0], Spaced(ts[1..], gaps[1..]);
      var e := q + |t|;
      assert s == pre + (t + (g + rest));
      assert s[q..e] == t && s[e..] == g + rest;
      TokenEnds(s, e, ts, gaps);
      assert GoodToken(ts[0]);
      ShownToken(s, q, ts[0]);
      LexStep(s, q);
      forall i | e <= i < e + |g| ensures Space(s[i]) {
        assert Blank(g) && s[i] == (g + rest)[i - e];
      }
      LexGap(s, e, e + |g|);
      assert s == (pre + t + g) + rest;
      LexSpaced(pre + t + g, ts[1..], gaps[1..]);
    }
  }

  lemma LexEnd(s: string)
    requires Str(s)
    ensures Lex(s, |s|) == []
  {
  }

  lemma ShownWord(s: string, q: nat, w: string)
    requires GoodWord(w) && Str(s) && q + |w| <= |s| && s[q..q + |w|] == w && Stops(s, q + |w|, Word(w))
    ensures !Space(s[q]) && Skip(s, q) == q && TokenEnd(s, q) == q + |w| && TokenAt(s, q) == Word(w)
  {
    forall i | q <= i < q + |w| ensures WordChar(s[i]) {
      assert s[i] == s[q..q + |w|][i - q];
    }
    assert WordEnd(s, q) == q + |w|;
  }

  lemma ShownSymbol(s: string, q: nat, t: Token)
    requires t.Sy? && GoodToken(t) && Str(s) && q + |Show(t)| <= |s| && Stops(s, q + |Show(t)|, t)
    requires s[q..q + |Show(t)|] == Show(t)
    ensures !Space(s[q]) && Skip(s, q) == q && TokenEnd(s, q) == q + |Show(t)| && TokenAt(s, q) == t
  {
    hide WordEnd;
    assert s[q] == s[q..q + |Show(t)|][0];
    if t.c == APPEND {
      assert s[q + 1] == s[q..q + 2][1];
    }
  }

  lemma ShownToken(s: string, q: nat, t: Token)
    requires GoodToken(t) && Str(s) && q + |Show(t)| <= |s| && Stops(s, q + |Show(t)|, t)
    requires s[q..q + |Show(t)|] == Show(t)
    ensures q < |s| && !Space(s[q])
    ensures Skip(s, q) == q && TokenEnd(s, q) == q + |Show(t)| && TokenAt(s, q) == t
  {
    hide WordEnd, Skip, TokenEnd, TokenAt, Str, Space, Stops;
    if t.Word? {
      ShownWord(s, q, t.w);
    } else {
      ShownSymbol(s, q, t);
    }
  }

  /** The tokens of a printed command are good if its words are. */
  predicate GoodWords(c: Cmd<string>) {
    match c
    case Exec(argv) => forall i :: 0 <= i < |argv| ==> GoodWord(argv[i])
    case Redir(d, f, _) => GoodWords(d) && GoodWord(f)
    case Pipe(l, r) => GoodWords(l) && GoodWords(r)
    case Back(d) => GoodWords(d)
    case List(l, r) => GoodWords(l) && GoodWords(r)
  }

  predicate AllGood(ts: seq<Token>) {
    forall i :: 0 <= i < |ts| ==> GoodToken(ts[i])
  }

  lemma Cat(a: seq<Token>, b: seq<Token>)
    requires AllGood(a) && AllGood(b)
    ensures AllGood(a + b)
  {
  }

  lemma {:induction false} PrintedGood(c: Cmd<string>, level: nat)
    requires GoodWords(c)
    ensures AllGood(At(c, level))
    decreases c
  {
    match c {
      case Exec(_) =>
      case Redir(d, f, o) =>
        PrintedGood(d, 0);
        var ts := [Sy(if o then '>' else '<'), Word(f)];
        assert GoodToken(ts[0]) && GoodToken(ts[1]);
        Cat(At(d, 0), ts);
      case Pipe(l, r) =>
        PrintedGood(l, 0);
        PrintedGood(r, 1);
        Cat(At(l, 0), [Sy('|')]);
        Cat(At(l, 0) + [Sy('|')], At(r, 1));
      case Back(d) =>
        PrintedGood(d, 2);
        Cat(At(d, 2), [Sy('&')]);
      case List(l, r) =>
        PrintedGood(l, 2);
        PrintedGood(r, 3);
        Cat(At(l, 2), [Sy(';')]);
        Cat(At(l, 2) + [Sy(';')], At(r, 3));
    }
    assert AllGood(Bare(c));
    Cat([Sy('(')], Bare(c));
    Cat([Sy('(')] + Bare(c), [Sy(')')]);
  }

  /** The command's tokens with white space before and between them. */
  function Print(c: Cmd<string>, lead: string, gaps: seq<string>): string
    requires |gaps| == |At(c, 3)|
  {
    lead + Spaced(At(c, 3), gaps)
  }

  /** A text of good tokens is read as them. */
  lemma LexText(lead: string, ts: seq<Token>, gaps: seq<string>)
    requires Blank(lead) && AllGood(ts) && GoodGaps(ts, gaps)
    ensures Str(lead + Spaced(ts, gaps)) && Lex(lead + Spaced(ts, gaps), 0) == ts
  {
    hide Lex, AllGood;
    SpacedStr(ts, gaps);
    LexSpaced(lead, ts, gaps);
    LexGap(lead + Spaced(ts, gaps), 0, |lead|);
  }

  /** Printing a command, however spaced, and parsing the line gives the command back. */
  lemma RoundTrip(c: Cmd<string>, lead: string, gaps: seq<string>)
    requires Small(c) && GoodWords(c) && Blank(lead) && GoodGaps(At(c, 3), gaps)
    ensures Str(Print(c, lead, gaps)) && Command(Lex(Print(c, lead, gaps), 0)) == Ok(c, [])
  {
    PrintedGood(c, 3);
    LexText(lead, At(c, 3), gaps);
    LineTrip(c, []);
    assert At(c, 3) + [] == At(c, 3);
  }

  lemma TokenGood(s: string, q: nat)
    requires q < |s| && Str(s) && !Space(s[q])
    ensures GoodToken(TokenAt(s, q)) && Show(TokenAt(s, q)) == s[q..TokenEnd(s, q)]
    ensures Stops(s, TokenEnd(s, q), TokenAt(s, q))
  {
    assert !Symbol(s[q]) ==> WordChar(s[q]);
  }

  lemma NoClash(s: string, e: nat, t: Token)
    requires e < |s| && Str(s) && !Space(s[e]) && Stops(s, e, t)
    ensures !Clash(t, TokenAt(s, e))
  {
    assert !Symbol(s[e]) ==> WordChar(s[e]);
  }

  lemma OneMoreToken(t: Token, ts: seq<Token>, g: string, gaps: seq<string>)
    requires GoodToken(t) && AllGood(ts) && GoodGaps(ts, gaps) && Blank(g)
    requires g == [] && ts != [] ==> !Clash(t, ts[0])
    ensures AllGood([t] + ts) && GoodGaps([t] + ts, [g] + gaps)
    ensures Spaced([t] + ts, [g] + gaps) == Show(t) + g + Spaced(ts, gaps)
  {
    hide Clash, GoodToken, Blank, Show;
    assert ([t] + ts)[1..] == ts && ([g] + gaps)[1..] == gaps;
    forall i | 0 <= i < |ts| && ([g] + gaps)[i] == [] ensures !Clash(([t] + ts)[i], ([t] + ts)[i + 1]) {
      assert i > 0 ==> gaps[i - 1] == [];
    }
  }

  lemma LexAt(s: string, p: nat)
    requires p <= |s| && Str(s)
    ensures
      var q := Skip(s, p);
      Lex(s, p) == if q == |s| then [] else [TokenAt(s, q)] + Lex(s, TokenEnd(s, q))
  {
  }

  lemma GapAfter(s: string, q: nat, e: nat)
    requires q < |s| && Str(s) && !Space(s[q]) && e == TokenEnd(s, q)
    ensures Blank(s[e..Skip(s, e)])
    ensures s[e..Skip(s, e)] == [] && Lex(s, e) != [] ==> !Clash(TokenAt(s, q), Lex(s, e)[0])
  {
    LexAt(s, e);
    hide Lex, TokenAt, TokenEnd, Clash, Skip, Space;
    TokenGood(s, q);
    if s[e..Skip(s, e)] == [] && Lex(s, e) != [] {
      NoClash(s, e, TokenAt(s, q));
    }
  }

  /** Every line is its tokens, good ones, with white space between them. */
  lemma {:induction false} LexSound(s: string, p: nat) returns (gaps: seq<string>)
    requires p <= |s| && Str(s)
    ensures AllGood(Lex(s, p)) && GoodGaps(Lex(s, p), gaps)
    ensures s[Skip(s, p)..] == Spaced(Lex(s, p), gaps)
    decreases |s| - p
  {
    hide *;
    LexAt(s, p);
    var q := Skip(s, p);
    if q == |s| {
      gaps := [];
      NoTokens(s);
    } else {
      var e := TokenEnd(s, q);
      var g := s[e..Skip(s, e)];
      var more := LexSound(s, e);
      TokenGood(s, q);
      GapAfter(s, q, e);
      OneMoreToken(TokenAt(s, q), Lex(s, e), g, more);
      ThreePieces(s, q, e, Skip(s, e));
      gaps := [g] + more;
    }
  }

  lemma NoTokens(s: string)
    ensures AllGood([]) && GoodGaps([], []) && s[|s|..] == Spaced([], [])
  {
  }

  lemma ThreePieces(s: string, q: nat, e: nat, f: nat)
    requires q <= e <= f <= |s|
    ensures s[q..] == s[q..e] + s[e..f] + s[f..]
  {
  }

  predicate GoodPartWords(x: Part) {
    GoodPart(x) && GoodWord(if x.Arg? then x.w else x.file)
  }

  lemma {:induction false} PartsGood(xs: seq<Part>)
    requires forall i :: 0 <= i < |xs| ==> GoodPartWords(xs[i])
    ensures AllGood(PartTokens(xs))
  {
    if xs != [] {
      PartsGood(xs[1..]);
      assert GoodPartWords(xs[0]);
    }
  }

  /** A line of words and redirections in any order, however spaced. */
  lemma PartsLine(xs: seq<Part>, lead: string, gaps: seq<string>)
    requires forall i :: 0 <= i < |xs| ==> GoodPartWords(xs[i])
    requires Blank(lead) && GoodGaps(PartTokens(xs), gaps)
    ensures Str(lead + Spaced(PartTokens(xs), gaps))
    ensures Command(Lex(lead + Spaced(PartTokens(xs), gaps), 0)) ==
            if |ArgsOf(xs)| < MAXARGS then Ok(Around(Exec(ArgsOf(xs)), xs), []) else Panic
  {
    PartsGood(xs);
    LexText(lead, PartTokens(xs), gaps);
    PartsTrip(xs);
  }

  // ----- the parser

  datatype Span = Span(q: nat, eq: nat)

  /** A whole word of the buffer. */
  predicate WordSpan(s: string, w: Span) {
    && w.q < w.eq <= |s| && (w.eq < |s| ==> !WordChar(s[w.eq]))
    && forall i :: w.q <= i < w.eq ==> WordChar(s[i])
  }

  function TextOf(s: string, w: Span): string
    requires WordSpan(s, w)
  {
    s[w.q..w.eq]
  }

  function Texts(s: string, ws: seq<Span>): (r: seq<string>)
    requires forall i :: 0 <= i < |ws| ==> WordSpan(s, ws[i])
    ensures |r| == |ws| && forall i :: 0 <= i < |ws| ==> r[i] == TextOf(s, ws[i])
  {
    if ws == [] then [] else Texts(s, ws[..|ws| - 1]) + [TextOf(s, ws[|ws| - 1])]
  }

  predicate SpansOk(s: string, c: Cmd<Span>) {
    match c
    case Exec(argv) => forall i :: 0 <= i < |argv| ==> WordSpan(s, argv[i])
    case Redir(d, f, _) => SpansOk(s, d) && WordSpan(s, f)
    case Pipe(l, r) => SpansOk(s, l) && SpansOk(s, r)
    case Back(d) => SpansOk(s, d)
    case List(l, r) => SpansOk(s, l) && SpansOk(s, r)
  }

  /** The command with the text of its words. */
  function Text(s: string, c: Cmd<Span>): Cmd<string>
    requires SpansOk(s, c)
  {
    match c
    case Exec(argv) => Exec(Texts(s, argv))
    case Redir(d, f, o) => Redir(Text(s, d), TextOf(s, f), o)
    case Pipe(l, r) => Pipe(Text(s, l), Text(s, r))
    case Back(d) => Back(Text(s, d))
    case List(l, r) => List(Text(s, l), Text(s, r))
  }

  lemma {:induction false} TextAddWord(s: string, c: Cmd<Span>, w: Span)
    requires SpansOk(s, c) && WordSpan(s, w)
    ensures SpansOk(s, AddWord(c, w)) && Text(s, AddWord(c, w)) == AddWord(Text(s, c), TextOf(s, w))
  {
    if c.Redir? {
      TextAddWord(s, c.cmd, w);
    } else if c.Exec? {
      assert (c.argv + [w])[..|c.argv|] == c.argv;
    }
  }

  /** A parse result and cursor agree with what the grammar says. */
  ghost predicate Agrees(s: string, r: Option<Cmd<Span>>, p: nat, spec: Parsed)
    requires Str(s) && p <= |s|
  {
    if r.None? then spec.Panic?
    else SpansOk(s, r.value) && spec == Ok(Text(s, r.value), Lex(s, p))
  }

  class Parser {
    const s: string
    var p: nat

    ghost predicate Valid()
      reads this
    {
      Str(s) && p <= |s|
    }

    constructor (s: string)
      requires Str(s)
      ensures Valid() && this.s == s && p == 0
    {
      this.s, p := s, 0;
    }

    method SkipSpace()
      requires Valid()
      modifies this`p
      ensures Valid() && p == Skip(s, old(p))
    {
      while p < |s| && Space(s[p])
        invariant old(p) <= p <= |s| && forall i :: old(p) <= i < p ==> Space(s[i])
      {
        p := p + 1;
      }
      SkipIs(s, old(p), p);
    }

    method Peek(toks: string) returns (b: bool)
      requires Valid() && forall i :: 0 <= i < |toks| ==> Symbol(toks[i])
      modifies this`p
      ensures Valid() && p >= old(p) && Lex(s, p) == Lex(s, old(p)) && Skip(s, p) == p
      ensures b <==> Starts(Lex(s, p), if '>' in toks then toks + [APPEND] else toks)
    {
      LexSkip(s, p);
      SkipSpace();
      b := p < |s| && s[p] in toks;
      FirstToken(s, p, toks);
    }

    /** tok is 0 at the end, 'a' for a word, '+' for >>, else the symbol. */
    method GetToken() returns (tok: char, w: Span)
      requires Valid()
      modifies this`p
      ensures Valid() && p >= old(p)
      ensures tok == '\0' <==> Lex(s, old(p)) == []
      ensures tok == '\0' ==> Lex(s, p) == []
      ensures tok != '\0' ==>
                && p > old(p) && Lex(s, old(p)) != [] && Lex(s, p) == Lex(s, old(p))[1..]
                && (Lex(s, old(p))[0].Word? <==> tok == 'a') && (tok != 'a' ==> Lex(s, old(p))[0] == Sy(tok))
                && (tok == 'a' ==> WordSpan(s, w) && Lex(s, old(p))[0].w == TextOf(s, w))
    {
      hide Skip, Lex, TokenEnd, TokenAt;
      LexSkip(s, p);
      SkipSpace();
      var q := p;
      if p == |s| {
        LexEnd(s);
        return '\0', Span(q, q);
      }
      NotSpace(s, old(p));
      LexStep(s, q);
      tok := Scan();
      w := Span(q, p);
      LexSkip(s, p);
      SkipBeyond(s, p);
      SkipSpace();
    }

    /** gettoken()'s switch, at the token's first character. */
    method Scan() returns (tok: char)
      requires Valid() && p < |s| && !Space(s[p])
      modifies this`p
      ensures Valid() && p == TokenEnd(s, old(p)) && tok != '\0'
      ensures tok == 'a' <==> TokenAt(s, old(p)).Word?
      ensures tok == 'a' ==> WordSpan(s, Span(old(p), p)) && TokenAt(s, old(p)).w == TextOf(s, Span(old(p), p))
      ensures tok != 'a' ==> TokenAt(s, old(p)) == Sy(tok)
    {
      var q := p;
      tok := s[p];
      if tok in ['|', '(', ')', ';', '&', '<'] {
        p := p + 1;
      } else if tok == '>' {
        p := p + 1;
        if p < |s| && s[p] == '>' {
          tok := APPEND;
          p := p + 1;
        }
      } else {
        tok := 'a';
        while p < |s| && !Space(s[p]) && !Symbol(s[p])
          invariant q <= p <= |s| && forall i :: q <= i < p ==> WordChar(s[i])
        {
          p := p + 1;
        }
        WordEndIs(s, q, p);
      }
    }

    method ParseRedirs(c: Cmd<Span>) returns (r: Option<Cmd<Span>>)
      requires Valid() && SpansOk(s, c)
      modifies this`p
      ensures Valid() && p >= old(p) && Agrees(s, r, p, Redirs(Text(s, c), Lex(s, old(p))))
    {
      hide Lex, TokenAt;
      ghost var spec := Redirs(Text(s, c), Lex(s, p));
      var ret := c;
      var b := Peek(['<', '>']);
      while b
        invariant Valid() && p >= old(p) && SpansOk(s, ret) && Redirs(Text(s, ret), Lex(s, p)) == spec
        invariant b <==> Starts(Lex(s, p), ['<', '>'] + [APPEND])
        decreases |s| - p
      {
        assert ['<', '>'] + [APPEND] == ['<', '>', APPEND];
        ghost var ts := Lex(s, p);
        var tok, w := GetToken();
        var tok2, file := GetToken();
        if tok2 != 'a' { return None; }
        assert ts[1..][1..] == ts[2..];
        ret := Redir(ret, file, tok != '<');
        b := Peek(['<', '>']);
      }
      return Some(ret);
    }

    method ParseExec() returns (r: Option<Cmd<Span>>)
      requires Valid()
      modifies this`p
      ensures Valid() && p >= old(p) && Agrees(s, r, p, Simple(Lex(s, old(p))))
      decreases |s| - p, 1
    {
      hide Lex, TokenAt, Redirs, MoreArgs;
      var b := Peek(['(']);
      if b {
        r := ParseBlock();
        return;
      }
      ghost var spec := Args(Exec([]), 0, Lex(s, p));
      var argc := 0;
      assert Text(s, Exec([])) == Exec([]);
      r := ParseRedirs(Exec([]));
      if r.None? { return; }
      r := ParseArgs(r.value, spec);
    }

    /** parseexec()'s loop. The words go to the command inside the redirections, which
        the source reaches through a second pointer. */
    method ParseArgs(c: Cmd<Span>, ghost spec: Parsed) returns (r: Option<Cmd<Span>>)
      requires Valid() && SpansOk(s, c) && MoreArgs(Ok(Text(s, c), Lex(s, p)), 0) == spec
      modifies this`p
      ensures Valid() && p >= old(p) && Agrees(s, r, p, spec)
    {
      hide Lex, TokenAt, Redirs;
      var ret, argc := c, 0;
      var b := Peek(['|', ')', '&', ';']);
      while !b
        invariant Valid() && p >= old(p) && SpansOk(s, ret) && MoreArgs(Ok(Text(s, ret), Lex(s, p)), argc) == spec
        invariant b <==> Starts(Lex(s, p), ['|', ')', '&', ';'])
        decreases |s| - p
      {
        var tok, w := GetToken();
        if tok == '\0' { break; }
        if tok != 'a' { return None; }
        TextAddWord(s, ret, w);
        ret := AddWord(ret, w);
        argc := argc + 1;
        if argc >= MAXARGS { return None; }
        r := ParseRedirs(ret);
        if r.None? { return; }
        ret := r.value;
        b := Peek(['|', ')', '&', ';']);
      }
      return Some(ret);
    }

    method ParseBlock() returns (r: Option<Cmd<Span>>)
      requires Valid() && Starts(Lex(s, p), ['('])
      modifies this`p
      ensures Valid() && p >= old(p) && Agrees(s, r, p, Simple(Lex(s, old(p))))
      decreases |s| - p, 0
    {
      hide Lex, TokenAt, Redirs, Line;
      var b := Peek(['(']);
      var tok, w := GetToken();
      r := ParseLine();
      if r.None? { return; }
      b := Peek([')']);
      if !b { return None; }
      tok, w := GetToken();
      r := ParseRedirs(r.value);
    }

    method ParsePipe() returns (r: Option<Cmd<Span>>)
      requires Valid()
      modifies this`p
      ensures Valid() && p >= old(p) && Agrees(s, r, p, Pipeline(Lex(s, old(p))))
      decreases |s| - p, 2
    {
      hide Lex, TokenAt, Simple;
      r := ParseExec();
      if r.None? { return; }
      var cmd := r.value;
      var b := Peek(['|']);
      if b {
        var tok, w := GetToken();
        r := ParsePipe();
        if r.None? { return; }
        cmd := Pipe(cmd, r.value);
      }
      return Some(cmd);
    }

    method ParseLine() returns (r: Option<Cmd<Span>>)
      requires Valid()
      modifies this`p
      ensures Valid() && p >= old(p) && Agrees(s, r, p, Line(Lex(s, old(p))))
      decreases |s| - p, 3
    {
      hide Lex, TokenAt, Pipeline;
      ghost var spec := Line(Lex(s, p));
      r := ParsePipe();
      if r.None? { return; }
      var cmd := r.value;
      var b := Peek(['&']);
      while b
        invariant Valid() && p >= old(p) && SpansOk(s, cmd) && After(Text(s, cmd), Lex(s, p)) == spec
        invariant b <==> Starts(Lex(s, p), ['&'])
        decreases |s| - p
      {
        var tok, w := GetToken();
        cmd := Back(cmd);
        b := Peek(['&']);
      }
      b := Peek([';']);
      if b {
        var tok, w := GetToken();
        r := ParseLine();
        if r.None? { return; }
        cmd := List(cmd, r.value);
      }
      return Some(cmd);
    }

    /** parsecmd(), up to nulterminate(). */
    method ParseCmd() returns (r: Option<Cmd<Span>>)
      requires Valid() && p == 0
      modifies this`p
      ensures Valid() && Agrees(s, r, p, Command(Lex(s, 0)))
    {
      hide Lex, TokenAt, Line;
      r := ParseLine();
      if r.None? { return; }
      var b := Peek([]);
      LexNone(s, p);
      if p != |s| { return None; }
    }
  }

  lemma LexNone(s: string, p: nat)
    requires p <= |s| && Str(s)
    ensures Lex(s, p) == [] <==> Skip(s, p) == |s|
  {
  }

  lemma NotSpace(s: string, p: nat)
    requires p <= |s|
    ensures p <= Skip(s, p) && (Skip(s, p) < |s| ==> !Space(s[Skip(s, p)]))
  {
  }

  lemma SkipBeyond(s: string, p: nat)
    requires p <= |s|
    ensures p <= Skip(s, p) <= |s|
  {
  }

  lemma {:induction false} SkipIs(s: string, p: nat, r: nat)
    requires p <= r <= |s| && (r < |s| ==> !Space(s[r])) && forall i :: p <= i < r ==> Space(s[i])
    ensures Skip(s, p) == r
  {
  }

  lemma {:induction false} WordEndIs(s: string, p: nat, r: nat)
    requires p <= r <= |s| && (r < |s| ==> !WordChar(s[r])) && forall i :: p <= i < r ==> WordChar(s[i])
    ensures WordEnd(s, p) == r
  {
  }

  lemma FirstToken(s: string, p: nat, toks: string)
    requires p <= |s| && Str(s) && Skip(s, p) == p && forall i :: 0 <= i < |toks| ==> Symbol(toks[i])
    ensures (p < |s| && s[p] in toks) <==> Starts(Lex(s, p), if '>' in toks then toks + [APPEND] else toks)
  {
  }

  // ----- nulterminate

  /** Where nulterminate() writes a NUL. */
  function Ends(c: Cmd<Span>): set<nat> {
    match c
    case Exec(argv) => set i | 0 <= i < |argv| :: argv[i].eq
    case Redir(d, f, _) => Ends(d) + {f.eq}
    case Pipe(l, r) => Ends(l) + Ends(r)
    case Back(d) => Ends(d)
    case List(l, r) => Ends(l) + Ends(r)
  }

  function WordsOf(c: Cmd<Span>): set<Span> {
    match c
    case Exec(argv) => set i | 0 <= i < |argv| :: argv[i]
    case Redir(d, f, _) => WordsOf(d) + {f}
    case Pipe(l, r) => WordsOf(l) + WordsOf(r)
    case Back(d) => WordsOf(d)
    case List(l, r) => WordsOf(l) + WordsOf(r)
  }

  method NulTerminate(buf: array<char>, c: Cmd<Span>)
    requires forall e :: e in Ends(c) ==> e < buf.Length
    modifies buf
    ensures forall i :: 0 <= i < buf.Length ==> buf[i] == if i in Ends(c) then '\0' else old(buf[i])
  {
    match c {
      case Exec(argv) =>
        var i := 0;
        while i < |argv|
          invariant 0 <= i <= |argv|
          invariant forall k :: 0 <= k < buf.Length ==>
                      buf[k] == if k in (set m | 0 <= m < i :: argv[m].eq) then '\0' else old(buf[k])
        {
          assert argv[i].eq in Ends(c);
          assert (set m | 0 <= m < i + 1 :: argv[m].eq) == (set m | 0 <= m < i :: argv[m].eq) + {argv[i].eq};
          buf[argv[i].eq] := '\0';
          i := i + 1;
        }
      case Redir(d, f, _) =>
        assert f.eq in Ends(c) && Ends(d) <= Ends(c);
        NulTerminate(buf, d);
        buf[f.eq] := '\0';
      case Pipe(l, r) =>
        assert Ends(l) <= Ends(c) && Ends(r) <= Ends(c);
        NulTerminate(buf, l);
        NulTerminate(buf, r);
      case Back(d) =>
        assert Ends(d) == Ends(c);
        NulTerminate(buf, d);
      case List(l, r) =>
        assert Ends(l) <= Ends(c) && Ends(r) <= Ends(c);
        NulTerminate(buf, l);
        NulTerminate(buf, r);
    }
  }

  /** The C string that begins at q. */
  function CString(buf: seq<char>, q: nat): string
    requires q <= |buf|
    decreases |buf| - q
  {
    if q == |buf| || buf[q] == '\0' then [] else [buf[q]] + CString(buf, q + 1)
  }

  lemma {:induction false} SpansOfWords(s: string, c: Cmd<Span>)
    requires SpansOk(s, c)
    ensures (forall w :: w in WordsOf(c) ==> WordSpan(s, w) && w.eq in Ends(c))
    ensures forall e :: e in Ends(c) ==> e <= |s| && (e < |s| ==> !WordChar(s[e]))
  {
    match c
    case Exec(argv) =>
    case Redir(d, f, _) =>
      SpansOfWords(s, d);
    case Pipe(l, r) =>
      SpansOfWords(s, l);
      SpansOfWords(s, r);
    case Back(d) =>
      SpansOfWords(s, d);
    case List(l, r) =>
      SpansOfWords(s, l);
      SpansOfWords(s, r);
  }

  /** After nulterminate(), every word and file name of the command, read as a C string,
      is its token. */
  lemma WordsSurvive(s: string, c: Cmd<Span>, buf: seq<char>, w: Span)
    requires Str(s) && SpansOk(s, c) && |buf| == |s| + 1 && w in WordsOf(c)
    requires forall i :: 0 <= i < |buf| ==> buf[i] == if i in Ends(c) then '\0' else if i < |s| then s[i] else '\0'
    ensures WordSpan(s, w) && CString(buf, w.q) == TextOf(s, w)
  {
    SpansOfWords(s, c);
    forall i | w.q <= i < w.eq ensures buf[i] == s[i] && s[i] != '\0' {
      assert WordChar(s[i]);
    }
    ReadWord(s, buf, w.q, w.eq);
  }

  lemma {:induction false} ReadWord(s: string, buf: seq<char>, q: nat, e: nat)
    requires q <= e <= |s| < |buf| && buf[e] == '\0' && forall i :: q <= i < e ==> buf[i] == s[i] != '\0'
    ensures CString(buf, q) == s[q..e]
    decreases e - q
  {
    if q < e {
      ReadWord(s, buf, q + 1, e);
      assert s[q..e] == [s[q]] + s[q + 1..e];
    }
  }

  /** parsecmd() on a line in a buffer: the command of its tokens, with every word ready
      to be used as a C string. */
  method Parsecmd(buf: array<char>) returns (r: Option<Cmd<Span>>)
    requires buf.Length > 0 && buf[buf.Length - 1] == '\0' && Str(buf[..buf.Length - 1])
    modifies buf
    ensures
      var s := old(buf[..buf.Length - 1]);
      if r.None? then Command(Lex(s, 0)).Panic?
      else
        && SpansOk(s, r.value) && Command(Lex(s, 0)) == Ok(Text(s, r.value), [])
        && forall w :: w in WordsOf(r.value) ==> WordSpan(s, w) && CString(buf[..], w.q) == TextOf(s, w)
  {
    hide Lex, Command, Text, TextOf;
    ghost var s := buf[..buf.Length - 1];
    var parser := new Parser(buf[..buf.Length - 1]);
    r := parser.ParseCmd();
    if r.Some? {
      CommandEnds(Lex(s, 0));
      SpansOfWords(s, r.value);
      NulTerminate(buf, r.value);
      forall w | w in WordsOf(r.value) ensures WordSpan(s, w) && CString(buf[..], w.q) == TextOf(s, w) {
        WordsSurvive(s, r.value, buf[..], w);
      }
    }
  }

  lemma CommandEnds(ts: seq<Token>)
    ensures Command(ts).Ok? ==> Command(ts).rest == []
  {
  }
}
