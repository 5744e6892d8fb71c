/** The lines that the shell accepts, as they are typed: words and redirections
    in any order, '|', '&' and ';' between commands, parentheses where wanted,
    and spaces anywhere.  Each is parsed into the tree that it means. */
module ShellSyntax {
  import opened ShellGrammar
  import opened ShellRoundTrip

  /** A word, one of the symbols, or ">>". */
  datatype Lexeme = Word(w: string) | Sym(c: char) | Twice

  function Str(t: Lexeme): string {
    match t
    case Word(w) => w
    case Sym(c) => [c]
    case Twice => ">>"
  }

  predicate ValidLexeme(t: Lexeme) {
    match t
    case Word(w) => ValidWord(w)
    case Sym(c) => c in SYMBOLS
    case Twice => true
  }

  /** Two lexemes that are one without a space between them. */
  predicate Merge(t: Lexeme, u: Lexeme) {
    (t.Word? && u.Word?) || (t == Sym('>') && (u == Sym('>') || u == Twice))
  }

  predicate Blank(s: string, a: nat, b: nat) {
    a <= b <= |s| && forall x :: a <= x < b ==> s[x] in WHITESPACE
  }

  /** A line, its lexemes, and where each of them is; at has the end, too. */
  datatype Source = Source(s: string, ts: seq<Lexeme>, at: seq<nat>)
  {
    /** Where lexeme k is, or the end. */
    function Pos(k: nat): nat {
      if k < |at| then at[k] else 0
    }

    ghost predicate Ok() {
      && |at| == |ts| + 1 && at[|ts|] == |s| && Blank(s, 0, at[0])
      && forall k: nat :: k < |ts| ==> LexemeAt(k)
    }

    /** After it come spaces, and then the next one. */
    ghost predicate LexemeAt(k: nat)
      requires k < |ts| && |at| == |ts| + 1
    {
      var end := at[k] + |Str(ts[k])|;
      && ValidLexeme(ts[k]) && Occurs(s, at[k], Str(ts[k])) && Blank(s, end, at[k + 1])
      && (k + 1 < |ts| && end == at[k + 1] ==> !Merge(ts[k], ts[k + 1]))
    }

    /** The parser has everything before lexeme k behind it. */
    ghost predicate At(i: nat, k: nat) {
      i <= |s| && k <= |ts| && SkipSpace(s, i) == Pos(k)
    }

    ghost predicate Has(k: nat, ys: seq<Lexeme>) {
      k + |ys| <= |ts| && ts[k..k + |ys|] == ys
    }
  }

  lemma {:induction false} Skips(s: string, a: nat, b: nat)
    requires Blank(s, a, b) && (b < |s| ==> s[b] !in WHITESPACE)
    ensures SkipSpace(s, a) == b == SkipSpace(s, b)
    decreases b - a
  {
    if a < b {
      Skips(s, a + 1, b);
    }
  }

  lemma {:induction false} FirstOf(src: Source, k: nat)
    requires src.Ok() && k < |src.ts|
    ensures var t, i := src.ts[k], src.Pos(k);
            Str(t) != "" && i < |src.s| && src.s[i] == Str(t)[0] && src.s[i] !in WHITESPACE
            && (t.Word? <==> src.s[i] !in SYMBOLS) && (t.Word? ==> IsWord(src.s[i]))
            && i + |Str(t)| <= src.Pos(k + 1) <= |src.s|
  {
    assert src.LexemeAt(k);
    var t := src.ts[k];
    CharAt(src.s, src.Pos(k), Str(t));
    if t.Word? {
      assert t.w[0] in t.w;
    }
  }

  /** Positions of lexemes are where the parser stops. */
  lemma {:induction false} AtSelf(src: Source, k: nat)
    requires src.Ok() && k <= |src.ts|
    ensures src.Pos(k) <= |src.s| && src.At(src.Pos(k), k)
  {
    if k < |src.ts| {
      FirstOf(src, k);
    }
  }

  lemma {:induction false} Starts(src: Source)
    requires src.Ok()
    ensures src.At(0, 0)
  {
    if |src.ts| > 0 {
      FirstOf(src, 0);
    }
    Skips(src.s, 0, src.Pos(0));
  }

  /** peek sees the next lexeme's first character. */
  lemma {:induction false} Looks(src: Source, i: nat, k: nat)
    requires src.Ok() && src.At(i, k)
    ensures forall toks :: Sees(src.s, i, toks) <==> k < |src.ts| && Str(src.ts[k]) != "" && Str(src.ts[k])[0] in toks
    ensures k == |src.ts| <==> SkipSpace(src.s, i) == |src.s|
  {
    if k < |src.ts| {
      FirstOf(src, k);
    }
  }

  function Tok(t: Lexeme): char {
    match t
    case Word(_) => 'a'
    case Sym(c) => c
    case Twice => '+'
  }

  lemma {:induction false} Gets(src: Source, i: nat, k: nat)
    requires src.Ok() && src.At(i, k) && k < |src.ts|
    ensures var t := GetToken(src.s, i);
            && t.tok == Tok(src.ts[k]) && t.next == src.Pos(k + 1)
            && (src.ts[k].Word? ==> TextOf(src.s, t.span) == src.ts[k].w)
  {
    hide GetToken, SkipSpace, SkipWord;
    var s, t, j := src.s, src.ts[k], src.Pos(k);
    FirstOf(src, k);
    assert src.LexemeAt(k);
    var end := j + |Str(t)|;
    AtSelf(src, k);
    AtSelf(src, k + 1);
    if k + 1 < |src.ts| {
      FirstOf(src, k + 1);
    }
    Skips(s, end, src.Pos(k + 1));
    if t.Word? {
      DelimAfter(src, k);
      WordAt(s, j, t.w);
      SameToken(s, i, j);
    } else {
      SymbolToken(src, k);
      SameToken(s, i, j);
    }
  }

  lemma {:induction false} SameToken(s: string, i: nat, j: nat)
    requires i <= |s| && j <= |s| && SkipSpace(s, i) == j == SkipSpace(s, j)
    ensures GetToken(s, i) == GetToken(s, j)
  {
  }

  lemma {:induction false} DelimAfter(src: Source, k: nat)
    requires src.Ok() && k < |src.ts| && src.ts[k].Word?
    ensures Delim(src.s, src.Pos(k) + |src.ts[k].w|)
  {
    assert src.LexemeAt(k);
    var end := src.Pos(k) + |src.ts[k].w|;
    if end == src.Pos(k + 1) && k + 1 < |src.ts| {
      FirstOf(src, k + 1);
    }
  }

  lemma {:induction false} TwiceToken(s: string, j: nat)
    requires j + 1 < |s| && s[j] == s[j + 1] == '>'
    ensures GetToken(s, j).tok == '+' && GetToken(s, j).next == SkipSpace(s, j + 2)
  {
    hide SkipWord;
    assert SkipSpace(s, j) == j;
  }

  lemma {:induction false} SymToken(s: string, j: nat)
    requires j < |s| && s[j] in SYMBOLS && !(s[j] == '>' && j + 1 < |s| && s[j + 1] == '>')
    ensures GetToken(s, j).tok == s[j] && GetToken(s, j).next == SkipSpace(s, j + 1)
  {
    hide SkipWord;
    assert SkipSpace(s, j) == j;
  }

  lemma {:induction false} SymbolToken(src: Source, k: nat)
    requires src.Ok() && k < |src.ts| && !src.ts[k].Word?
    ensures src.Pos(k) + |Str(src.ts[k])| <= |src.s|
    ensures var t := GetToken(src.s, src.Pos(k));
            t.tok == Tok(src.ts[k]) && t.next == SkipSpace(src.s, src.Pos(k) + |Str(src.ts[k])|)
  {
    hide GetToken, SkipSpace;
    var s, t, j := src.s, src.ts[k], src.Pos(k);
    FirstOf(src, k);
    assert src.LexemeAt(k);
    if t == Twice {
      assert s[j..j + 2][1] == s[j + 1];
      TwiceToken(s, j);
    } else {
      NotTwice(src, k);
      SymToken(s, j);
    }
  }

  lemma {:induction false} NotTwice(src: Source, k: nat)
    requires src.Ok() && k < |src.ts| && src.ts[k].Sym?
    ensures var j := src.Pos(k); !(j + 1 < |src.s| && src.s[j] == src.s[j + 1] == '>')
  {
    FirstOf(src, k);
    assert src.LexemeAt(k);
    var s, j := src.s, src.Pos(k);
    if j + 1 < |s| && s[j] == s[j + 1] == '>' {
      assert j + 1 == src.Pos(k + 1);
      if k + 1 < |src.ts| {
        FirstOf(src, k + 1);
        NextIsGreater(src.ts[k + 1]);
      }
    }
  }

  lemma {:induction false} NextIsGreater(t: Lexeme)
    requires ValidLexeme(t) && Str(t) != "" && Str(t)[0] == '>'
    ensures t == Sym('>') || t == Twice
  {
    WordStarts(Str(t));
  }

  lemma {:induction false} WordStarts(w: string)
    ensures ValidWord(w) ==> IsWord(w[0])
  {
    assert w != "" ==> w[0] in w;
  }

  /** A redirection: what '<', '>' or ">>" does, and the file. */
  datatype To = To(kind: Kind, file: string)

  /** What a simple command is made of, in any order. */
  datatype Item = Arg(w: string) | Redirect(to: To)

  datatype Part = Simple(items: seq<Item>) | Block(line: Line, tos: seq<To>)

  datatype Pipes = Last(part: Part) | Piped(part: Part, rest: Pipes)

  /** A pipeline, as many '&' behind it, and what follows a ';'. */
  datatype Line = Final(pipes: Pipes, amps: nat) | Then(pipes: Pipes, amps: nat, rest: Line)

  function Operator(k: Kind): Lexeme {
    match k
    case In => Sym('<')
    case Out => Sym('>')
    case Append => Twice
  }

  function ToLexemes(tos: seq<To>): (r: seq<Lexeme>)
    ensures |r| == 2 * |tos|
  {
    if tos == [] then [] else [Operator(tos[0].kind), Word(tos[0].file)] + ToLexemes(tos[1..])
  }

  function ItemLexemes(items: seq<Item>): seq<Lexeme> {
    if items == [] then []
    else
      (match items[0]
       case Arg(w) => [Word(w)]
       case Redirect(to) => ToLexemes([to]))
      + ItemLexemes(items[1..])
  }

  function PartLexemes(p: Part): seq<Lexeme>
    decreases p
  {
    match p
    case Simple(items) => ItemLexemes(items)
    case Block(line, tos) => [Sym('(')] + (LineLexemes(line) + ([Sym(')')] + ToLexemes(tos)))
  }

  function PipesLexemes(p: Pipes): seq<Lexeme>
    decreases p
  {
    match p
    case Last(part) => PartLexemes(part)
    case Piped(part, rest) => PartLexemes(part) + ([Sym('|')] + PipesLexemes(rest))
  }

  function Amps(n: nat): (r: seq<Lexeme>)
    ensures |r| == n
  {
    if n == 0 then [] else [Sym('&')] + Amps(n - 1)
  }

  function LineLexemes(l: Line): seq<Lexeme>
    decreases l
  {
    match l
    case Final(p, n) => PipesLexemes(p) + Amps(n)
    case Then(p, n, rest) => PipesLexemes(p) + (Amps(n) + ([Sym(';')] + LineLexemes(rest)))
  }

  /** The words of a simple command. */
  function Args(items: seq<Item>): seq<string> {
    if items == [] then []
    else (if items[0].Arg? then [items[0].w] else []) + Args(items[1..])
  }

  /** Its redirections. */
  function Tos(items: seq<Item>): seq<To> {
    if items == [] then []
    else (if items[0].Redirect? then [items[0].to] else []) + Tos(items[1..])
  }

  /** The command with its redirections, the last one outermost. */
  function Redirected(c: Cmd<string>, tos: seq<To>): Cmd<string> {
    if tos == [] then c
    else
      var last := tos[|tos| - 1];
      Redir(Redirected(c, tos[..|tos| - 1]), last.file, last.kind)
  }

  function InBack(c: Cmd<string>, n: nat): Cmd<string> {
    if n == 0 then c else Back(InBack(c, n - 1))
  }

  function PartTree(p: Part): Cmd<string>
    decreases p
  {
    match p
    case Simple(items) => Redirected(Exec(Args(items)), Tos(items))
    case Block(line, tos) => Redirected(LineTree(line), tos)
  }

  function PipesTree(p: Pipes): Cmd<string>
    decreases p
  {
    match p
    case Last(part) => PartTree(part)
    case Piped(part, rest) => Pipe(PartTree(part), PipesTree(rest))
  }

  /** The tree that the line means: a bar binds closer than '&' and ';', and
      both bars and semicolons group to the right. */
  function LineTree(l: Line): Cmd<string>
    decreases l
  {
    match l
    case Final(p, n) => InBack(PipesTree(p), n)
    case Then(p, n, rest) => List(InBack(PipesTree(p), n), LineTree(rest))
  }

  /** No simple command has more words than argv has room for. */
  predicate PartFits(p: Part)
    decreases p
  {
    match p
    case Simple(items) => |Args(items)| < MAXARGS
    case Block(line, _) => LineFits(line)
  }

  predicate PipesFit(p: Pipes)
    decreases p
  {
    PartFits(p.part) && (p.Piped? ==> PipesFit(p.rest))
  }

  predicate LineFits(l: Line)
    decreases l
  {
    PipesFit(l.pipes) && (l.Then? ==> LineFits(l.rest))
  }

  lemma {:induction false} HasBoth(src: Source, k: nat, a: seq<Lexeme>, b: seq<Lexeme>)
    requires src.Has(k, a + b)
    ensures src.Has(k, a) && src.Has(k + |a|, b)
  {
    var all := src.ts[k..k + |a + b|];
    assert all[..|a|] == a && all[|a|..] == b;
    assert src.ts[k..k + |a|] == all[..|a|] && src.ts[k + |a|..k + |a| + |b|] == all[|a|..];
  }

  lemma {:induction false} HasFirst(src: Source, k: nat, t: Lexeme, rest: seq<Lexeme>)
    requires src.Has(k, [t] + rest)
    ensures k < |src.ts| && src.ts[k] == t && src.Has(k + 1, rest)
  {
    HasBoth(src, k, [t], rest);
    assert src.ts[k..k + 1][0] == t;
  }

  /** What ends a simple command: the end, or one of these symbols. */
  predicate Follows(src: Source, k: nat, toks: string) {
    k == |src.ts| || (k < |src.ts| && src.ts[k].Sym? && src.ts[k].c in toks)
  }

  /** The redirections with their files' names. */
  function ListTos(s: string, list: seq<(Span, Kind)>): (r: seq<To>)
    ensures |r| == |list| && forall i :: 0 <= i < |list| ==> r[i] == To(list[i].1, TextOf(s, list[i].0))
  {
    if list == [] then [] else ListTos(s, list[..|list| - 1]) + [To(list[|list| - 1].1, TextOf(s, list[|list| - 1].0))]
  }

  lemma {:induction false} TextOfWrap(s: string, c: Cmd<Span>, list: seq<(Span, Kind)>)
    ensures Text(s, Wrap(c, list)) == Redirected(Text(s, c), ListTos(s, list))
  {
    if list != [] {
      TextOfWrap(s, c, list[..|list| - 1]);
      assert ListTos(s, list)[..|list| - 1] == ListTos(s, list[..|list| - 1]);
    }
  }

  lemma {:induction false} ListTosBoth(s: string, a: seq<(Span, Kind)>, b: seq<(Span, Kind)>)
    ensures ListTos(s, a + b) == ListTos(s, a) + ListTos(s, b)
  {
  }

  lemma {:induction false} TextsMore(s: string, xs: seq<Span>, x: Span)
    ensures Texts(s, xs + [x]) == Texts(s, xs) + [TextOf(s, x)]
  {
  }

  lemma {:induction false} OneRedir(src: Source, i: nat, k: nat, to: To)
    requires src.Ok() && src.At(i, k) && k + 1 < |src.ts|
    requires src.ts[k] == Operator(to.kind) && src.ts[k + 1] == Word(to.file)
    ensures src.At(src.Pos(k + 2), k + 2)
    ensures Sees(src.s, i, "<>")
    ensures var t := GetToken(src.s, i);
            var f := GetToken(src.s, t.next);
            KindOf(t.tok) == to.kind && f.tok == 'a' && f.next == src.Pos(k + 2) && TextOf(src.s, f.span) == to.file
  {
    hide GetToken, Sees, SkipSpace, TextOf;
    Looks(src, i, k);
    Gets(src, i, k);
    AtSelf(src, k + 1);
    Gets(src, src.Pos(k + 1), k + 1);
    AtSelf(src, k + 2);
  }

  lemma {:induction false} ToFirst(src: Source, k: nat, tos: seq<To>)
    requires tos != [] && src.Has(k, ToLexemes(tos))
    ensures k + 1 < |src.ts| && src.ts[k] == Operator(tos[0].kind) && src.ts[k + 1] == Word(tos[0].file)
    ensures src.Has(k + 2, ToLexemes(tos[1..]))
  {
    var op, file := Operator(tos[0].kind), Word(tos[0].file);
    assert ToLexemes(tos) == [op] + ([file] + ToLexemes(tos[1..]));
    HasFirst(src, k, op, [file] + ToLexemes(tos[1..]));
    HasFirst(src, k + 1, file, ToLexemes(tos[1..]));
  }

  ghost predicate ReadsTos(src: Source, r: Redirs, k: nat, tos: seq<To>) {
    r.Redirs? && r.next == src.Pos(k) && ListTos(src.s, r.list) == tos
  }

  /** parseredirs, on redirections and nothing else. */
  lemma {:induction false} RedirsAt(src: Source, i: nat, k: nat, tos: seq<To>)
    requires src.Ok() && src.At(i, k) && src.Has(k, ToLexemes(tos))
    requires var end := k + 2 * |tos|; end == |src.ts| || Str(src.ts[end]) == "" || Str(src.ts[end])[0] !in "<>"
    ensures ReadsTos(src, ParseRedirs(src.s, i), k + 2 * |tos|, tos)
    decreases |tos|
  {
    hide GetToken, Sees, SkipSpace, TextOf, Source.Ok, ToLexemes, KindOf, Operator, Source.Pos, ReadsTos;
    if tos == [] {
      NoRedir(src, i, k);
    } else {
      ToFirst(src, k, tos);
      OneRedir(src, i, k, tos[0]);
      hide Source.Has;
      RedirsAt(src, src.Pos(k + 2), k + 2, tos[1..]);
      RedirsMore(src, i, k + 2 * |tos|, tos);
    }
  }

  lemma {:induction false} NoRedir(src: Source, i: nat, k: nat)
    requires src.Ok() && src.At(i, k) && (k == |src.ts| || Str(src.ts[k]) == "" || Str(src.ts[k])[0] !in "<>")
    ensures ReadsTos(src, ParseRedirs(src.s, i), k, [])
  {
    hide Sees, SkipSpace, Source.LexemeAt;
    Looks(src, i, k);
  }

  lemma {:induction false} RedirsMore(src: Source, i: nat, end: nat, tos: seq<To>)
    requires i <= |src.s| && tos != [] && Sees(src.s, i, "<>")
    requires var t := GetToken(src.s, i);
             var f := GetToken(src.s, t.next);
             && KindOf(t.tok) == tos[0].kind && f.tok == 'a' && TextOf(src.s, f.span) == tos[0].file
             && ReadsTos(src, ParseRedirs(src.s, f.next), end, tos[1..])
    ensures ReadsTos(src, ParseRedirs(src.s, i), end, tos)
  {
    RedirsOnce(src.s, i);
    hide GetToken, Sees, SkipSpace, TextOf, KindOf, ParseRedirs;
    var t := GetToken(src.s, i);
    var f := GetToken(src.s, t.next);
    var here := [(f.span, KindOf(t.tok))];
    ListTosBoth(src.s, here, ParseRedirs(src.s, f.next).list);
    ListTosOne(src.s, here);
    hide ListTos;
    assert [tos[0]] + tos[1..] == tos;
  }

  lemma {:induction false} RedirsOnce(s: string, i: nat)
    requires i <= |s| && Sees(s, i, "<>")
    ensures var t := GetToken(s, i);
            var f := GetToken(s, t.next);
            var rest := ParseRedirs(s, f.next);
            f.tok == 'a' && rest.Redirs? ==>
              ParseRedirs(s, i) == Redirs([(f.span, KindOf(t.tok))] + rest.list, rest.next)
  {
    hide GetToken, Sees, SkipSpace, KindOf;
  }

  lemma {:induction false} SkipIs(src: Source, i: nat, k: nat)
    requires src.At(i, k)
    ensures SkipSpace(src.s, i) == src.Pos(k)
  {
  }

  lemma {:induction false} ListTosOne(s: string, list: seq<(Span, Kind)>)
    requires |list| == 1
    ensures ListTos(s, list) == [To(list[0].1, TextOf(s, list[0].0))]
  {
  }

  /** The redirections at the beginning. */
  function Leading(items: seq<Item>): (tos: seq<To>)
    ensures |tos| <= |items|
    ensures |tos| == |items| || items[|tos|].Arg?
  {
    if items == [] || items[0].Arg? then [] else [items[0].to] + Leading(items[1..])
  }

  lemma {:induction false} LeadingIs(items: seq<Item>)
    ensures var tos := Leading(items);
            var rest := items[|tos|..];
            && ItemLexemes(items) == ToLexemes(tos) + ItemLexemes(rest)
            && Args(items) == Args(rest) && Tos(items) == tos + Tos(rest)
  {
    if items != [] && items[0].Redirect? {
      var to, tail := items[0].to, Leading(items[1..]);
      var rest := items[1..][|tail|..];
      LeadingIs(items[1..]);
      OneTo(to, tail);
      FirstRedirect(items);
      assert items[|Leading(items)|..] == rest;
      hide ItemLexemes, ToLexemes, Args, Tos, Leading;
      Assoc(ToLexemes([to]), ToLexemes(tail), ItemLexemes(rest));
      Assoc([to], tail, Tos(rest));
    } else {
      assert items[0..] == items && ToLexemes([]) == [];
    }
  }

  lemma {:induction false} Assoc<T>(a: seq<T>, b: seq<T>, c: seq<T>)
    ensures a + (b + c) == (a + b) + c
  {
  }

  lemma {:induction false} FirstRedirect(items: seq<Item>)
    requires items != [] && items[0].Redirect?
    ensures ItemLexemes(items) == ToLexemes([items[0].to]) + ItemLexemes(items[1..])
    ensures Args(items) == Args(items[1..]) && Tos(items) == [items[0].to] + Tos(items[1..])
    ensures Leading(items) == [items[0].to] + Leading(items[1..])
  {
    assert [] + Args(items[1..]) == Args(items[1..]);
  }

  lemma {:induction false} OneTo(to: To, tos: seq<To>)
    ensures ToLexemes([to] + tos) == ToLexemes([to]) + ToLexemes(tos)
  {
    assert ([to] + tos)[1..] == tos && [to][1..] == [];
    assert ToLexemes([]) == [];
  }

  /** After the leading redirections comes a word, or what ends the command. */
  lemma {:induction false} AfterLeading(src: Source, k: nat, rest: seq<Item>)
    requires src.Ok() && src.Has(k, ItemLexemes(rest)) && (rest == [] || rest[0].Arg?)
    requires Follows(src, k + |ItemLexemes(rest)|, "|)&;")
    ensures k == |src.ts| || (Str(src.ts[k]) != "" && Str(src.ts[k])[0] !in "<>(")
    ensures rest != [] ==> k < |src.ts| && src.ts[k] == Word(rest[0].w) && src.Has(k + 1, ItemLexemes(rest[1..]))
                           && Str(src.ts[k])[0] !in SYMBOLS
  {
    hide Source.LexemeAt;
    if rest == [] {
      assert k + |ItemLexemes(rest)| == k;
    } else {
      assert ItemLexemes(rest) == [Word(rest[0].w)] + ItemLexemes(rest[1..]);
      hide ItemLexemes;
      HasFirst(src, k, Word(rest[0].w), ItemLexemes(rest[1..]));
      hide Source.Has;
      FirstOf(src, k);
    }
  }

  /** A simple command with these words and redirections, up to lexeme k. */
  ghost predicate ReadsExec(src: Source, r: Parsed, k: nat, args: seq<string>, tos: seq<To>) {
    if |args| < MAXARGS then r.Ok? && r.next == src.Pos(k) && Text(src.s, r.cmd) == Redirected(Exec(args), tos)
    else r == Failed(TooManyArgs)
  }

  /** parseexec's loop. */
  lemma {:induction false} ArgsAt(src: Source, i: nat, k: nat, items: seq<Item>, args: seq<Span>,
                                  list: seq<(Span, Kind)>)
    requires src.Ok() && src.At(i, k) && src.Has(k, ItemLexemes(items)) && (items == [] || items[0].Arg?)
    requires Follows(src, k + |ItemLexemes(items)|, "|)&;") && |args| < MAXARGS
    ensures ReadsExec(src, ParseArgs(src.s, i, args, list), k + |ItemLexemes(items)|,
                      Texts(src.s, args) + Args(items), ListTos(src.s, list) + Tos(items))
    decreases |items|
  {
    hide GetToken, Sees, SkipSpace, TextOf, Source.Ok, Source.At, ParseRedirs, Source.Has, ItemLexemes, Args, Tos, ParseArgs;
    hide Texts, ListTos;
    if items == [] {
      NoItems();
      ArgsDone(src, i, k, args, list);
    } else if |args| + 1 < MAXARGS {
      var i', k', rest, args', list' := ItemRead(src, i, k, items, args, list);
      hide ReadsExec, Follows;
      ArgsAt(src, i', k', rest, args', list');
    } else {
      AfterLeading(src, k, items);
      OneWord(src, i, k, items[0].w, args, list);
      FirstArg(items);
      TextsSize(src.s, args);
    }
  }

  lemma {:induction false} TextsSize(s: string, args: seq<Span>)
    ensures |Texts(s, args)| == |args|
  {
  }

  /** The redirections before the next word are read. */
  lemma {:induction false} LeadingAt(src: Source, i: nat, k: nat, items: seq<Item>) returns (k': nat)
    requires src.Ok() && i <= |src.s| && src.At(i, k) && src.Has(k, ItemLexemes(items))
    requires Follows(src, k + |ItemLexemes(items)|, "|)&;")
    ensures var tos := Leading(items);
            var rest := items[|tos|..];
            && k' == k + 2 * |tos| && src.Has(k', ItemLexemes(rest)) && src.At(src.Pos(k'), k')
            && k' + |ItemLexemes(rest)| == k + |ItemLexemes(items)|
            && ReadsTos(src, ParseRedirs(src.s, i), k', tos) && !Sees(src.s, i, "(")
  {
    hide Source.Ok, ParseRedirs, ReadsTos, ItemLexemes, ToLexemes, SkipSpace, Source.Has, Sees;
    var tos := Leading(items);
    var rest := items[|tos|..];
    LeadingIs(items);
    HasBoth(src, k, ToLexemes(tos), ItemLexemes(rest));
    k' := k + 2 * |tos|;
    AfterLeading(src, k', rest);
    NotBlock(src, i, k, tos, rest);
    RedirsAt(src, i, k, tos);
    AtSelf(src, k');
  }

  /** One turn of the loop, with the redirections behind the word. */
  lemma {:induction false} ItemRead(src: Source, i: nat, k: nat, items: seq<Item>, args: seq<Span>,
                                    list: seq<(Span, Kind)>)
      returns (i': nat, k': nat, rest: seq<Item>, args': seq<Span>, list': seq<(Span, Kind)>)
    requires src.Ok() && src.At(i, k) && src.Has(k, ItemLexemes(items)) && items != [] && items[0].Arg?
    requires Follows(src, k + |ItemLexemes(items)|, "|)&;") && |args| + 1 < MAXARGS
    ensures src.At(i', k') && src.Has(k', ItemLexemes(rest)) && (rest == [] || rest[0].Arg?) && |rest| < |items|
    ensures k' + |ItemLexemes(rest)| == k + |ItemLexemes(items)| && |args'| == |args| + 1
    ensures i <= |src.s| && i' <= |src.s|
    ensures ParseArgs(src.s, i, args, list) == ParseArgs(src.s, i', args', list')
    ensures Texts(src.s, args') + Args(rest) == Texts(src.s, args) + Args(items)
    ensures ListTos(src.s, list') + Tos(rest) == ListTos(src.s, list) + Tos(items)
  {
    hide GetToken, Sees, SkipSpace, TextOf, Source.Ok, ParseRedirs, Source.Has, ItemLexemes, Args, Tos, ParseArgs;
    hide Texts, ListTos;
    AfterLeading(src, k, items);
    OneWord(src, i, k, items[0].w, args, list);
    FirstArg(items);
    hide Source.At, Str;
    var tos := Leading(items[1..]);
    rest := items[1..][|tos|..];
    LeadingIs(items[1..]);
    k' := LeadingAt(src, src.Pos(k + 1), k + 1, items[1..]);
    var t, r := GetToken(src.s, src.Pos(k)), ParseRedirs(src.s, src.Pos(k + 1));
    i', args', list' := r.next, args + [t.span], list + r.list;
    TextsMore(src.s, args, t.span);
    ListTosBoth(src.s, list, r.list);
    Assoc(Texts(src.s, args), [items[0].w], Args(rest));
    Assoc(ListTos(src.s, list), tos, Tos(rest));
  }

  lemma {:induction false} NoItems()
    ensures Args([]) == [] && Tos([]) == [] && ItemLexemes([]) == []
  {
  }

  lemma {:induction false} FirstArg(items: seq<Item>)
    requires items != [] && items[0].Arg?
    ensures Args(items) == [items[0].w] + Args(items[1..]) && Tos(items) == Tos(items[1..])
    ensures |ItemLexemes(items)| == 1 + |ItemLexemes(items[1..])|
  {
  }

  /** One turn of the loop. */
  lemma {:induction false} OneWord(src: Source, i: nat, k: nat, w: string, args: seq<Span>, list: seq<(Span, Kind)>)
    requires src.Ok() && src.At(i, k) && k < |src.ts| && src.ts[k] == Word(w)
    ensures src.At(src.Pos(k + 1), k + 1) && src.Pos(k) <= |src.s|
    ensures var t := GetToken(src.s, src.Pos(k));
            && t.next == src.Pos(k + 1) && TextOf(src.s, t.span) == w
            && (|args| + 1 >= MAXARGS ==> ParseArgs(src.s, i, args, list) == Failed(TooManyArgs))
            && (|args| + 1 < MAXARGS ==>
                  var r := ParseRedirs(src.s, src.Pos(k + 1));
                  r.Redirs? ==>
                    ParseArgs(src.s, i, args, list) == ParseArgs(src.s, r.next, args + [t.span], list + r.list))
  {
    hide GetToken, Sees, TextOf, ParseRedirs, Source.LexemeAt;
    FirstOf(src, k);
    Looks(src, i, k);
    AtSelf(src, k);
    Gets(src, src.Pos(k), k);
    AtSelf(src, k + 1);
  }

  lemma {:induction false} ArgsDone(src: Source, i: nat, k: nat, args: seq<Span>, list: seq<(Span, Kind)>)
    requires src.Ok() && src.At(i, k) && Follows(src, k, "|)&;") && |args| < MAXARGS
    ensures ReadsExec(src, ParseArgs(src.s, i, args, list), k, Texts(src.s, args) + [], ListTos(src.s, list) + [])
  {
    LoopEnds(src, i, k, args, list);
    TextOfWrap(src.s, Exec(args), list);
    TextsSize(src.s, args);
    hide ParseArgs, Wrap, Texts, ListTos, Redirected, Source.Ok, Source.At, Follows;
    assert Texts(src.s, args) + [] == Texts(src.s, args) && ListTos(src.s, list) + [] == ListTos(src.s, list);
  }

  lemma {:induction false} LoopEnds(src: Source, i: nat, k: nat, args: seq<Span>, list: seq<(Span, Kind)>)
    requires src.Ok() && src.At(i, k) && Follows(src, k, "|)&;")
    ensures ParseArgs(src.s, i, args, list) == Ok(Wrap(Exec(args), list), src.Pos(k))
  {
    hide Sees, Wrap, Source.LexemeAt;
    Looks(src, i, k);
  }

  /** The parser's answer for a part of the line up to lexeme k. */
  ghost predicate ReadsTree(src: Source, r: Parsed, k: nat, tree: Cmd<string>, fits: bool) {
    if fits then r.Ok? && r.next == src.Pos(k) && Text(src.s, r.cmd) == tree else r == Failed(TooManyArgs)
  }

  lemma {:induction false} SimpleAt(src: Source, i: nat, k: nat, items: seq<Item>)
    requires src.Ok() && i <= |src.s| && src.At(i, k) && src.Has(k, ItemLexemes(items))
    requires Follows(src, k + |ItemLexemes(items)|, "|)&;")
    ensures ReadsTree(src, ParseExec(src.s, i), k + |ItemLexemes(items)|, PartTree(Simple(items)),
                      PartFits(Simple(items)))
  {
    hide GetToken, Sees, SkipSpace, TextOf, Source.Ok, ParseRedirs, Source.Has, ItemLexemes, ParseArgs, Texts, ListTos;
    hide ParseExec, Source.At, Redirected, Text;
    var tos := Leading(items);
    var rest := items[|tos|..];
    LeadingIs(items);
    var k' := LeadingAt(src, i, k, items);
    var r := ParseRedirs(src.s, i);
    ArgsAt(src, r.next, k', rest, [], r.list);
    NothingRead(src.s);
    assert [] + Args(rest) == Args(rest);
    NoBlock(src.s, i);
  }

  lemma {:induction false} NoBlock(s: string, i: nat)
    requires i <= |s| && !Sees(s, i, "(")
    ensures var r := ParseRedirs(s, i); r.Redirs? ==> ParseExec(s, i) == ParseArgs(s, r.next, [], r.list)
  {
    hide Sees, ParseRedirs, ParseArgs;
  }

  lemma {:induction false} NothingRead(s: string)
    ensures Texts(s, []) == []
  {
  }

  lemma {:induction false} NotBlock(src: Source, i: nat, k: nat, tos: seq<To>, rest: seq<Item>)
    requires src.Ok() && src.At(i, k) && src.Has(k, ToLexemes(tos))
    requires var end := k + 2 * |tos|; end == |src.ts| || (Str(src.ts[end]) != "" && Str(src.ts[end])[0] !in "<>(")
    ensures !Sees(src.s, i, "(")
  {
    hide Sees, SkipSpace, Source.LexemeAt;
    Looks(src, i, k);
    if tos != [] {
      ToFirst(src, k, tos);
    }
  }

  lemma {:induction false} PartAt(src: Source, i: nat, k: nat, p: Part)
    requires src.Ok() && i <= |src.s| && src.At(i, k) && src.Has(k, PartLexemes(p)) && Follows(src, k + |PartLexemes(p)|, "|)&;")
    ensures ReadsTree(src, ParseExec(src.s, i), k + |PartLexemes(p)|, PartTree(p), PartFits(p))
    decreases p
  {
    match p
    case Simple(items) => SimpleAt(src, i, k, items);
    case Block(line, tos) =>
      hide Source.Ok, Source.At, ReadsTree, ParseLine, ParseExec, Redirected, Text, LineTree, LineFits;
      var close := BlockParts(src, k, line, tos);
      hide PartLexemes, LineLexemes, ToLexemes, Source.Has;
      AtSelf(src, k + 1);
      LineAt(src, src.Pos(k + 1), k + 1, line);
      BlockAt(src, i, k, line, tos, close);
  }

  lemma {:induction false} BlockParts(src: Source, k: nat, line: Line, tos: seq<To>) returns (close: nat)
    requires src.Has(k, PartLexemes(Block(line, tos)))
    ensures close == k + 1 + |LineLexemes(line)| < |src.ts| && src.ts[k] == Sym('(') && src.ts[close] == Sym(')')
    ensures src.Has(k + 1, LineLexemes(line)) && src.Has(close + 1, ToLexemes(tos))
    ensures close + 1 + 2 * |tos| == k + |PartLexemes(Block(line, tos))| && Follows(src, close, ")")
  {
    var inner := LineLexemes(line);
    close := k + 1 + |inner|;
    HasFirst(src, k, Sym('('), inner + ([Sym(')')] + ToLexemes(tos)));
    HasBoth(src, k + 1, inner, [Sym(')')] + ToLexemes(tos));
    HasFirst(src, close, Sym(')'), ToLexemes(tos));
  }

  lemma {:induction false} BlockAt(src: Source, i: nat, k: nat, line: Line, tos: seq<To>, close: nat)
    requires src.Ok() && src.At(i, k) && k < close < |src.ts| && src.ts[k] == Sym('(') && src.ts[close] == Sym(')')
    requires src.Has(close + 1, ToLexemes(tos)) && Follows(src, close + 1 + 2 * |tos|, "|)&;")
    requires src.Pos(k + 1) <= |src.s|
    requires ReadsTree(src, ParseLine(src.s, src.Pos(k + 1)), close, LineTree(line), LineFits(line))
    ensures ReadsTree(src, ParseExec(src.s, i), close + 1 + 2 * |tos|, Redirected(LineTree(line), tos), LineFits(line))
  {
    hide GetToken, Sees, SkipSpace, ParseRedirs, ParseLine, Wrap, Text, Redirected, LineTree, LineFits, ListTos;
    hide Source.LexemeAt, ToLexemes;
    Looks(src, i, k);
    AtSelf(src, k);
    Looks(src, src.Pos(k), k);
    Gets(src, src.Pos(k), k);
    AtSelf(src, close);
    Looks(src, src.Pos(close), close);
    Gets(src, src.Pos(close), close);
    AtSelf(src, close + 1);
    RedirsAt(src, src.Pos(close + 1), close + 1, tos);
    if LineFits(line) {
      TextOfWrap(src.s, ParseLine(src.s, src.Pos(k + 1)).cmd, ParseRedirs(src.s, src.Pos(close + 1)).list);
    }
  }

  lemma {:induction false} PipesAt(src: Source, i: nat, k: nat, p: Pipes)
    requires src.Ok() && i <= |src.s| && src.At(i, k) && src.Has(k, PipesLexemes(p)) && Follows(src, k + |PipesLexemes(p)|, ")&;")
    ensures ReadsTree(src, ParsePipe(src.s, i), k + |PipesLexemes(p)|, PipesTree(p), PipesFit(p))
    decreases p
  {
    hide Source.Ok, Source.At, ReadsTree, ParsePipe, ParseExec, PartLexemes, PartTree, PartFits, Text;
    match p
    case Last(part) =>
      PartAt(src, i, k, part);
      NoBar(src, i, k + |PartLexemes(part)|, PartTree(part), PartFits(part));
    case Piped(part, rest) =>
      var bar := k + |PartLexemes(part)|;
      HasBoth(src, k, PartLexemes(part), [Sym('|')] + PipesLexemes(rest));
      HasFirst(src, bar, Sym('|'), PipesLexemes(rest));
      PartAt(src, i, k, part);
      AtSelf(src, bar + 1);
      PipesAt(src, src.Pos(bar + 1), bar + 1, rest);
      Bar(src, i, bar, bar + 1 + |PipesLexemes(rest)|, PartTree(part), PartFits(part), PipesTree(rest), PipesFit(rest));
  }

  lemma {:induction false} NoBar(src: Source, i: nat, end: nat, tree: Cmd<string>, fits: bool)
    requires src.Ok() && i <= |src.s| && Follows(src, end, ")&;") && ReadsTree(src, ParseExec(src.s, i), end, tree, fits)
    ensures ReadsTree(src, ParsePipe(src.s, i), end, tree, fits)
  {
    hide GetToken, Sees, SkipSpace, ParseExec, Text, Source.LexemeAt;
    AtSelf(src, end);
    Looks(src, src.Pos(end), end);
  }

  lemma {:induction false} Bar(src: Source, i: nat, bar: nat, end: nat, left: Cmd<string>, leftFits: bool,
                               right: Cmd<string>, rightFits: bool)
    requires src.Ok() && i <= |src.s| && bar < |src.ts| && src.ts[bar] == Sym('|') && src.Pos(bar + 1) <= |src.s|
    requires ReadsTree(src, ParseExec(src.s, i), bar, left, leftFits)
    requires ReadsTree(src, ParsePipe(src.s, src.Pos(bar + 1)), end, right, rightFits)
    ensures ReadsTree(src, ParsePipe(src.s, i), end, Pipe(left, right), leftFits && rightFits)
  {
    hide GetToken, Sees, SkipSpace, ParseExec, Source.LexemeAt;
    AtSelf(src, bar);
    Looks(src, src.Pos(bar), bar);
    Gets(src, src.Pos(bar), bar);
  }

  /** parseline's loop. */
  lemma {:induction false} AmpsAt(src: Source, i: nat, k: nat, n: nat, cmd: Cmd<Span>)
    requires src.Ok() && src.At(i, k) && src.Has(k, Amps(n)) && Follows(src, k + n, ");")
    ensures var r := ParseAmps(src.s, i, cmd); r.next == src.Pos(k + n) && Text(src.s, r.cmd) == InBack(Text(src.s, cmd), n)
    decreases n
  {
    hide GetToken, Sees, SkipSpace, Source.LexemeAt;
    Looks(src, i, k);
    if n > 0 {
      HasFirst(src, k, Sym('&'), Amps(n - 1));
      Gets(src, i, k);
      AtSelf(src, k + 1);
      AmpsAt(src, src.Pos(k + 1), k + 1, n - 1, Back(cmd));
      BackInside(Text(src.s, cmd), n - 1);
    }
  }

  lemma {:induction false} BackInside(c: Cmd<string>, n: nat)
    ensures InBack(Back(c), n) == InBack(c, n + 1)
  {
    if n > 0 {
      BackInside(c, n - 1);
    }
  }

  lemma {:induction false} LineAt(src: Source, i: nat, k: nat, l: Line)
    requires src.Ok() && i <= |src.s| && src.At(i, k) && src.Has(k, LineLexemes(l)) && Follows(src, k + |LineLexemes(l)|, ")")
    ensures ReadsTree(src, ParseLine(src.s, i), k + |LineLexemes(l)|, LineTree(l), LineFits(l))
    decreases l
  {
    hide Source.Ok, Source.At, ReadsTree, ParsePipe, ParseLine, PipesLexemes, PipesTree, PipesFit, InBack, Text, Amps;
    var amps := k + |PipesLexemes(l.pipes)|;
    var semi := amps + l.amps;
    match l
    case Final(p, n) =>
      FinalParts(src, k, p, n);
      hide LineLexemes, Source.Has;
      AmpsFollow(src, amps, n);
      PipesAt(src, i, k, p);
      LineEnds(src, i, amps, n, PipesTree(p), PipesFit(p));
    case Then(p, n, rest) =>
      ThenParts(src, k, p, n, rest);
      hide LineLexemes, Source.Has;
      AmpsFollow(src, amps, n);
      PipesAt(src, i, k, p);
      AtSelf(src, semi + 1);
      LineAt(src, src.Pos(semi + 1), semi + 1, rest);
      LineGoesOn(src, i, amps, n, PipesTree(p), PipesFit(p), semi + 1 + |LineLexemes(rest)|, LineTree(rest), LineFits(rest));
  }

  lemma {:induction false} FinalParts(src: Source, k: nat, p: Pipes, n: nat)
    requires src.Has(k, LineLexemes(Final(p, n)))
    ensures src.Has(k, PipesLexemes(p)) && src.Has(k + |PipesLexemes(p)|, Amps(n))
    ensures |LineLexemes(Final(p, n))| == |PipesLexemes(p)| + n
  {
    HasBoth(src, k, PipesLexemes(p), Amps(n));
  }

  lemma {:induction false} ThenParts(src: Source, k: nat, p: Pipes, n: nat, rest: Line)
    requires src.Has(k, LineLexemes(Then(p, n, rest)))
    ensures var amps := k + |PipesLexemes(p)|;
            var semi := amps + n;
            && semi < |src.ts| && src.ts[semi] == Sym(';') && Follows(src, semi, ");")
            && src.Has(k, PipesLexemes(p)) && src.Has(amps, Amps(n)) && src.Has(semi + 1, LineLexemes(rest))
            && semi + 1 + |LineLexemes(rest)| == k + |LineLexemes(Then(p, n, rest))|
  {
    assert LineLexemes(Then(p, n, rest)) == PipesLexemes(p) + (Amps(n) + ([Sym(';')] + LineLexemes(rest)));
    hide LineLexemes, PipesLexemes, Amps, Source.Has;
    HasThree(src, k, PipesLexemes(p), Amps(n), Sym(';'), LineLexemes(rest));
  }

  lemma {:induction false} HasThree(src: Source, k: nat, a: seq<Lexeme>, b: seq<Lexeme>, t: Lexeme, c: seq<Lexeme>)
    requires src.Has(k, a + (b + ([t] + c)))
    ensures var mid := k + |a| + |b|;
            mid < |src.ts| && src.ts[mid] == t && src.Has(k, a) && src.Has(k + |a|, b) && src.Has(mid + 1, c)
  {
    hide Source.Has;
    HasBoth(src, k, a, b + ([t] + c));
    HasBoth(src, k + |a|, b, [t] + c);
    HasFirst(src, k + |a| + |b|, t, c);
  }

  lemma {:induction false} AmpsFollow(src: Source, k: nat, n: nat)
    requires src.Has(k, Amps(n)) && Follows(src, k + n, ");")
    ensures Follows(src, k, ")&;")
  {
    if n > 0 {
      HasFirst(src, k, Sym('&'), Amps(n - 1));
    }
  }

  lemma {:induction false} LineEnds(src: Source, i: nat, k: nat, n: nat, tree: Cmd<string>, fits: bool)
    requires src.Ok() && i <= |src.s| && src.Has(k, Amps(n)) && Follows(src, k + n, ")")
    requires ReadsTree(src, ParsePipe(src.s, i), k, tree, fits)
    ensures ReadsTree(src, ParseLine(src.s, i), k + n, InBack(tree, n), fits)
  {
    hide GetToken, Sees, SkipSpace, ParsePipe, ParseAmps, Text, InBack, Source.LexemeAt, Source.Has;
    AtSelf(src, k);
    if fits {
      AmpsAt(src, src.Pos(k), k, n, ParsePipe(src.s, i).cmd);
      AtSelf(src, k + n);
      Looks(src, src.Pos(k + n), k + n);
    }
  }

  lemma {:induction false} LineGoesOn(src: Source, i: nat, k: nat, n: nat, tree: Cmd<string>, fits: bool,
                                      end: nat, right: Cmd<string>, rightFits: bool)
    requires src.Ok() && i <= |src.s| && src.Has(k, Amps(n)) && k + n < |src.ts| && src.ts[k + n] == Sym(';')
    requires src.Pos(k + n + 1) <= |src.s|
    requires ReadsTree(src, ParsePipe(src.s, i), k, tree, fits)
    requires ReadsTree(src, ParseLine(src.s, src.Pos(k + n + 1)), end, right, rightFits)
    ensures ReadsTree(src, ParseLine(src.s, i), end, List(InBack(tree, n), right), fits && rightFits)
  {
    hide GetToken, Sees, SkipSpace, ParsePipe, ParseAmps, InBack, Source.LexemeAt, Source.Has;
    AtSelf(src, k);
    if fits {
      AmpsAt(src, src.Pos(k), k, n, ParsePipe(src.s, i).cmd);
      AtSelf(src, k + n);
      Looks(src, src.Pos(k + n), k + n);
      Gets(src, src.Pos(k + n), k + n);
    }
  }

  /** Every line that is made of these lexemes, with any spaces between them, is
      parsed into the tree that it means, exactly when its commands have at most
      nine words each; otherwise the shell says that there are too many. */
  lemma {:induction false} LineIsParsed(src: Source, l: Line)
    requires src.Ok() && src.ts == LineLexemes(l)
    ensures var r := ParseCmd(src.s);
            if LineFits(l) then r.Ok? && Text(src.s, r.cmd) == LineTree(l) else r == Failed(TooManyArgs)
  {
    hide ParseLine, LineTree, LineFits, Text;
    Starts(src);
    assert src.ts[0..0 + |src.ts|] == src.ts;
    LineAt(src, 0, 0, l);
    var r := ParseLine(src.s, 0);
    if r.Ok? {
      AtSelf(src, |src.ts|);
      assert src.Pos(|src.ts|) == |src.s|;
    }
  }

  /** The shape of `echo>out`. */
  lemma {:induction false} WordThenFile(w: string, file: string)
    requires ValidWord(w) && ValidWord(file)
    ensures var s := w + ">" + file; var r := ParseCmd(s); r.Ok? && Text(s, r.cmd) == Redir(Exec([w]), file, Out)
  {
    var items := [Arg(w), Redirect(To(Out, file))];
    var line := Final(Last(Simple(items)), 0);
    var src := Spelled(w, file);
    ItemsAre(w, file);
    OneCommand(items);
    LineIsParsed(src, line);
    hide ParseCmd, Text, Redirected;
  }

  lemma {:induction false} OneCommand(items: seq<Item>)
    ensures var line := Final(Last(Simple(items)), 0);
            && LineLexemes(line) == ItemLexemes(items) && LineTree(line) == Redirected(Exec(Args(items)), Tos(items))
            && LineFits(line) == (|Args(items)| < MAXARGS)
  {
    var p := Last(Simple(items));
    assert PipesLexemes(p) == PartLexemes(Simple(items)) == ItemLexemes(items);
    assert Amps(0) == [] && LineLexemes(Final(p, 0)) == PipesLexemes(p) + Amps(0);
    assert PipesTree(p) == PartTree(Simple(items)) && PipesFit(p) == PartFits(Simple(items));
  }

  lemma {:induction false} Spelled(w: string, file: string) returns (src: Source)
    requires ValidWord(w) && ValidWord(file)
    ensures src.Ok() && src.s == w + ">" + file && src.ts == [Word(w), Sym('>'), Word(file)]
  {
    var s := w + ">" + file;
    src := Source(s, [Word(w), Sym('>'), Word(file)], [0, |w|, |w| + 1, |s|]);
    assert Occurs(s, 0, w) && Occurs(s, |w|, ">") && Occurs(s, |w| + 1, file);
    hide ValidWord, Occurs, IsWord;
    assert src.LexemeAt(0);
    assert src.LexemeAt(1);
    assert src.LexemeAt(2);
  }

  lemma {:induction false} ItemsAre(w: string, file: string)
    ensures var items := [Arg(w), Redirect(To(Out, file))];
            && ItemLexemes(items) == [Word(w), Sym('>'), Word(file)]
            && Args(items) == [w] && Tos(items) == [To(Out, file)]
            && Redirected(Exec([w]), [To(Out, file)]) == Redir(Exec([w]), file, Out)
  {
    var to := To(Out, file);
    var items := [Arg(w), Redirect(to)];
    assert items[1..] == [Redirect(to)] && [Redirect(to)][1..] == [] && [to][1..] == [] && [to][..0] == [];
    NoItems();
    assert ToLexemes([]) == [];
    assert ToLexemes([to]) == [Sym('>'), Word(file)] + [];
    assert ItemLexemes([Redirect(to)]) == ToLexemes([to]) + [];
  }
}
