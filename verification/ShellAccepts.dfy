/** The shell accepts no other lines: whatever it parses is a line of words,
    redirections and operators, with the tree that this line means. */
module ShellAccepts {
  import opened ShellGrammar
  import opened ShellRoundTrip
  import opened ShellSyntax

  predicate NoNul(s: string) {
    forall c :: c in s ==> c != '\0'
  }

  lemma {:induction false} SkipsBlank(s: string, i: nat)
    requires i <= |s|
    ensures Blank(s, i, SkipSpace(s, i))
    decreases |s| - i
  {
    if i < |s| && s[i] in WHITESPACE {
      SkipsBlank(s, i + 1);
    }
  }

  /** The longest lexeme at j. */
  ghost predicate Longest(s: string, j: nat, t: Lexeme) {
    var end := j + |Str(t)|;
    && ValidLexeme(t) && Occurs(s, j, Str(t)) && j < end
    && (t.Word? ==> Delim(s, end)) && (t == Sym('>') ==> end == |s| || s[end] != '>')
  }

  lemma {:induction false} LexemeOf(s: string, j: nat) returns (t: Lexeme)
    requires NoNul(s) && j < |s| && s[j] !in WHITESPACE
    ensures Longest(s, j, t)
  {
    if s[j] == '>' && j + 1 < |s| && s[j + 1] == '>' {
      t := Twice;
      assert s[j..j + 2] == ">>";
    } else if s[j] in SYMBOLS {
      t := Sym(s[j]);
      assert s[j..j + 1] == [s[j]];
    } else {
      var end := SkipWord(s, j);
      t := Word(s[j..end]);
      WordOf(s, j, end);
    }
  }

  lemma {:induction false} WordOf(s: string, j: nat, end: nat)
    requires NoNul(s) && j < |s| && s[j] !in WHITESPACE && s[j] !in SYMBOLS && end == SkipWord(s, j)
    ensures ValidWord(s[j..end]) && Occurs(s, j, s[j..end]) && j < end && Delim(s, end)
  {
    var w := s[j..end];
    forall c | c in w ensures IsWord(c) {
      var x :| 0 <= x < |w| && w[x] == c;
      assert s[j + x] == c && s[j + x] in s;
    }
  }

  /** Lexemes from j to the end of the line. */
  ghost predicate Lexed(src: Source, j: nat) {
    && |src.at| == |src.ts| + 1 && src.at[0] == j && src.at[|src.ts|] == |src.s|
    && forall k: nat :: k < |src.ts| ==> src.LexemeAt(k)
  }

  lemma {:induction false} LexFrom(s: string, j: nat) returns (src: Source)
    requires NoNul(s) && j <= |s| && (j < |s| ==> s[j] !in WHITESPACE)
    ensures src.s == s && Lexed(src, j)
    decreases |s| - j
  {
    if j == |s| {
      src := Source(s, [], [j]);
    } else {
      var t := LexemeOf(s, j);
      var end := j + |Str(t)|;
      var next := SkipSpace(s, end);
      SkipsBlank(s, end);
      var rest := LexFrom(s, next);
      src := Source(s, [t] + rest.ts, [j] + rest.at);
      LexMore(s, j, t, next, rest);
    }
  }

  lemma {:induction false} LexMore(s: string, j: nat, t: Lexeme, next: nat, rest: Source)
    requires Longest(s, j, t) && Blank(s, j + |Str(t)|, next) && rest.s == s && Lexed(rest, next)
    ensures Lexed(Source(s, [t] + rest.ts, [j] + rest.at), j)
  {
    var src := Source(s, [t] + rest.ts, [j] + rest.at);
    LexFirst(s, j, t, next, rest);
    hide Longest, Source.LexemeAt;
    forall k: nat | k < |src.ts| ensures src.LexemeAt(k) {
      if k > 0 {
        LexLater(t, j, rest, k - 1);
      }
    }
  }

  lemma {:induction false} LexLater(t: Lexeme, j: nat, rest: Source, k: nat)
    requires |rest.at| == |rest.ts| + 1 && k < |rest.ts| && rest.LexemeAt(k)
    ensures Source(rest.s, [t] + rest.ts, [j] + rest.at).LexemeAt(k + 1)
  {
    hide Blank, Occurs, Merge, ValidLexeme, Str;
    var src := Source(rest.s, [t] + rest.ts, [j] + rest.at);
    assert src.ts[k + 1] == rest.ts[k] && src.at[k + 1] == rest.at[k] && src.at[k + 2] == rest.at[k + 1];
  }

  lemma {:induction false} LexFirst(s: string, j: nat, t: Lexeme, next: nat, rest: Source)
    requires Longest(s, j, t) && Blank(s, j + |Str(t)|, next) && rest.s == s && Lexed(rest, next)
    ensures Source(s, [t] + rest.ts, [j] + rest.at).LexemeAt(0)
  {
    if j + |Str(t)| == next && rest.ts != [] {
      assert rest.LexemeAt(0);
      NotMerged(s, j, t, rest.ts[0]);
    }
    hide Blank, Occurs, Merge, ValidLexeme;
  }

  lemma {:induction false} NotMerged(s: string, j: nat, t: Lexeme, u: Lexeme)
    requires Longest(s, j, t) && ValidLexeme(u) && Occurs(s, j + |Str(t)|, Str(u))
    ensures !Merge(t, u)
  {
    var end := j + |Str(t)|;
    WordStarts(Str(u));
    if Str(u) != "" {
      CharAt(s, end, Str(u));
    }
  }

  lemma {:induction false} Lex(s: string) returns (src: Source)
    requires NoNul(s)
    ensures src.Ok() && src.s == s
  {
    SkipsBlank(s, 0);
    src := LexFrom(s, SkipSpace(s, 0));
  }

  lemma {:induction false} HasJoin(src: Source, k: nat, a: seq<Lexeme>, b: seq<Lexeme>)
    requires src.Has(k, a) && src.Has(k + |a|, b)
    ensures src.Has(k, a + b)
  {
    var all := src.ts[k..k + |a + b|];
    assert all[..|a|] == a && all[|a|..] == b;
    assert all == all[..|a|] + all[|a|..];
  }

  lemma {:induction false} HasMore(src: Source, k: nat, t: Lexeme, rest: seq<Lexeme>)
    requires k < |src.ts| && src.ts[k] == t && src.Has(k + 1, rest)
    ensures src.Has(k, [t] + rest)
  {
    assert src.ts[k..k + 1] == [t];
    HasJoin(src, k, [t], rest);
  }

  lemma {:induction false} HasNone(src: Source, k: nat)
    requires k <= |src.ts|
    ensures src.Has(k, [])
  {
  }

  /** What the parser sees is a symbol, and which one it is. */
  lemma {:induction false} SeesSymbol(src: Source, i: nat, k: nat, toks: string)
    requires src.Ok() && src.At(i, k) && Sees(src.s, i, toks) && forall c :: c in toks ==> c in SYMBOLS
    ensures k < |src.ts| && !src.ts[k].Word? && Str(src.ts[k]) != "" && Str(src.ts[k])[0] in toks
    ensures GetToken(src.s, i).next == src.Pos(k + 1) && GetToken(src.s, i).tok == Tok(src.ts[k])
    ensures src.Pos(k + 1) <= |src.s| && src.At(src.Pos(k + 1), k + 1)
  {
    hide Sees, GetToken, SkipSpace, Source.LexemeAt;
    Looks(src, i, k);
    FirstOf(src, k);
    Gets(src, i, k);
    AtSelf(src, k + 1);
  }

  lemma {:induction false} SeesChar(src: Source, i: nat, k: nat, c: char)
    requires src.Ok() && src.At(i, k) && Sees(src.s, i, [c]) && c in SYMBOLS && c != '>'
    ensures k < |src.ts| && src.ts[k] == Sym(c) && GetToken(src.s, i).next == src.Pos(k + 1)
    ensures src.Pos(k + 1) <= |src.s| && src.At(src.Pos(k + 1), k + 1)
  {
    hide Sees, GetToken, SkipSpace, Source.Ok, Source.At;
    SeesSymbol(src, i, k, [c]);
  }

  /** A word token is a word of the line. */
  lemma {:induction false} GetsWord(src: Source, i: nat, k: nat)
    requires src.Ok() && src.At(i, k) && GetToken(src.s, i).tok == 'a'
    ensures k < |src.ts| && src.ts[k].Word? && GetToken(src.s, i).next == src.Pos(k + 1)
    ensures src.Pos(k + 1) <= |src.s| && src.At(src.Pos(k + 1), k + 1)
  {
    if k == |src.ts| {
      Looks(src, i, k);
      assert false;
    } else {
      hide Sees, GetToken, SkipSpace;
      FirstOf(src, k);
      Gets(src, i, k);
      AtSelf(src, k + 1);
    }
  }

  lemma {:induction false} RedirsAre(src: Source, i: nat, k: nat) returns (tos: seq<To>)
    requires src.Ok() && i <= |src.s| && src.At(i, k) && ParseRedirs(src.s, i).Redirs?
    ensures src.Has(k, ToLexemes(tos)) && ParseRedirs(src.s, i).next == src.Pos(k + 2 * |tos|)
    ensures k + 2 * |tos| <= |src.ts|
    decreases |src.s| - i
  {
    hide Sees, GetToken, SkipSpace, Source.Ok, Source.Pos, Source.Has, ToLexemes;
    if Sees(src.s, i, "<>") {
      SeesSymbol(src, i, k, "<>");
      GetsWord(src, src.Pos(k + 1), k + 1);
      var kind := if src.ts[k] == Twice then Append else if src.ts[k].c == '<' then In else Out;
      RedirStep(src, i, src.Pos(k + 2));
      var rest := RedirsAre(src, src.Pos(k + 2), k + 2);
      tos := [To(kind, src.ts[k + 1].w)] + rest;
      ToMore(src, k, tos);
    } else {
      tos := [];
      NoTos(src, i, k);
    }
  }

  lemma {:induction false} RedirStep(src: Source, i: nat, f: nat)
    requires i <= |src.s| && Sees(src.s, i, "<>") && ParseRedirs(src.s, i).Redirs?
    requires GetToken(src.s, GetToken(src.s, i).next).next == f
    ensures i < f && ParseRedirs(src.s, f).Redirs? && ParseRedirs(src.s, i).next == ParseRedirs(src.s, f).next
  {
  }

  lemma {:induction false} NoTos(src: Source, i: nat, k: nat)
    requires src.At(i, k) && !Sees(src.s, i, "<>")
    ensures src.Has(k, ToLexemes([])) && ParseRedirs(src.s, i).next == src.Pos(k)
  {
  }

  lemma {:induction false} ToMore(src: Source, k: nat, tos: seq<To>)
    requires tos != [] && k + 1 < |src.ts| && src.ts[k] == Operator(tos[0].kind) && src.ts[k + 1] == Word(tos[0].file)
    requires src.Has(k + 2, ToLexemes(tos[1..]))
    ensures src.Has(k, ToLexemes(tos))
  {
    var op, file := Operator(tos[0].kind), Word(tos[0].file);
    assert ToLexemes(tos) == [op] + ([file] + ToLexemes(tos[1..]));
    hide Source.Has, ToLexemes;
    HasMore(src, k + 1, file, ToLexemes(tos[1..]));
    HasMore(src, k, op, [file] + ToLexemes(tos[1..]));
  }

  function AsItems(tos: seq<To>): seq<Item> {
    if tos == [] then [] else [Redirect(tos[0])] + AsItems(tos[1..])
  }

  lemma {:induction false} TosFirst(tos: seq<To>, items: seq<Item>)
    ensures ItemLexemes(AsItems(tos) + items) == ToLexemes(tos) + ItemLexemes(items)
  {
    if tos == [] {
      assert AsItems(tos) + items == items && ToLexemes(tos) + ItemLexemes(items) == ItemLexemes(items);
    } else {
      var all := [Redirect(tos[0])] + (AsItems(tos[1..]) + items);
      assert AsItems(tos) + items == all && all[1..] == AsItems(tos[1..]) + items;
      FirstRedirect(all);
      TosFirst(tos[1..], items);
      OneTo(tos[0], tos[1..]);
      assert [tos[0]] + tos[1..] == tos;
      Assoc(ToLexemes([tos[0]]), ToLexemes(tos[1..]), ItemLexemes(items));
    }
  }

  ghost predicate ItemsRead(src: Source, k: nat, items: seq<Item>, r: Parsed) {
    r.Ok? && src.Has(k, ItemLexemes(items)) && r.next == src.Pos(k + |ItemLexemes(items)|)
  }

  lemma {:induction false} ArgsAre(src: Source, i: nat, k: nat, args: seq<Span>, list: seq<(Span, Kind)>)
      returns (items: seq<Item>)
    requires src.Ok() && i <= |src.s| && src.At(i, k) && ParseArgs(src.s, i, args, list).Ok?
    ensures ItemsRead(src, k, items, ParseArgs(src.s, i, args, list))
    decreases |src.s| - i
  {
    hide Sees, GetToken, SkipSpace, Source.Ok, Source.Pos, Source.Has, ItemLexemes, ParseRedirs, ToLexemes, ItemsRead;
    var j := SkipSpace(src.s, i);
    if Sees(src.s, i, "|)&;") || j == |src.s| {
      items := [];
      NoItemsRead(src, i, k, args, list);
    } else {
      SkipIs(src, i, k);
      AtSelf(src, k);
      var t, r := ArgStep(src, i, args, list);
      GetsWord(src, j, k);
      var tos := RedirsAre(src, t.next, k + 1);
      var k' := k + 1 + 2 * |tos|;
      AtSelf(src, k');
      var rest := ArgsAre(src, r.next, k', args + [t.span], list + r.list);
      items := [Arg(src.ts[k].w)] + (AsItems(tos) + rest);
      MoreItems(src, k, tos, rest, ParseArgs(src.s, i, args, list));
    }
  }

  lemma {:induction false} NoItemsRead(src: Source, i: nat, k: nat, args: seq<Span>, list: seq<(Span, Kind)>)
    requires i <= |src.s| && src.At(i, k) && (Sees(src.s, i, "|)&;") || SkipSpace(src.s, i) == |src.s|)
    ensures ItemsRead(src, k, [], ParseArgs(src.s, i, args, list))
  {
    hide Sees;
    NoItems();
    HasNone(src, k);
  }

  lemma {:induction false} ArgStep(src: Source, i: nat, args: seq<Span>, list: seq<(Span, Kind)>)
      returns (t: Token, r: Redirs)
    requires i <= |src.s| && ParseArgs(src.s, i, args, list).Ok? && !Sees(src.s, i, "|)&;")
    requires SkipSpace(src.s, i) != |src.s|
    ensures t == GetToken(src.s, SkipSpace(src.s, i)) && t.tok == 'a' && r == ParseRedirs(src.s, t.next) && r.Redirs?
    ensures i < r.next && ParseArgs(src.s, i, args, list) == ParseArgs(src.s, r.next, args + [t.span], list + r.list)
  {
    hide Sees, ParseRedirs;
    t := GetToken(src.s, SkipSpace(src.s, i));
    r := ParseRedirs(src.s, t.next);
  }

  lemma {:induction false} MoreItems(src: Source, k: nat, tos: seq<To>, rest: seq<Item>, r: Parsed)
    requires k < |src.ts| && src.ts[k].Word? && src.Has(k + 1, ToLexemes(tos))
    requires ItemsRead(src, k + 1 + 2 * |tos|, rest, r)
    ensures ItemsRead(src, k, [Arg(src.ts[k].w)] + (AsItems(tos) + rest), r)
  {
    var w, tail := src.ts[k].w, AsItems(tos) + rest;
    WordFirst(w, tail);
    hide ItemLexemes, ToLexemes, Source.Has, AsItems;
    TosFirst(tos, rest);
    HasJoin(src, k + 1, ToLexemes(tos), ItemLexemes(rest));
    HasMore(src, k, Word(w), ItemLexemes(tail));
  }

  lemma {:induction false} WordFirst(w: string, items: seq<Item>)
    ensures ItemLexemes([Arg(w)] + items) == [Word(w)] + ItemLexemes(items)
  {
    assert ([Arg(w)] + items)[1..] == items;
  }

  ghost predicate Read(src: Source, k: nat, lexemes: seq<Lexeme>, r: Parsed) {
    r.Ok? && src.Has(k, lexemes) && r.next == src.Pos(k + |lexemes|)
  }

  lemma {:induction false} ExecIs(src: Source, i: nat, k: nat) returns (p: Part)
    requires src.Ok() && i <= |src.s| && src.At(i, k) && ParseExec(src.s, i).Ok?
    ensures Read(src, k, PartLexemes(p), ParseExec(src.s, i))
    decreases |src.s| - i, 1
  {
    hide Sees, GetToken, SkipSpace, Source.Ok, Source.Pos, Source.Has, ParseRedirs, ParseArgs, ParseLine, Wrap;
    hide ItemLexemes, PartLexemes, Read;
    if Sees(src.s, i, "(") {
      p := BlockIs(src, i, k);
    } else {
      p := SimpleIs(src, i, k);
    }
  }

  lemma {:induction false} SimpleIs(src: Source, i: nat, k: nat) returns (p: Part)
    requires src.Ok() && i <= |src.s| && src.At(i, k) && ParseExec(src.s, i).Ok? && !Sees(src.s, i, "(")
    ensures Read(src, k, PartLexemes(p), ParseExec(src.s, i))
  {
    hide Sees, GetToken, SkipSpace, Source.Ok, Source.Pos, Source.Has, ParseRedirs, ParseArgs, ItemLexemes, ToLexemes;
    var r := ParseRedirs(src.s, i);
    var tos := RedirsAre(src, i, k);
    var k' := k + 2 * |tos|;
    AtSelf(src, k');
    var rest := ArgsAre(src, r.next, k', [], r.list);
    TosFirst(tos, rest);
    HasJoin(src, k, ToLexemes(tos), ItemLexemes(rest));
    p := Simple(AsItems(tos) + rest);
  }

  lemma {:induction false} BlockIs(src: Source, i: nat, k: nat) returns (p: Part)
    requires src.Ok() && i <= |src.s| && src.At(i, k) && ParseExec(src.s, i).Ok? && Sees(src.s, i, "(")
    ensures Read(src, k, PartLexemes(p), ParseExec(src.s, i))
    decreases |src.s| - i, 0
  {
    hide Sees, GetToken, SkipSpace, Source.Ok, Source.Pos, Source.Has, ParseRedirs, ParseLine, Wrap, ToLexemes;
    hide LineLexemes, Read, Source.At;
    var inner := BlockStep(src, i, k);
    SeesChar(src, i, k, '(');
    var line := LineIs(src, src.Pos(k + 1), k + 1);
    var close := k + 1 + |LineLexemes(line)|;
    ReadAt(src, k + 1, LineLexemes(line), inner);
    SeesChar(src, inner.next, close, ')');
    var tos := RedirsAre(src, src.Pos(close + 1), close + 1);
    HasMore(src, close, Sym(')'), ToLexemes(tos));
    HasJoin(src, k + 1, LineLexemes(line), [Sym(')')] + ToLexemes(tos));
    HasMore(src, k, Sym('('), LineLexemes(line) + ([Sym(')')] + ToLexemes(tos)));
    p := Block(line, tos);
    BlockRead(src, k, line, tos, ParseExec(src.s, i));
  }

  lemma {:induction false} BlockRead(src: Source, k: nat, line: Line, tos: seq<To>, r: Parsed)
    requires src.Has(k, [Sym('(')] + (LineLexemes(line) + ([Sym(')')] + ToLexemes(tos))))
    requires r.Ok? && r.next == src.Pos(k + 1 + |LineLexemes(line)| + 1 + 2 * |tos|)
    ensures Read(src, k, PartLexemes(Block(line, tos)), r)
  {
  }

  lemma {:induction false} ReadAt(src: Source, k: nat, lexemes: seq<Lexeme>, r: Parsed)
    requires src.Ok() && Read(src, k, lexemes, r)
    ensures src.Has(k, lexemes) && r.next == src.Pos(k + |lexemes|) <= |src.s| && src.At(r.next, k + |lexemes|)
  {
    AtSelf(src, k + |lexemes|);
  }

  /** What parseblock has read when it succeeds. */
  lemma {:induction false} BlockStep(src: Source, i: nat, k: nat) returns (inner: Parsed)
    requires src.Ok() && i <= |src.s| && src.At(i, k) && ParseExec(src.s, i).Ok? && Sees(src.s, i, "(")
    ensures i < src.Pos(k + 1) <= |src.s| && inner == ParseLine(src.s, src.Pos(k + 1)) && inner.Ok?
    ensures Sees(src.s, inner.next, ")")
    ensures var r := ParseRedirs(src.s, GetToken(src.s, inner.next).next);
            r.Redirs? && ParseExec(src.s, i).next == r.next
  {
    hide Sees, GetToken, SkipSpace, Source.LexemeAt, ParseRedirs, ParseLine, Wrap;
    SeesChar(src, i, k, '(');
    SkipIs(src, i, k);
    AtSelf(src, k);
    FirstOf(src, k);
    SameToken(src.s, i, src.Pos(k));
    inner := ParseLine(src.s, src.Pos(k + 1));
  }

  lemma {:induction false} PipeIs(src: Source, i: nat, k: nat) returns (p: Pipes)
    requires src.Ok() && i <= |src.s| && src.At(i, k) && ParsePipe(src.s, i).Ok?
    ensures Read(src, k, PipesLexemes(p), ParsePipe(src.s, i))
    decreases |src.s| - i, 2
  {
    hide Sees, GetToken, SkipSpace, Source.Ok, Source.At, Source.Pos, Source.Has, ParseExec, PartLexemes, Read;
    var l := ParseExec(src.s, i);
    var part := ExecIs(src, i, k);
    var bar := k + |PartLexemes(part)|;
    ReadAt(src, k, PartLexemes(part), l);
    if Sees(src.s, l.next, "|") {
      SeesChar(src, l.next, bar, '|');
      TokenMoves(src, l.next, bar);
      var rest := PipeIs(src, src.Pos(bar + 1), bar + 1);
      ReadMore(src, k, PartLexemes(part), Sym('|'), PipesLexemes(rest), ParsePipe(src.s, src.Pos(bar + 1)),
               ParsePipe(src.s, i));
      p := Piped(part, rest);
    } else {
      p := Last(part);
      SkipIs(src, l.next, bar);
      Same(src, k, PartLexemes(part), l, ParsePipe(src.s, i));
    }
  }

  lemma {:induction false} Same(src: Source, k: nat, lexemes: seq<Lexeme>, r: Parsed, r': Parsed)
    requires Read(src, k, lexemes, r) && r'.Ok? && r'.next == src.Pos(k + |lexemes|)
    ensures Read(src, k, lexemes, r')
  {
  }

  lemma {:induction false} TokenMoves(src: Source, i: nat, k: nat)
    requires src.Ok() && i <= |src.s| && src.At(i, k) && k < |src.ts|
    ensures i < src.Pos(k + 1)
  {
    hide Source.LexemeAt;
    FirstOf(src, k);
  }

  lemma {:induction false} ReadMore(src: Source, k: nat, a: seq<Lexeme>, t: Lexeme, b: seq<Lexeme>, r': Parsed, r: Parsed)
    requires src.Has(k, a) && k + |a| < |src.ts| && src.ts[k + |a|] == t && Read(src, k + |a| + 1, b, r')
    requires r.Ok? && r.next == r'.next
    ensures Read(src, k, a + ([t] + b), r)
  {
    HasMore(src, k + |a|, t, b);
    HasJoin(src, k, a, [t] + b);
  }

  lemma {:induction false} AmpsAre(src: Source, i: nat, k: nat, cmd: Cmd<Span>) returns (n: nat)
    requires src.Ok() && i <= |src.s| && src.At(i, k)
    ensures Read(src, k, Amps(n), ParseAmps(src.s, i, cmd)) && i <= ParseAmps(src.s, i, cmd).next
    decreases |src.s| - i
  {
    hide Sees, GetToken, SkipSpace, Source.Ok, Source.Has, Source.Pos;
    if Sees(src.s, i, "&") {
      SeesChar(src, i, k, '&');
      TokenMoves(src, i, k);
      var m := AmpsAre(src, src.Pos(k + 1), k + 1, Back(cmd));
      HasMore(src, k, Sym('&'), Amps(m));
      n := m + 1;
    } else {
      SkipIs(src, i, k);
      n := 0;
      HasNone(src, k);
    }
  }

  lemma {:induction false} LineIs(src: Source, i: nat, k: nat) returns (l: Line)
    requires src.Ok() && i <= |src.s| && src.At(i, k) && ParseLine(src.s, i).Ok?
    ensures Read(src, k, LineLexemes(l), ParseLine(src.s, i))
    decreases |src.s| - i, 3
  {
    hide Sees, GetToken, SkipSpace, Source.Ok, Source.At, Source.Pos, Source.Has, ParsePipe, ParseAmps, PipesLexemes, Read, Amps;
    var r := ParseLine(src.s, i);
    var p := ParsePipe(src.s, i);
    var pipes := PipeIs(src, i, k);
    var amp := k + |PipesLexemes(pipes)|;
    ReadAt(src, k, PipesLexemes(pipes), p);
    var b := ParseAmps(src.s, p.next, p.cmd);
    var n := AmpsAre(src, p.next, amp, p.cmd);
    ReadAt(src, amp, Amps(n), b);
    HasJoin(src, k, PipesLexemes(pipes), Amps(n));
    if Sees(src.s, b.next, ";") {
      SeesChar(src, b.next, amp + n, ';');
      TokenMoves(src, b.next, amp + n);
      var rest := LineIs(src, src.Pos(amp + n + 1), amp + n + 1);
      ReadMore(src, k, PipesLexemes(pipes) + Amps(n), Sym(';'), LineLexemes(rest),
               ParseLine(src.s, src.Pos(amp + n + 1)), r);
      Assoc(PipesLexemes(pipes), Amps(n), [Sym(';')] + LineLexemes(rest));
      l := Then(pipes, n, rest);
    } else {
      l := Final(pipes, n);
      ReadIs(src, k, PipesLexemes(pipes) + Amps(n), r);
    }
  }

  lemma {:induction false} ReadIs(src: Source, k: nat, lexemes: seq<Lexeme>, r: Parsed)
    requires src.Has(k, lexemes) && r.Ok? && r.next == src.Pos(k + |lexemes|)
    ensures Read(src, k, lexemes, r)
  {
  }

  /** A line that the shell parses is one of those of LineIsParsed. */
  lemma {:induction false} OnlyLines(s: string) returns (src: Source, l: Line)
    requires NoNul(s) && ParseCmd(s).Ok?
    ensures src.Ok() && src.s == s && src.ts == LineLexemes(l) && LineFits(l)
    ensures Text(s, ParseCmd(s).cmd) == LineTree(l)
  {
    hide ParseLine, LineTree, LineFits, Text, LineLexemes, Read;
    src := Lex(s);
    Starts(src);
    l := LineIs(src, 0, 0);
    WholeLine(src, l);
    LineIsParsed(src, l);
  }

  lemma {:induction false} WholeLine(src: Source, l: Line)
    requires src.Ok() && ParseCmd(src.s).Ok? && Read(src, 0, LineLexemes(l), ParseLine(src.s, 0))
    ensures src.ts == LineLexemes(l)
  {
    hide ParseLine, LineLexemes, SkipSpace, Source.LexemeAt;
    var end := |LineLexemes(l)|;
    ReadAt(src, 0, LineLexemes(l), ParseLine(src.s, 0));
    Looks(src, src.Pos(end), end);
    assert src.ts[0..0 + |src.ts|] == src.ts;
  }

  ghost predicate IsLine(s: string) {
    exists src: Source, l: Line :: src.Ok() && src.s == s && src.ts == LineLexemes(l) && LineFits(l)
  }

  /** The language of the shell. */
  lemma {:induction false} ParsesItsLanguage(s: string)
    requires NoNul(s)
    ensures ParseCmd(s).Ok? <==> IsLine(s)
  {
    hide ParseCmd, Source.Ok, LineLexemes, LineFits, Text, LineTree;
    if ParseCmd(s).Ok? {
      var src, l := OnlyLines(s);
    }
    if IsLine(s) {
      var src: Source, l: Line :| src.Ok() && src.s == s && src.ts == LineLexemes(l) && LineFits(l);
      LineIsParsed(src, l);
    }
  }
}
