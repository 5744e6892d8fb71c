/** The command language of lab2/user/sh.c: what the parser makes of a line, as
    functions on positions in it, and the lines that stand for a given tree. */
module ShellGrammar {

  const MAXARGS: nat := 10
  const WHITESPACE: string := " \t\r\n\U{0B}"
  const SYMBOLS: string := "<|>&;()"

  /** '<', '>' and '>>' */
  datatype Kind = In | Out | Append

  datatype Cmd<T> =
    | Exec(args: seq<T>)
    | Redir(cmd: Cmd<T>, file: T, kind: Kind)
    | Pipe(left: Cmd<T>, right: Cmd<T>)
    | List(left: Cmd<T>, right: Cmd<T>)
    | Back(cmd: Cmd<T>)

  /** A string of the tree, as the parser leaves it: where it starts and ends. */
  datatype Span = Span(q: nat, eq: nat)

  datatype Panic = Leftovers | MissingFile | NoBlock | MissingParen | Syntax | TooManyArgs

  datatype Parsed = Ok(cmd: Cmd<Span>, next: nat) | Failed(why: Panic)

  datatype Redirs = Redirs(list: seq<(Span, Kind)>, next: nat) | NoFile

  datatype Token = Token(tok: char, span: Span, next: nat)

  predicate IsWord(c: char) {
    c !in WHITESPACE && c !in SYMBOLS && c != '\0'
  }

  function SkipSpace(s: string, i: nat): (j: nat)
    requires i <= |s|
    ensures i <= j <= |s| && (j < |s| ==> s[j] !in WHITESPACE)
    decreases |s| - i
  {
    if i < |s| && s[i] in WHITESPACE then SkipSpace(s, i + 1) else i
  }

  function SkipWord(s: string, i: nat): (j: nat)
    requires i <= |s|
    ensures i <= j <= |s| && (forall k :: i <= k < j ==> s[k] !in WHITESPACE && s[k] !in SYMBOLS)
    ensures j < |s| ==> s[j] in WHITESPACE || s[j] in SYMBOLS
    decreases |s| - i
  {
    if i < |s| && s[i] !in WHITESPACE && s[i] !in SYMBOLS then SkipWord(s, i + 1) else i
  }

  /** gettoken: '\0' at the end of the line, 'a' for a word, '+' for '>>'. */
  function GetToken(s: string, i: nat): (t: Token)
    requires i <= |s|
    ensures i <= t.span.q <= t.span.eq <= t.next <= |s|
    ensures t.span.q < |s| ==> i < t.next
  {
    var q := SkipSpace(s, i);
    if q == |s| then Token('\0', Span(q, q), q)
    else if s[q] == '>' then
      if q + 1 < |s| && s[q + 1] == '>' then Token('+', Span(q, q + 2), SkipSpace(s, q + 2))
      else Token('>', Span(q, q + 1), SkipSpace(s, q + 1))
    else if s[q] in SYMBOLS then Token(s[q], Span(q, q + 1), SkipSpace(s, q + 1))
    else var eq := SkipWord(s, q); Token('a', Span(q, eq), SkipSpace(s, eq))
  }

  /** peek: whether the next character that is not a space is one of toks. */
  predicate Sees(s: string, i: nat, toks: string)
    requires i <= |s|
  {
    var j := SkipSpace(s, i);
    j < |s| && s[j] in toks
  }

  function KindOf(tok: char): Kind {
    if tok == '<' then In else if tok == '+' then Append else Out
  }

  /** parseredirs */
  function ParseRedirs(s: string, i: nat): (r: Redirs)
    requires i <= |s|
    ensures r.Redirs? ==> i <= r.next <= |s|
    decreases |s| - i
  {
    if !Sees(s, i, "<>") then Redirs([], SkipSpace(s, i))
    else
      var t := GetToken(s, i);
      var f := GetToken(s, t.next);
      if f.tok != 'a' then NoFile
      else
        var rest := ParseRedirs(s, f.next);
        if rest.NoFile? then NoFile else Redirs([(f.span, KindOf(t.tok))] + rest.list, rest.next)
  }

  /** The redirections around a command, the last one outermost. */
  function Wrap(cmd: Cmd<Span>, list: seq<(Span, Kind)>): Cmd<Span> {
    if list == [] then cmd
    else Redir(Wrap(cmd, list[..|list| - 1]), list[|list| - 1].0, list[|list| - 1].1)
  }

  /** The loop of parseexec. */
  function ParseArgs(s: string, i: nat, args: seq<Span>, list: seq<(Span, Kind)>): (r: Parsed)
    requires i <= |s|
    ensures r.Ok? ==> i <= r.next <= |s|
    decreases |s| - i
  {
    var j := SkipSpace(s, i);
    if Sees(s, i, "|)&;") || j == |s| then Ok(Wrap(Exec(args), list), j)
    else
      var t := GetToken(s, j);
      if t.tok != 'a' then Failed(Syntax)
      else if |args| + 1 >= MAXARGS then Failed(TooManyArgs)
      else
        var r := ParseRedirs(s, t.next);
        if r.NoFile? then Failed(MissingFile) else ParseArgs(s, r.next, args + [t.span], list + r.list)
  }

  function ParseExec(s: string, i: nat): (r: Parsed)
    requires i <= |s|
    ensures r.Ok? ==> i <= r.next <= |s|
    decreases |s| - i, 1
  {
    if Sees(s, i, "(") then ParseBlock(s, SkipSpace(s, i))
    else
      var r := ParseRedirs(s, i);
      if r.NoFile? then Failed(MissingFile) else ParseArgs(s, r.next, [], r.list)
  }

  function ParseBlock(s: string, i: nat): (r: Parsed)
    requires i <= |s|
    ensures r.Ok? ==> i <= r.next <= |s|
    decreases |s| - i, 0
  {
    if !Sees(s, i, "(") then Failed(NoBlock)
    else
      var inner := ParseLine(s, GetToken(s, i).next);
      if inner.Failed? then inner
      else if !Sees(s, inner.next, ")") then Failed(MissingParen)
      else
        var r := ParseRedirs(s, GetToken(s, inner.next).next);
        if r.NoFile? then Failed(MissingFile) else Ok(Wrap(inner.cmd, r.list), r.next)
  }

  function ParsePipe(s: string, i: nat): (r: Parsed)
    requires i <= |s|
    ensures r.Ok? ==> i <= r.next <= |s|
    decreases |s| - i, 2
  {
    var l := ParseExec(s, i);
    if l.Failed? then l
    else if !Sees(s, l.next, "|") then Ok(l.cmd, SkipSpace(s, l.next))
    else
      var r := ParsePipe(s, GetToken(s, l.next).next);
      if r.Failed? then r else Ok(Pipe(l.cmd, r.cmd), r.next)
  }

  /** The loop of parseline: one Back for each '&'. */
  function ParseAmps(s: string, i: nat, cmd: Cmd<Span>): (r: Parsed)
    requires i <= |s|
    ensures r.Ok? && i <= r.next <= |s|
    decreases |s| - i
  {
    if Sees(s, i, "&") then ParseAmps(s, GetToken(s, i).next, Back(cmd)) else Ok(cmd, SkipSpace(s, i))
  }

  function ParseLine(s: string, i: nat): (r: Parsed)
    requires i <= |s|
    ensures r.Ok? ==> i <= r.next <= |s|
    decreases |s| - i, 3
  {
    var p := ParsePipe(s, i);
    if p.Failed? then p
    else
      var b := ParseAmps(s, p.next, p.cmd);
      if !Sees(s, b.next, ";") then b
      else
        var r := ParseLine(s, GetToken(s, b.next).next);
        if r.Failed? then r else Ok(List(b.cmd, r.cmd), r.next)
  }

  function ParseCmd(s: string): Parsed {
    var r := ParseLine(s, 0);
    if r.Failed? then r
    else if SkipSpace(s, r.next) != |s| then Failed(Leftovers)
    else Ok(r.cmd, |s|)
  }
}
