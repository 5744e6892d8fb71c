/** The parser of lab2/user/sh.c on its buffer: the parse functions advance
    *ps, and nulterminate cuts the buffer into the tree's strings. */
module ShellParser {
  import opened ShellGrammar
  import opened ShellRoundTrip

  class Parser {
    const buf: array<char>
    /** The end of the line: es. */
    const es: nat
    var ps: nat

    ghost predicate Valid()
      reads this, buf
    {
      ps <= es < buf.Length && buf[es] == '\0' && forall k :: 0 <= k < es ==> buf[k] != '\0'
    }

    ghost function Line(): string
      reads this, buf
      requires es <= buf.Length
    {
      buf[..es]
    }

    /** es = s + strlen(s) */
    constructor (buf: array<char>)
      requires '\0' in buf[..]
      ensures Valid() && this.buf == buf && ps == 0
    {
      var n := 0;
      while buf[n] != '\0'
        invariant n < buf.Length && '\0' in buf[n..] && forall k :: 0 <= k < n ==> buf[k] != '\0'
        decreases buf.Length - n
      {
        assert buf[n..] == [buf[n]] + buf[n + 1..];
        n := n + 1;
      }
      this.buf, es, ps := buf, n, 0;
    }

    method SkipSpaces()
      requires Valid()
      modifies this`ps
      ensures Valid() && ps == SkipSpace(Line(), old(ps))
    {
      while ps < es && buf[ps] in WHITESPACE
        invariant Valid() && SkipSpace(Line(), ps) == SkipSpace(Line(), old(ps))
      {
        ps := ps + 1;
      }
    }

    method SkipLetters()
      requires Valid()
      modifies this`ps
      ensures Valid() && ps == SkipWord(Line(), old(ps))
    {
      while ps < es && buf[ps] !in WHITESPACE && buf[ps] !in SYMBOLS
        invariant Valid() && SkipWord(Line(), ps) == SkipWord(Line(), old(ps))
      {
        ps := ps + 1;
      }
    }

    method Peek(toks: string) returns (seen: bool)
      requires Valid() && '\0' !in toks
      modifies this`ps
      ensures Valid() && ps == SkipSpace(Line(), old(ps)) && seen == Sees(Line(), old(ps), toks)
      ensures forall more :: Sees(Line(), ps, more) == Sees(Line(), old(ps), more)
    {
      SkipSpaces();
      SkipTwice(Line(), old(ps));
      seen := buf[ps] in toks;
    }

    /** gettoken */
    method NextToken() returns (tok: char, q: nat, eq: nat)
      requires Valid()
      modifies this`ps
      ensures Valid() && Token(tok, Span(q, eq), ps) == GetToken(Line(), old(ps))
    {
      SkipSpaces();
      q := ps;
      tok := buf[ps];
      if tok == '\0' {
      } else if tok == '>' {
        ps := ps + 1;
        if buf[ps] == '>' {
          tok := '+';
          ps := ps + 1;
        }
      } else if tok in SYMBOLS {
        ps := ps + 1;
      } else {
        tok := 'a';
        SkipLetters();
      }
      eq := ps;
      SkipSpaces();
    }

    /** parseredirs; nothing when a file name is missing. */
    method ParseRedirections() returns (r: Redirs)
      requires Valid()
      modifies this`ps
      ensures Valid() && r == ParseRedirs(Line(), old(ps)) && (r.Redirs? ==> r.next == ps >= old(ps))
    {
      hide GetToken, Sees;
      var list: seq<(Span, Kind)> := [];
      var more := Peek("<>");
      RedirsFrom(Line(), old(ps));
      while more
        invariant Valid() && ps >= old(ps) && SkipSpace(Line(), ps) == ps && more == Sees(Line(), ps, "<>")
        invariant ParseRedirs(Line(), old(ps)) == After(list, ParseRedirs(Line(), ps))
        decreases es - ps, more
      {
        ghost var from := ps;
        TokenSeen(Line(), ps, "<>");
        var tok, _, _ := NextToken();
        var file, q, eq := NextToken();
        if file != 'a' {
          return NoFile;
        }
        RedirsStep(Line(), from, list);
        list := list + [(Span(q, eq), KindOf(tok))];
        RedirsFrom(Line(), ps);
        more := Peek("<>");
      }
      r := Redirs(list, ps);
    }

    /** parseexec: the words of a command, with redirections anywhere. */
    method ParseCommand() returns (r: Parsed)
      requires Valid()
      modifies this`ps
      ensures Valid() && r == ParseExec(Line(), old(ps)) && (r.Ok? ==> r.next == ps >= old(ps))
      decreases es - ps, 1
    {
      hide ParseRedirs, GetToken, Sees, ParseBlock, ParseArgs;
      TokenFrom(Line(), ps);
      RedirsFrom(Line(), ps);
      var block := Peek("(");
      if block {
        r := ParseGroup();
        return;
      }
      var redirs := ParseRedirections();
      if redirs.NoFile? {
        return Failed(MissingFile);
      }
      r := ParseWords(redirs.list);
    }

    /** parseexec's loop, after the leading redirections. */
    method ParseWords(leading: seq<(Span, Kind)>) returns (r: Parsed)
      requires Valid()
      modifies this`ps
      ensures Valid() && r == ParseArgs(Line(), old(ps), [], leading) && (r.Ok? ==> r.next == ps >= old(ps))
      decreases es - ps, 0
    {
      hide ParseRedirs, GetToken, Sees;
      var args, list: seq<(Span, Kind)> := [], leading;
      TokenFrom(Line(), ps);
      var stop := Peek("|)&;");
      ArgsFrom(Line(), old(ps), args, list);
      while !stop
        invariant Valid() && ps >= old(ps) && SkipSpace(Line(), ps) == ps && stop == Sees(Line(), ps, "|)&;")
        invariant ParseArgs(Line(), old(ps), [], leading) == ParseArgs(Line(), ps, args, list)
        decreases es - ps, !stop
      {
        ghost var from := ps;
        WordSeen(Line(), ps);
        var tok, q, eq := NextToken();
        if tok == '\0' {
          break;
        }
        if tok != 'a' {
          return Failed(Syntax);
        }
        args := args + [Span(q, eq)];
        if |args| >= MAXARGS {
          return Failed(TooManyArgs);
        }
        var redirs := ParseRedirections();
        if redirs.NoFile? {
          return Failed(MissingFile);
        }
        list := list + redirs.list;
        TokenFrom(Line(), ps);
        ArgsFrom(Line(), ps, args, list);
        stop := Peek("|)&;");
      }
      r := Ok(Wrap(Exec(args), list), ps);
    }

    /** parseblock */
    method ParseGroup() returns (r: Parsed)
      requires Valid() && Sees(Line(), ps, "(")
      modifies this`ps
      ensures Valid() && r == ParseBlock(Line(), old(ps)) && (r.Ok? ==> r.next == ps >= old(ps))
      decreases es - ps, 0
    {
      hide ParseRedirs, GetToken, Sees, ParseLine;
      TokenFrom(Line(), ps);
      var open := Peek("(");
      if !open {
        return Failed(NoBlock);
      }
      TokenSeen(Line(), ps, "(");
      var _, _, _ := NextToken();
      r := ParseList();
      if r.Failed? {
        return;
      }
      TokenFrom(Line(), ps);
      var close := Peek(")");
      if !close {
        return Failed(MissingParen);
      }
      TokenSeen(Line(), ps, ")");
      var _, _, _ := NextToken();
      var redirs := ParseRedirections();
      if redirs.NoFile? {
        return Failed(MissingFile);
      }
      r := Ok(Wrap(r.cmd, redirs.list), ps);
    }

    /** parsepipe */
    method ParsePipeline() returns (r: Parsed)
      requires Valid()
      modifies this`ps
      ensures Valid() && r == ParsePipe(Line(), old(ps)) && (r.Ok? ==> r.next == ps >= old(ps))
      decreases es - ps, 2
    {
      hide GetToken, Sees, ParseExec;
      r := ParseCommand();
      if r.Failed? {
        return;
      }
      TokenFrom(Line(), ps);
      var more := Peek("|");
      if more {
        TokenSeen(Line(), ps, "|");
        var _, _, _ := NextToken();
        var rest := ParsePipeline();
        if rest.Failed? {
          return rest;
        }
        return Ok(Pipe(r.cmd, rest.cmd), ps);
      }
      r := Ok(r.cmd, ps);
    }

    /** parseline */
    method ParseList() returns (r: Parsed)
      requires Valid()
      modifies this`ps
      ensures Valid() && r == ParseLine(Line(), old(ps)) && (r.Ok? ==> r.next == ps >= old(ps))
      decreases es - ps, 3
    {
      hide GetToken, Sees, ParsePipe, ParseAmps;
      r := ParsePipeline();
      if r.Failed? {
        return;
      }
      var cmd := ParseBacks(r.cmd);
      TokenFrom(Line(), ps);
      var more := Peek(";");
      if more {
        TokenSeen(Line(), ps, ";");
        var _, _, _ := NextToken();
        var rest := ParseList();
        if rest.Failed? {
          return rest;
        }
        return Ok(List(cmd, rest.cmd), ps);
      }
      r := Ok(cmd, ps);
    }

    /** parseline's loop. */
    method ParseBacks(first: Cmd<Span>) returns (cmd: Cmd<Span>)
      requires Valid()
      modifies this`ps
      ensures Valid() && Ok(cmd, ps) == ParseAmps(Line(), old(ps), first) && SkipSpace(Line(), ps) == ps >= old(ps)
      decreases es - ps, 0
    {
      hide GetToken, Sees;
      cmd := first;
      TokenFrom(Line(), ps);
      AmpsFrom(Line(), ps, cmd);
      var more := Peek("&");
      while more
        invariant Valid() && ps >= old(ps) && SkipSpace(Line(), ps) == ps && more == Sees(Line(), ps, "&")
        invariant ParseAmps(Line(), old(ps), first) == ParseAmps(Line(), ps, cmd)
        decreases es - ps, more
      {
        TokenSeen(Line(), ps, "&");
        var _, _, _ := NextToken();
        cmd := Back(cmd);
        TokenFrom(Line(), ps);
        AmpsFrom(Line(), ps, cmd);
        more := Peek("&");
      }
    }
  }

  lemma AmpsFrom(s: string, i: nat, cmd: Cmd<Span>)
    requires i <= |s|
    ensures ParseAmps(s, SkipSpace(s, i), cmd) == ParseAmps(s, i, cmd)
  {
    TokenFrom(s, i);
    hide GetToken, Sees;
  }

  lemma ArgsFrom(s: string, i: nat, args: seq<Span>, list: seq<(Span, Kind)>)
    requires i <= |s|
    ensures ParseArgs(s, SkipSpace(s, i), args, list) == ParseArgs(s, i, args, list)
  {
    TokenFrom(s, i);
    hide GetToken, Sees;
  }

  /** What gettoken returns in parseexec's loop. */
  lemma WordSeen(s: string, i: nat)
    requires i <= |s| && SkipSpace(s, i) == i && (i < |s| ==> s[i] != '\0')
    ensures GetToken(s, i).tok == '\0' <==> i == |s|
    ensures i == |s| ==> GetToken(s, i).next == i
    ensures i < |s| ==> GetToken(s, i).next > i
  {
  }

  lemma SkipTwice(s: string, i: nat)
    requires i <= |s|
    ensures SkipSpace(s, SkipSpace(s, i)) == SkipSpace(s, i)
  {
  }

  /** Redirections read before r. */
  function After(list: seq<(Span, Kind)>, r: Redirs): Redirs {
    if r.NoFile? then NoFile else Redirs(list + r.list, r.next)
  }

  /** parseredirs skips spaces first. */
  lemma RedirsFrom(s: string, i: nat)
    requires i <= |s|
    ensures ParseRedirs(s, SkipSpace(s, i)) == ParseRedirs(s, i)
  {
    TokenFrom(s, i);
    hide GetToken, Sees;
  }

  lemma TokenFrom(s: string, i: nat)
    requires i <= |s|
    ensures var j := SkipSpace(s, i);
            SkipSpace(s, j) == j && GetToken(s, j) == GetToken(s, i) && forall toks :: Sees(s, j, toks) == Sees(s, i, toks)
  {
    SkipTwice(s, i);
  }

  /** A token that was seen is not empty. */
  lemma TokenSeen(s: string, i: nat, toks: string)
    requires i <= |s| && Sees(s, i, toks)
    ensures GetToken(s, i).next > i
  {
  }

  lemma RedirsStep(s: string, i: nat, list: seq<(Span, Kind)>)
    requires i <= |s| && Sees(s, i, "<>")
    ensures var t := GetToken(s, i);
            var f := GetToken(s, t.next);
            if f.tok != 'a' then ParseRedirs(s, i) == NoFile
            else After(list, ParseRedirs(s, i)) == After(list + [(f.span, KindOf(t.tok))], ParseRedirs(s, f.next))
  {
    hide GetToken, Sees;
    var t := GetToken(s, i);
    var f := GetToken(s, t.next);
    if f.tok == 'a' && ParseRedirs(s, f.next).Redirs? {
      var one := [(f.span, KindOf(t.tok))];
      assert list + (one + ParseRedirs(s, f.next).list) == list + one + ParseRedirs(s, f.next).list;
    }
  }

  /** A word of the line, with no more of it on either side of eq. */
  ghost predicate GoodSpan(s: string, x: Span) {
    && x.q < x.eq <= |s| && Delim(s, x.eq)
    && forall k :: x.q <= k < x.eq ==> s[k] !in WHITESPACE && s[k] !in SYMBOLS
  }

  ghost predicate GoodList(s: string, list: seq<(Span, Kind)>) {
    forall i :: 0 <= i < |list| ==> GoodSpan(s, list[i].0)
  }

  ghost predicate Good(s: string, c: Cmd<Span>) {
    match c
    case Exec(args) => forall i :: 0 <= i < |args| ==> GoodSpan(s, args[i])
    case Redir(c1, file, _) => Good(s, c1) && GoodSpan(s, file)
    case Pipe(l, r) => Good(s, l) && Good(s, r)
    case List(l, r) => Good(s, l) && Good(s, r)
    case Back(c1) => Good(s, c1)
  }

  lemma GoodToken(s: string, i: nat)
    requires i <= |s| && GetToken(s, i).tok == 'a'
    ensures GoodSpan(s, GetToken(s, i).span)
  {
    var q := SkipSpace(s, i);
    assert q < |s| && s[q] !in WHITESPACE && s[q] !in SYMBOLS;
    assert SkipWord(s, q) > q;
  }

  lemma {:induction false} GoodRedirs(s: string, i: nat)
    requires i <= |s|
    ensures var r := ParseRedirs(s, i); r.Redirs? ==> GoodList(s, r.list)
    decreases |s| - i
  {
    if Sees(s, i, "<>") && ParseRedirs(s, i).Redirs? {
      var t := GetToken(s, i);
      TokenSeen(s, i, "<>");
      GoodToken(s, t.next);
      GoodRedirs(s, GetToken(s, t.next).next);
    }
  }

  lemma {:induction false} GoodWrap(s: string, c: Cmd<Span>, list: seq<(Span, Kind)>)
    requires Good(s, c) && GoodList(s, list)
    ensures Good(s, Wrap(c, list))
  {
    if list != [] {
      GoodWrap(s, c, list[..|list| - 1]);
    }
  }

  lemma {:induction false} GoodArgs(s: string, i: nat, args: seq<Span>, list: seq<(Span, Kind)>)
    requires i <= |s| && Good(s, Exec(args)) && GoodList(s, list)
    ensures var r := ParseArgs(s, i, args, list); r.Ok? ==> Good(s, r.cmd)
    decreases |s| - i
  {
    var j := SkipSpace(s, i);
    if Sees(s, i, "|)&;") || j == |s| {
      GoodWrap(s, Exec(args), list);
    } else {
      var t := GetToken(s, j);
      if t.tok == 'a' {
        GoodToken(s, j);
        GoodRedirs(s, t.next);
        var r := ParseRedirs(s, t.next);
        if r.Redirs? {
          GoodArgs(s, r.next, args + [t.span], list + r.list);
        }
      }
    }
  }

  lemma {:induction false} GoodExec(s: string, i: nat)
    requires i <= |s|
    ensures var r := ParseExec(s, i); r.Ok? ==> Good(s, r.cmd)
    decreases |s| - i, 1
  {
    hide ParseArgs, ParseRedirs, ParseBlock, GetToken;
    if Sees(s, i, "(") {
      TokenFrom(s, i);
      GoodBlock(s, SkipSpace(s, i));
    } else {
      GoodRedirs(s, i);
      var r := ParseRedirs(s, i);
      if r.Redirs? {
        GoodArgs(s, r.next, [], r.list);
      }
    }
  }

  lemma {:induction false} GoodBlock(s: string, i: nat)
    requires i <= |s|
    ensures var r := ParseBlock(s, i); r.Ok? ==> Good(s, r.cmd)
    decreases |s| - i, 0
  {
    hide ParseLine, ParseRedirs, GetToken;
    if ParseBlock(s, i).Ok? {
      TokenSeen(s, i, "(");
      var next := GetToken(s, i).next;
      GoodLine(s, next);
      var inner := ParseLine(s, next);
      var after := GetToken(s, inner.next).next;
      GoodRedirs(s, after);
      GoodWrap(s, inner.cmd, ParseRedirs(s, after).list);
    }
  }

  lemma {:induction false} GoodPipe(s: string, i: nat)
    requires i <= |s|
    ensures var r := ParsePipe(s, i); r.Ok? ==> Good(s, r.cmd)
    decreases |s| - i, 2
  {
    hide ParseExec, GetToken;
    GoodExec(s, i);
    var l := ParseExec(s, i);
    if l.Ok? && Sees(s, l.next, "|") {
      TokenSeen(s, l.next, "|");
      GoodPipe(s, GetToken(s, l.next).next);
    }
  }

  lemma {:induction false} GoodAmps(s: string, i: nat, c: Cmd<Span>)
    requires i <= |s| && Good(s, c)
    ensures Good(s, ParseAmps(s, i, c).cmd)
    decreases |s| - i
  {
    if Sees(s, i, "&") {
      TokenSeen(s, i, "&");
      GoodAmps(s, GetToken(s, i).next, Back(c));
    }
  }

  /** In every line that parses, the tree's strings are whole words. */
  lemma {:induction false} GoodLine(s: string, i: nat)
    requires i <= |s|
    ensures var r := ParseLine(s, i); r.Ok? ==> Good(s, r.cmd)
    decreases |s| - i, 3
  {
    hide ParsePipe, ParseAmps, GetToken;
    GoodPipe(s, i);
    var p := ParsePipe(s, i);
    if p.Ok? {
      GoodAmps(s, p.next, p.cmd);
      var b := ParseAmps(s, p.next, p.cmd);
      if Sees(s, b.next, ";") {
        TokenSeen(s, b.next, ";");
        GoodLine(s, GetToken(s, b.next).next);
      }
    }
  }

  /** Where nulterminate writes. */
  ghost function Cuts(c: Cmd<Span>): set<nat> {
    match c
    case Exec(args) => CutsOf(args)
    case Redir(c1, file, _) => Cuts(c1) + {file.eq}
    case Pipe(l, r) => Cuts(l) + Cuts(r)
    case List(l, r) => Cuts(l) + Cuts(r)
    case Back(c1) => Cuts(c1)
  }

  ghost function CutsOf(args: seq<Span>): set<nat> {
    if args == [] then {} else CutsOf(args[..|args| - 1]) + {args[|args| - 1].eq}
  }

  /** The C string at q. */
  function CString(buf: seq<char>, q: nat): string
    decreases |buf| - q
  {
    if q >= |buf| || buf[q] == '\0' then "" else [buf[q]] + CString(buf, q + 1)
  }

  function CStrings(buf: seq<char>, xs: seq<Span>): (r: seq<string>)
    ensures |r| == |xs| && forall i :: 0 <= i < |xs| ==> r[i] == CString(buf, xs[i].q)
  {
    if xs == [] then [] else CStrings(buf, xs[..|xs| - 1]) + [CString(buf, xs[|xs| - 1].q)]
  }

  /** The tree as runcmd sees it: argv and file are C strings. */
  function CText(buf: seq<char>, c: Cmd<Span>): Cmd<string> {
    match c
    case Exec(args) => Exec(CStrings(buf, args))
    case Redir(c1, file, k) => Redir(CText(buf, c1), CString(buf, file.q), k)
    case Pipe(l, r) => Pipe(CText(buf, l), CText(buf, r))
    case List(l, r) => List(CText(buf, l), CText(buf, r))
    case Back(c1) => Back(CText(buf, c1))
  }

  /** The buffer holds the line, with NULs at `cuts`, and one at its end. */
  ghost predicate CutAt(buf: seq<char>, s: string, cuts: set<nat>) {
    && |s| < |buf| && buf[|s|] == '\0' && (forall k :: 0 <= k < |s| ==> s[k] != '\0')
    && forall k: nat :: k < |s| ==> buf[k] == if k in cuts then '\0' else s[k]
  }

  lemma {:induction false} StringAt(buf: seq<char>, s: string, cuts: set<nat>, x: Span, k: nat)
    requires CutAt(buf, s, cuts) && GoodSpan(s, x) && x.eq in cuts && x.q <= k <= x.eq
    requires forall c :: c in cuts ==> c <= |s| && Delim(s, c)
    ensures CString(buf, k) == s[k..x.eq]
    decreases x.eq - k
  {
    if k < x.eq {
      assert k !in cuts;
      StringAt(buf, s, cuts, x, k + 1);
      assert s[k..x.eq] == [s[k]] + s[k + 1..x.eq];
    }
  }

  lemma {:induction false} CutsArgs(s: string, args: seq<Span>)
    requires Good(s, Exec(args))
    ensures forall c :: c in CutsOf(args) ==> c <= |s| && Delim(s, c)
    ensures forall i :: 0 <= i < |args| ==> args[i].eq in CutsOf(args)
  {
    if args != [] {
      CutsArgs(s, args[..|args| - 1]);
    }
  }

  lemma {:induction false} CutsGood(s: string, c: Cmd<Span>)
    requires Good(s, c)
    ensures forall k :: k in Cuts(c) ==> k <= |s| && Delim(s, k)
  {
    match c
    case Exec(args) => CutsArgs(s, args);
    case Redir(c1, file, _) => CutsGood(s, c1);
    case Pipe(l, r) => CutsGood(s, l); CutsGood(s, r);
    case List(l, r) => CutsGood(s, l); CutsGood(s, r);
    case Back(c1) => CutsGood(s, c1);
  }

  lemma {:induction false} TextAt(buf: seq<char>, s: string, cuts: set<nat>, c: Cmd<Span>)
    requires CutAt(buf, s, cuts) && Good(s, c) && Cuts(c) <= cuts
    requires forall k :: k in cuts ==> k <= |s| && Delim(s, k)
    ensures CText(buf, c) == Text(s, c)
  {
    match c
    case Exec(args) =>
      CutsArgs(s, args);
      forall i | 0 <= i < |args| ensures CString(buf, args[i].q) == TextOf(s, args[i]) {
        StringAt(buf, s, cuts, args[i], args[i].q);
      }
      assert CStrings(buf, args) == Texts(s, args);
    case Redir(c1, file, _) =>
      TextAt(buf, s, cuts, c1);
      StringAt(buf, s, cuts, file, file.q);
    case Pipe(l, r) => TextAt(buf, s, cuts, l); TextAt(buf, s, cuts, r);
    case List(l, r) => TextAt(buf, s, cuts, l); TextAt(buf, s, cuts, r);
    case Back(c1) => TextAt(buf, s, cuts, c1);
  }

  ghost predicate InBuffer(c: Cmd<Span>, n: nat) {
    forall k :: k in Cuts(c) ==> k < n
  }

  /** nulterminate */
  method Nulterminate(buf: array<char>, c: Cmd<Span>)
    requires InBuffer(c, buf.Length)
    modifies buf
    ensures forall k: nat :: k < buf.Length ==> buf[k] == if k in Cuts(c) then '\0' else old(buf[k])
    decreases c
  {
    match c {
      case Exec(args) =>
        assert args[..|args|] == args && Cuts(c) == CutsOf(args);
        var i := 0;
        while i < |args|
          invariant 0 <= i <= |args| && InBuffer(Exec(args), buf.Length)
          invariant forall k: nat :: k < buf.Length ==> buf[k] == if k in CutsOf(args[..i]) then '\0' else old(buf[k])
        {
          assert args[..i + 1][..i] == args[..i];
          CutsPart(args, i);
          buf[args[i].eq] := '\0';
          i := i + 1;
        }
      case Redir(c1, file, _) =>
        assert Cuts(c) == Cuts(c1) + {file.eq};
        Nulterminate(buf, c1);
        buf[file.eq] := '\0';
      case Pipe(l, r) =>
        assert Cuts(c) == Cuts(l) + Cuts(r);
        Nulterminate(buf, l);
        Nulterminate(buf, r);
      case List(l, r) =>
        assert Cuts(c) == Cuts(l) + Cuts(r);
        Nulterminate(buf, l);
        Nulterminate(buf, r);
      case Back(c1) =>
        assert Cuts(c) == Cuts(c1);
        Nulterminate(buf, c1);
    }
  }

  lemma {:induction false} CutsPart(args: seq<Span>, i: nat)
    requires i < |args|
    ensures args[i].eq in CutsOf(args)
    decreases |args|
  {
    if i < |args| - 1 {
      CutsPart(args[..|args| - 1], i);
    }
  }

  /** parsecmd on a buffer that holds a C string: the tree that the grammar
      gives for it, with every argv and file a C string of its own. */
  method ParseBuffer(buf: array<char>) returns (r: Parsed)
    requires '\0' in buf[..]
    modifies buf
    ensures r == ParseCmd(old(CString(buf[..], 0)))
    ensures r.Ok? ==> CText(buf[..], r.cmd) == Text(old(CString(buf[..], 0)), r.cmd)
  {
    var p := new Parser(buf);
    ghost var s := p.Line();
    WholeLine(buf[..], s, 0);
    r := p.ParseList();
    if r.Failed? {
      return;
    }
    GoodLine(s, 0);
    p.SkipSpaces();
    if p.ps != p.es {
      return Failed(Leftovers);
    }
    CutsGood(s, r.cmd);
    ghost var cuts := Cuts(r.cmd);
    Nulterminate(buf, r.cmd);
    TextAt(buf[..], s, cuts, r.cmd);
    r := Ok(r.cmd, p.es);
  }

  lemma {:induction false} WholeLine(buf: seq<char>, s: string, k: nat)
    requires |s| < |buf| && s == buf[..|s|] && buf[|s|] == '\0' && k <= |s|
    requires forall k :: 0 <= k < |s| ==> s[k] != '\0'
    ensures CString(buf, k) == s[k..]
    decreases |s| - k
  {
    if k < |s| {
      WholeLine(buf, s, k + 1);
      assert s[k..] == [s[k]] + s[k + 1..];
    }
  }

  /** The whole way: the line that spells a tree, parsed in its buffer, gives
      back the tree's own strings. */
  method ParseRendered(t: Cmd<string>, buf: array<char>) returns (r: Parsed)
    requires Valid(t) && Fits(t) && '\0' in buf[..] && CString(buf[..], 0) == Render(t)
    modifies buf
    ensures r.Ok? && CText(buf[..], r.cmd) == t
  {
    hide CText, ParseCmd, Render, Text;
    RoundTrip(t);
    r := ParseBuffer(buf);
  }
}
