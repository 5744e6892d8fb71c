/** Every command tree is read back from the line that spells it out. */
module ShellRoundTrip {
  import opened ShellGrammar

  predicate ValidWord(w: string) {
    w != "" && forall c :: c in w ==> IsWord(c)
  }

  predicate ValidWords(ws: seq<string>) {
    forall w :: w in ws ==> ValidWord(w)
  }

  /** The tree can be written down at all. */
  predicate Valid(t: Cmd<string>) {
    match t
    case Exec(args) => ValidWords(args)
    case Redir(c, file, _) => Valid(c) && ValidWord(file)
    case Pipe(l, r) => Valid(l) && Valid(r)
    case List(l, r) => Valid(l) && Valid(r)
    case Back(c) => Valid(c)
  }

  /** No command has more arguments than argv has room for. */
  predicate Fits(t: Cmd<string>) {
    match t
    case Exec(args) => |args| < MAXARGS
    case Redir(c, _, _) => Fits(c)
    case Pipe(l, r) => Fits(l) && Fits(r)
    case List(l, r) => Fits(l) && Fits(r)
    case Back(c) => Fits(c)
  }

  /** The words from number k on, with a space between any two. */
  function Words(args: seq<string>, k: nat): string
    requires k <= |args|
    decreases |args| - k
  {
    if k == |args| then "" else args[k] + (if k + 1 < |args| then " " else "") + Words(args, k + 1)
  }

  function Op(k: Kind): string {
    match k
    case In => "<"
    case Out => ">"
    case Append => ">>"
  }

  /** The tree as a line, with parentheses around every part. */
  function Render(t: Cmd<string>): string
    decreases t, 0
  {
    match t
    case Exec(args) => Words(args, 0)
    case Redir(c, file, k) => Group(c) + (Op(k) + file)
    case Pipe(l, r) => Group(l) + ("|" + Group(r))
    case List(l, r) => Group(l) + (";" + Group(r))
    case Back(c) => Group(c) + "&"
  }

  function Group(t: Cmd<string>): string
    decreases t, 1
  {
    "(" + (Render(t) + ")")
  }

  function TextOf(s: string, x: Span): string {
    if x.q <= x.eq <= |s| then s[x.q..x.eq] else ""
  }

  function Texts(s: string, xs: seq<Span>): (r: seq<string>)
    ensures |r| == |xs| && forall i :: 0 <= i < |xs| ==> r[i] == TextOf(s, xs[i])
  {
    if xs == [] then [] else Texts(s, xs[..|xs| - 1]) + [TextOf(s, xs[|xs| - 1])]
  }

  /** The tree with its strings. */
  function Text(s: string, c: Cmd<Span>): Cmd<string> {
    match c
    case Exec(args) => Exec(Texts(s, args))
    case Redir(c1, file, k) => Redir(Text(s, c1), TextOf(s, file), k)
    case Pipe(l, r) => Pipe(Text(s, l), Text(s, r))
    case List(l, r) => List(Text(s, l), Text(s, r))
    case Back(c1) => Back(Text(s, c1))
  }

  predicate Occurs(s: string, i: nat, w: string) {
    i + |w| <= |s| && s[i..i + |w|] == w
  }

  lemma OccursBoth(s: string, i: nat, a: string, b: string)
    requires Occurs(s, i, a + b)
    ensures Occurs(s, i, a) && Occurs(s, i + |a|, b)
  {
    var w := s[i..i + |a + b|];
    assert w[..|a|] == a && w[|a|..] == b;
    assert s[i..i + |a|] == w[..|a|];
    assert s[i + |a|..i + |a| + |b|] == w[|a|..];
  }

  /** The line, or the block, ends here. */
  predicate Ends(s: string, j: nat) {
    j == |s| || (j < |s| && s[j] == ')')
  }

  predicate Delim(s: string, j: nat) {
    j == |s| || (j < |s| && (s[j] in WHITESPACE || s[j] in SYMBOLS))
  }

  lemma WordAt(s: string, i: nat, w: string)
    requires Occurs(s, i, w) && ValidWord(w) && Delim(s, i + |w|)
    ensures i < |s| && IsWord(s[i]) && SkipSpace(s, i) == i
    ensures GetToken(s, i) == Token('a', Span(i, i + |w|), SkipSpace(s, i + |w|)) && TextOf(s, Span(i, i + |w|)) == w
  {
    forall k | i <= k < i + |w| ensures IsWord(s[k]) {
      assert s[k] == w[k - i] && w[k - i] in w;
    }
    assert SkipWord(s, i) == i + |w|;
  }

  lemma SymbolAt(s: string, i: nat)
    requires i < |s| && s[i] in SYMBOLS
    ensures SkipSpace(s, i) == i && forall toks :: Sees(s, i, toks) <==> s[i] in toks
    ensures s[i] != '>' ==> GetToken(s, i) == Token(s[i], Span(i, i + 1), SkipSpace(s, i + 1))
  {
  }

  /** One turn of parseexec's loop, on a word that no redirection follows. */
  lemma ArgStep(s: string, i: nat, w: string, next: nat, read: seq<Span>)
    requires Occurs(s, i, w) && ValidWord(w) && Delim(s, i + |w|) && i + |w| <= next <= |s|
    requires SkipSpace(s, i + |w|) == next == SkipSpace(s, next) && !Sees(s, next, "<>")
    ensures ParseArgs(s, i, read, [])
            == if |read| + 1 >= MAXARGS then Failed(TooManyArgs)
               else ParseArgs(s, next, read + [Span(i, i + |w|)], [])
  {
    WordAt(s, i, w);
    hide GetToken;
    assert !Sees(s, i, "|)&;");
    assert ParseRedirs(s, next) == Redirs([], next);
    var none: seq<(Span, Kind)> := [];
    assert none + none == none;
  }

  lemma ArgsEnd(s: string, i: nat, read: seq<Span>)
    requires Ends(s, i)
    ensures ParseArgs(s, i, read, []) == Ok(Exec(read), i)
  {
  }

  lemma {:induction false} ArgsOf(s: string, i: nat, args: seq<string>, k: nat, read: seq<Span>)
    requires k <= |args| && ValidWords(args) && Occurs(s, i, Words(args, k)) && Ends(s, i + |Words(args, k)|)
    requires Texts(s, read) == args[..k] && k < MAXARGS
    ensures var r := ParseArgs(s, i, read, []);
            if |args| < MAXARGS then r.Ok? && r.next == i + |Words(args, k)| && Text(s, r.cmd) == Exec(args)
            else r == Failed(TooManyArgs)
    decreases |args| - k
  {
    hide ParseArgs, GetToken, Sees, Occurs, Ends, Delim, ValidWord, SkipSpace, TextOf;
    if k == |args| {
      assert args[..k] == args;
      ArgsEnd(s, i, read);
    } else {
      var next := WordsStep(s, i, args, k);
      ArgStep(s, i, args[k], next, read);
      if k + 1 < MAXARGS {
        OneMoreText(s, i, args, k, read);
        ArgsOf(s, next, args, k + 1, read + [Span(i, i + |args[k]|)]);
      }
    }
  }

  /** Reading a word leaves the rest of the words. */
  lemma WordsStep(s: string, i: nat, args: seq<string>, k: nat) returns (next: nat)
    requires k < |args| && ValidWords(args) && Occurs(s, i, Words(args, k)) && Ends(s, i + |Words(args, k)|)
    ensures ValidWord(args[k]) && Occurs(s, i, args[k]) && Delim(s, i + |args[k]|) && i + |args[k]| <= next <= |s|
    ensures SkipSpace(s, i + |args[k]|) == next == SkipSpace(s, next) && !Sees(s, next, "<>")
    ensures Occurs(s, next, Words(args, k + 1)) && next + |Words(args, k + 1)| == i + |Words(args, k)|
  {
    hide Ends, Delim, SkipSpace, Sees, Occurs;
    var rest := (if k + 1 < |args| then " " else "") + Words(args, k + 1);
    assert Words(args, k) == args[k] + rest;
    assert args[k] in args;
    WordFits(s, i, args[k]) by {
      OccursBoth(s, i, args[k], rest);
    }
    OccursBoth(s, i, args[k], rest);
    NextWord(s, i + |args[k]|, args, k + 1);
    next := if k + 1 < |args| then i + |args[k]| + 1 else i + |args[k]|;
  }

  lemma OneMoreText(s: string, i: nat, args: seq<string>, k: nat, read: seq<Span>)
    requires k < |args| && Texts(s, read) == args[..k] && Occurs(s, i, args[k])
    ensures Texts(s, read + [Span(i, i + |args[k]|)]) == args[..k + 1]
  {
    var read' := read + [Span(i, i + |args[k]|)];
    assert read'[..|read|] == read;
  }

  /** After a word comes a space and a word, or the end. */
  lemma NextWord(s: string, j: nat, args: seq<string>, k: nat)
    requires 0 < k <= |args| && ValidWords(args)
    requires var rest := (if k < |args| then " " else "") + Words(args, k); Occurs(s, j, rest) && Ends(s, j + |rest|)
    ensures Delim(s, j)
    ensures var next := if k < |args| then j + 1 else j;
            && next <= |s| && SkipSpace(s, j) == next == SkipSpace(s, next) && !Sees(s, next, "<>")
            && Occurs(s, next, Words(args, k)) && Ends(s, next + |Words(args, k)|)
  {
    if k < |args| {
      OccursBoth(s, j, " ", Words(args, k));
      assert s[j] == ' ';
      assert args[k] in args;
      FirstChar(s, j + 1, args, k);
    } else {
      assert "" + Words(args, k) == "";
    }
  }

  lemma FirstChar(s: string, i: nat, args: seq<string>, k: nat)
    requires k < |args| && ValidWord(args[k]) && Occurs(s, i, Words(args, k))
    ensures i < |s| && IsWord(s[i])
  {
    var w := Words(args, k);
    assert w[0] == args[k][0] && args[k][0] in args[k];
    assert s[i] == s[i..i + |w|][0];
  }

  lemma WordFits(s: string, i: nat, w: string)
    requires Occurs(s, i, w)
    ensures i + |w| <= |s|
  {
  }

  /** A command with nothing behind it is a line. */
  lemma Alone(s: string, i: nat)
    requires i <= |s|
    ensures var r := ParseExec(s, i);
            if r.Failed? then ParseLine(s, i) == ParsePipe(s, i) == r
            else Ends(s, r.next) ==> ParseLine(s, i) == ParsePipe(s, i) == r
  {
    var r := ParseExec(s, i);
    if r.Ok? && Ends(s, r.next) {
      assert SkipSpace(s, r.next) == r.next;
      assert !Sees(s, r.next, "|") && !Sees(s, r.next, "&") && !Sees(s, r.next, ";");
    }
  }

  /** What the parser finds at i when the line spells t there. */
  ghost predicate Reads(s: string, r: Parsed, t: Cmd<string>, next: nat) {
    if Fits(t) then r.Ok? && r.next == next && Text(s, r.cmd) == t else r == Failed(TooManyArgs)
  }

  /** A line starts with no space, unless it is empty. */
  lemma NoSpaceFirst(s: string, i: nat, t: Cmd<string>)
    requires Valid(t) && Occurs(s, i, Render(t)) && Ends(s, i + |Render(t)|)
    ensures i <= |s| && SkipSpace(s, i) == i
  {
    var w := Render(t);
    if w != "" {
      assert s[i] == w[0];
      if t.Exec? {
        assert t.args[0] in t.args;
        assert w[0] == t.args[0][0] && t.args[0][0] in t.args[0];
      } else {
        match t {
          case Redir(c, _, _) => GroupFirst(c);
          case Pipe(l, _) => GroupFirst(l);
          case List(l, _) => GroupFirst(l);
          case Back(c) => GroupFirst(c);
        }
        assert w[0] == '(';
      }
    }
  }

  lemma GroupFirst(t: Cmd<string>)
    ensures Group(t) != "" && Group(t)[0] == '('
  {
  }

  lemma CharAt(s: string, i: nat, w: string)
    requires Occurs(s, i, w) && w != ""
    ensures i < |s| && s[i] == w[0]
  {
    assert s[i..i + |w|][0] == s[i];
  }

  /** A group, given that the line inside it is read. */
  lemma GroupOf(s: string, i: nat, t: Cmd<string>)
    requires Valid(t) && Occurs(s, i, Group(t))
    requires Reads(s, ParseLine(s, i + 1), t, i + 1 + |Render(t)|)
    ensures var next := i + |Group(t)|;
            && next <= |s| && i < next
            && var r := ParseRedirs(s, SkipSpace(s, next));
               if !Fits(t) then ParseExec(s, i) == Failed(TooManyArgs)
               else if r.NoFile? then ParseExec(s, i) == Failed(MissingFile)
               else ParseExec(s, i) == Ok(Wrap(ParseLine(s, i + 1).cmd, r.list), r.next)
  {
    hide Text, ParseLine, ParseRedirs, Render;
    OccursBoth(s, i, "(", Render(t) + ")");
    OccursBoth(s, i + 1, Render(t), ")");
    var close := i + 1 + |Render(t)|;
    assert s[i] == '(' && s[close] == ')';
    SymbolAt(s, i);
    SymbolAt(s, close);
    NoSpaceFirst(s, i + 1, t);
  }

  /** A group before one of | ; & is a whole command. */
  lemma GroupBefore(s: string, i: nat, t: Cmd<string>)
    requires Valid(t) && Occurs(s, i, Group(t)) && Reads(s, ParseLine(s, i + 1), t, i + 1 + |Render(t)|)
    requires var next := i + |Group(t)|; Ends(s, next) || (next < |s| && s[next] in "|;&")
    ensures Reads(s, ParseExec(s, i), t, i + |Group(t)|)
  {
    hide Text, ParseLine, ParseExec, Render;
    GroupOf(s, i, t);
    var next := i + |Group(t)|;
    if next < |s| {
      SymbolAt(s, next);
    }
    assert SkipSpace(s, next) == next && !Sees(s, next, "<>");
  }

  /** A redirection's operator and file name. */
  lemma RedirOf(s: string, i: nat, k: Kind, file: string)
    requires ValidWord(file) && Occurs(s, i, Op(k) + file) && Ends(s, i + |Op(k) + file|)
    ensures SkipSpace(s, i) == i
    ensures ParseRedirs(s, i) == Redirs([(Span(i + |Op(k)|, i + |Op(k) + file|), k)], i + |Op(k) + file|)
    ensures TextOf(s, Span(i + |Op(k)|, i + |Op(k) + file|)) == file
  {
    hide ValidWord, SkipWord, GetToken, ParseRedirs, IsWord, KindOf;
    OccursBoth(s, i, Op(k), file);
    var j, next := i + |Op(k)|, i + |Op(k) + file|;
    WordAt(s, j, file);
    OpAt(s, i, k);
    assert SkipSpace(s, next) == next && !Sees(s, next, "<>");
    RedirStep(s, i);
  }

  lemma RedirStep(s: string, i: nat)
    requires i <= |s| && Sees(s, i, "<>")
    ensures var t := GetToken(s, i);
            var f := GetToken(s, t.next);
            f.tok == 'a' && !Sees(s, f.next, "<>") ==>
              ParseRedirs(s, i) == Redirs([(f.span, KindOf(t.tok))], SkipSpace(s, f.next))
  {
    hide GetToken, Sees, SkipSpace;
    var f := GetToken(s, GetToken(s, i).next);
    if f.tok == 'a' && !Sees(s, f.next, "<>") {
      assert ParseRedirs(s, f.next) == Redirs([], SkipSpace(s, f.next));
    }
  }

  lemma OpAt(s: string, i: nat, k: Kind)
    requires var j := i + |Op(k)|; Occurs(s, i, Op(k)) && j < |s| && IsWord(s[j])
    ensures i < |s| && s[i] in "<>" && SkipSpace(s, i) == i && Sees(s, i, "<>")
    ensures GetToken(s, i).next == i + |Op(k)| && KindOf(GetToken(s, i).tok) == k
  {
    var j := i + |Op(k)|;
    CharAt(s, i, Op(k));
    if k == Append {
      assert s[i..j][1] == s[i + 1];
    }
    assert SkipSpace(s, j) == j;
  }

  /** Wherever the line spells a tree, the parser reads that tree back, and
      stops behind it; or it runs out of room for arguments. */
  lemma {:induction false} LineOf(s: string, i: nat, t: Cmd<string>)
    requires Valid(t) && Occurs(s, i, Render(t)) && Ends(s, i + |Render(t)|)
    ensures i <= |s| && Reads(s, ParseLine(s, i), t, i + |Render(t)|)
    decreases t
  {
    hide ParseLine, Text, Occurs, Ends, Group, Reads, ValidWord, ValidWords, Op, Words, Fits;
    match t
    case Exec(args) => ExecLine(s, i, args);
    case Redir(c, file, k) =>
      OccursBoth(s, i, Group(c), Op(k) + file);
      InGroup(s, i, c);
      LineOf(s, i + 1, c);
      RedirLine(s, i, c, file, k);
    case Pipe(l, r) =>
      TwoGroups(s, i, l, "|", r);
      LineOf(s, i + 1, l);
      LineOf(s, i + |Group(l)| + 2, r);
      PipeLine(s, i, l, r);
    case List(l, r) =>
      TwoGroups(s, i, l, ";", r);
      LineOf(s, i + 1, l);
      LineOf(s, i + |Group(l)| + 2, r);
      ListLine(s, i, l, r);
    case Back(c) =>
      OccursBoth(s, i, Group(c), "&");
      InGroup(s, i, c);
      LineOf(s, i + 1, c);
      BackLine(s, i, c);
  }

  lemma TwoGroups(s: string, i: nat, l: Cmd<string>, op: string, r: Cmd<string>)
    requires |op| == 1 && Occurs(s, i, Group(l) + (op + Group(r)))
    ensures Occurs(s, i, Group(l)) && Occurs(s, i + |Group(l)|, op) && Occurs(s, i + |Group(l)| + 1, Group(r))
    ensures Occurs(s, i + 1, Render(l)) && Ends(s, i + 1 + |Render(l)|)
    ensures Occurs(s, i + |Group(l)| + 2, Render(r)) && Ends(s, i + |Group(l)| + 2 + |Render(r)|)
  {
    hide Render, Group, Ends, Occurs;
    OccursBoth(s, i, Group(l), op + Group(r));
    OccursBoth(s, i + |Group(l)|, op, Group(r));
    InGroup(s, i, l);
    InGroup(s, i + |Group(l)| + 1, r);
  }

  lemma InGroup(s: string, i: nat, t: Cmd<string>)
    requires Occurs(s, i, Group(t))
    ensures Occurs(s, i + 1, Render(t)) && Ends(s, i + 1 + |Render(t)|)
  {
    OccursBoth(s, i, "(", Render(t) + ")");
    OccursBoth(s, i + 1, Render(t), ")");
  }

  lemma ExecLine(s: string, i: nat, args: seq<string>)
    requires ValidWords(args) && Occurs(s, i, Words(args, 0)) && Ends(s, i + |Words(args, 0)|)
    ensures i <= |s| && Reads(s, ParseLine(s, i), Exec(args), i + |Words(args, 0)|)
  {
    hide ParseArgs, ParseLine, ParsePipe, Words, Ends;
    WordFits(s, i, Words(args, 0));
    ArgsOf(s, i, args, 0, []);
    ExecIsArgs(s, i, args);
    Alone(s, i);
  }

  lemma ExecIsArgs(s: string, i: nat, args: seq<string>)
    requires ValidWords(args) && Occurs(s, i, Words(args, 0)) && Ends(s, i + |Words(args, 0)|)
    ensures i <= |s| && ParseExec(s, i) == ParseArgs(s, i, [], [])
  {
    if args != [] {
      assert args[0] in args;
      FirstChar(s, i, args, 0);
    }
    assert SkipSpace(s, i) == i && !Sees(s, i, "(") && !Sees(s, i, "<>");
    assert ParseRedirs(s, i) == Redirs([], i);
  }

  lemma RedirLine(s: string, i: nat, c: Cmd<string>, file: string, k: Kind)
    requires Valid(c) && ValidWord(file) && Occurs(s, i, Group(c)) && Occurs(s, i + |Group(c)|, Op(k) + file)
    requires Reads(s, ParseLine(s, i + 1), c, i + 1 + |Render(c)|)
    requires Ends(s, i + |Group(c) + (Op(k) + file)|)
    ensures Reads(s, ParseLine(s, i), Redir(c, file, k), i + |Group(c) + (Op(k) + file)|)
  {
    hide ParseLine, ParsePipe, ParseExec, ParseRedirs, Render, Op, Group, Ends, Occurs, Valid, ValidWord, SkipSpace, TextOf;
    GroupOf(s, i, c);
    RedirOf(s, i + |Group(c)|, k, file);
    Alone(s, i);
  }

  lemma PipeLine(s: string, i: nat, l: Cmd<string>, r: Cmd<string>)
    requires Valid(l) && Valid(r) && Occurs(s, i, Group(l)) && Occurs(s, i + |Group(l)|, "|")
    requires Occurs(s, i + |Group(l)| + 1, Group(r)) && Ends(s, i + |Group(l)| + 1 + |Group(r)|)
    requires Reads(s, ParseLine(s, i + 1), l, i + 1 + |Render(l)|)
    requires Reads(s, ParseLine(s, i + |Group(l)| + 2), r, i + |Group(l)| + 2 + |Render(r)|)
    ensures Reads(s, ParseLine(s, i), Pipe(l, r), i + |Group(l)| + 1 + |Group(r)|)
  {
    hide ParseLine, ParsePipe, ParseExec, Occurs, Group, Ends, Render, Valid;
    var mid, end := i + |Group(l)|, i + |Group(l)| + 1 + |Group(r)|;
    CharAt(s, mid, "|");
    GroupFirst(r);
    CharAt(s, mid + 1, Group(r));
    SymbolAt(s, mid);
    SymbolAt(s, mid + 1);
    GroupBefore(s, i, l);
    GroupBefore(s, mid + 1, r);
    WordFits(s, mid + 1, Group(r));
    Alone(s, mid + 1);
    PipeEnd(s, i, mid, end);
  }

  /** parsepipe and parseline around a '|' at mid, up to the end. */
  lemma PipeEnd(s: string, i: nat, mid: nat, end: nat)
    requires i <= mid < end <= |s| && Ends(s, end) && s[mid] == '|' && SkipSpace(s, mid + 1) == mid + 1
    ensures var l, r := ParseExec(s, i), ParsePipe(s, mid + 1);
            && (l.Failed? ==> ParseLine(s, i) == l)
            && (l.Ok? && l.next == mid && r.Failed? ==> ParseLine(s, i) == r)
            && (l.Ok? && l.next == mid && r.Ok? && r.next == end ==> ParseLine(s, i) == Ok(Pipe(l.cmd, r.cmd), end))
  {
    hide ParseExec;
    SymbolAt(s, mid);
    assert !Sees(s, end, "&") && !Sees(s, end, ";") && SkipSpace(s, end) == end;
  }

  lemma ListLine(s: string, i: nat, l: Cmd<string>, r: Cmd<string>)
    requires Valid(l) && Valid(r) && Occurs(s, i, Group(l)) && Occurs(s, i + |Group(l)|, ";")
    requires Occurs(s, i + |Group(l)| + 1, Group(r)) && Ends(s, i + |Group(l)| + 1 + |Group(r)|)
    requires Reads(s, ParseLine(s, i + 1), l, i + 1 + |Render(l)|)
    requires Reads(s, ParseLine(s, i + |Group(l)| + 2), r, i + |Group(l)| + 2 + |Render(r)|)
    ensures Reads(s, ParseLine(s, i), List(l, r), i + |Group(l)| + 1 + |Group(r)|)
  {
    hide ParseLine, ParsePipe, ParseExec, Occurs, Group, Ends, Render, Valid, SkipSpace, GetToken, TextOf;
    var mid := i + |Group(l)|;
    CharAt(s, mid, ";");
    GroupFirst(r);
    CharAt(s, mid + 1, Group(r));
    SymbolAt(s, mid);
    SymbolAt(s, mid + 1);
    GroupBefore(s, i, l);
    GroupBefore(s, mid + 1, r);
    Alone(s, mid + 1);
    ListEnd(s, i, mid);
  }

  lemma ListEnd(s: string, i: nat, mid: nat)
    requires i <= mid < |s| && s[mid] == ';' && SkipSpace(s, mid + 1) == mid + 1
    ensures var l, r := ParseExec(s, i), ParseLine(s, mid + 1);
            && (l.Failed? ==> ParseLine(s, i) == l)
            && (l.Ok? && l.next == mid && r.Failed? ==> ParseLine(s, i) == r)
            && (l.Ok? && l.next == mid && r.Ok? ==> ParseLine(s, i) == Ok(List(l.cmd, r.cmd), r.next))
  {
    hide ParseExec;
    SymbolAt(s, mid);
  }

  lemma BackLine(s: string, i: nat, c: Cmd<string>)
    requires Valid(c) && Occurs(s, i, Group(c)) && Occurs(s, i + |Group(c)|, "&") && Ends(s, i + |Group(c)| + 1)
    requires Reads(s, ParseLine(s, i + 1), c, i + 1 + |Render(c)|)
    ensures Reads(s, ParseLine(s, i), Back(c), i + |Group(c)| + 1)
  {
    hide ParseLine, ParsePipe, ParseExec, Occurs, Group, Ends, Render, Valid;
    var mid := i + |Group(c)|;
    CharAt(s, mid, "&");
    SymbolAt(s, mid);
    GroupBefore(s, i, c);
    BackEnd(s, i, mid);
  }

  lemma BackEnd(s: string, i: nat, mid: nat)
    requires i <= mid < |s| && s[mid] == '&' && Ends(s, mid + 1)
    ensures var c := ParseExec(s, i);
            && (c.Failed? ==> ParseLine(s, i) == c)
            && (c.Ok? && c.next == mid ==> ParseLine(s, i) == Ok(Back(c.cmd), mid + 1))
  {
    hide ParseExec;
    SymbolAt(s, mid);
    assert SkipSpace(s, mid + 1) == mid + 1 && !Sees(s, mid + 1, "&") && !Sees(s, mid + 1, ";");
    var c := ParseExec(s, i);
    if c.Ok? {
      assert ParseAmps(s, mid + 1, Back(c.cmd)) == Ok(Back(c.cmd), mid + 1);
      assert ParseAmps(s, mid, c.cmd) == ParseAmps(s, mid + 1, Back(c.cmd));
    }
  }

  /** The line that spells out a tree is parsed into that tree exactly when
      every command in it has at most nine arguments; otherwise the shell says
      that there are too many. */
  lemma RoundTrip(t: Cmd<string>)
    requires Valid(t)
    ensures var r := ParseCmd(Render(t));
            if Fits(t) then r.Ok? && Text(Render(t), r.cmd) == t else r == Failed(TooManyArgs)
  {
    hide ParseLine, Text, Render;
    var s := Render(t);
    assert s[0..0 + |s|] == s;
    LineOf(s, 0, t);
  }
}
