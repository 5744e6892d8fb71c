/** lab1/execute.c: the pipes, forks and redirections of a pipeline, on the file
    descriptor tables that lab1/tests/syscall_mock.c describes. */
module Pipeline {
  import opened Counting

  const STDIN: nat := 0
  const STDOUT: nat := 1

  /** What a descriptor stands for; Inherited are those that the shell had. */
  datatype File = Closed | Inherited(id: nat) | PipeEnd(k: nat, write: bool) | Opened(name: string, write: bool)

  const IsClosed := (f: File) => if f.Closed? then 1 else 0

  const IsPipe := (f: File) => if f.PipeEnd? then 1 else 0

  ghost function Free(t: seq<File>): nat {
    Total(t, IsClosed)
  }

  ghost function PipeFds(t: seq<File>): nat {
    Total(t, IsPipe)
  }

  datatype Option = None | Some(name: string)

  /** Both ends of pipe k in a table. */
  function WithPipe(t: seq<File>, k: nat, r: nat, w: nat): seq<File>
    requires r < |t| && w < |t|
  {
    t[r := PipeEnd(k, false)][w := PipeEnd(k, true)]
  }

  /** The table with which child i of n reaches execute_command. */
  function ChildTable(t: seq<File>, i: nat, n: nat): seq<File>
    requires |t| > 2
  {
    var t1 := if i > 0 then t[STDIN := PipeEnd(i - 1, false)] else t;
    if i + 1 < n then t1[STDOUT := PipeEnd(i, true)] else t1
  }

  /** The shell's own table: no pipes yet, and descriptors 0 to 2 open. */
  ghost predicate ShellTable(t: seq<File>) {
    |t| > 2 && (forall fd :: 0 <= fd < |t| ==> !t[fd].PipeEnd?) && forall fd :: 0 <= fd <= 2 ==> t[fd] != Closed
  }

  /** What pipe() returns: two descriptors that were closed. */
  ghost predicate TwoFree(t: seq<File>, r: nat, w: nat) {
    r < |t| && w < |t| && r != w && t[r] == t[w] == Closed
  }

  class Process {
    const fds: array<File>
    /** The most pipe descriptors the process has had open at once. */
    ghost var peak: nat

    constructor (t: seq<File>)
      ensures fresh(fds) && fds[..] == t && peak == PipeFds(t)
    {
      fds := new File[|t|](i requires 0 <= i < |t| => t[i]);
      peak := PipeFds(t);
      new;
      assert fds[..] == t;
    }

    /** The lowest closed descriptor, or -1. */
    method Lookup() returns (fd: int)
      ensures -1 <= fd < fds.Length
      ensures fd >= 0 ==> fds[fd] == Closed && forall k :: 0 <= k < fd ==> fds[k] != Closed
      ensures fd < 0 ==> forall k :: 0 <= k < fds.Length ==> fds[k] != Closed
    {
      fd := 0;
      while fd < fds.Length
        invariant 0 <= fd <= fds.Length && forall k :: 0 <= k < fd ==> fds[k] != Closed
      {
        if fds[fd] == Closed {
          return;
        }
        fd := fd + 1;
      }
      return -1;
    }

    method Close(fd: nat) returns (result: int)
      modifies fds
      ensures result == if fd < fds.Length && old(fds[..])[fd] != Closed then 0 else -1
      ensures fds[..] == if result == 0 then old(fds[..])[fd := Closed] else old(fds[..])
    {
      if fd >= fds.Length || fds[fd] == Closed {
        return -1;
      }
      fds[fd] := Closed;
      return 0;
    }

    method Dup2(from: nat, to: nat) returns (result: int)
      modifies fds
      ensures result == if from >= fds.Length || to >= fds.Length || old(fds[..])[from] == Closed then -1
                        else if from == to then 0 else to
      ensures fds[..] == if result == -1 then old(fds[..]) else old(fds[..])[to := old(fds[..])[from]]
    {
      if from >= fds.Length || fds[from] == Closed || to >= fds.Length {
        return -1;
      }
      if from == to {
        return 0;
      }
      fds[to] := fds[from];
      result := to;
    }

    /** pipe(): both ends, or nothing changes. */
    method MakePipe(k: nat) returns (r: int, w: int)
      modifies this`peak, fds
      ensures Free(old(fds[..])) >= 2 ==> r >= 0
      ensures r >= 0 ==> w >= 0 && TwoFree(old(fds[..]), r, w) && fds[..] == WithPipe(old(fds[..]), k, r, w)
      ensures r < 0 ==> fds[..] == old(fds[..])
      ensures peak == if PipeFds(fds[..]) > old(peak) then PipeFds(fds[..]) else old(peak)
    {
      ghost var t := fds[..];
      w := -1;
      r := Lookup();
      if r >= 0 {
        TotalUpdate(t, IsClosed, r, PipeEnd(k, false));
        fds[r] := PipeEnd(k, false);
        assert fds[..] == t[r := PipeEnd(k, false)];
        w := Lookup();
        if w < 0 {
          TotalZero(fds[..], IsClosed);
          fds[r] := Closed;
          r := -1;
          assert fds[..] == t;
        } else {
          fds[w] := PipeEnd(k, true);
        }
      } else {
        TotalZero(t, IsClosed);
      }
      peak := if PipeFds(fds[..]) > peak then PipeFds(fds[..]) else peak;
    }

    /** The child's side of the wiring, before execute_command. */
    method WireChild(i: nat, n: nat, pipe0: (nat, nat), pipe1: (nat, nat), ghost base: seq<File>)
      requires 1 < n && 1 <= i <= n && ShellTable(base)
      requires i > 1 ==> TwoFree(base, pipe0.0, pipe0.1)
      requires i < n ==> TwoFree(base, pipe1.0, pipe1.1)
      requires 1 < i < n ==> pipe1.0 != pipe0.0 && pipe1.0 != pipe0.1 && pipe1.1 != pipe0.0 && pipe1.1 != pipe0.1
      requires fds[..] == Wired(base, i, n, pipe0, pipe1)
      modifies fds
      ensures fds[..] == ChildTable(base, i - 1, n)
    {
      var t := fds[..];
      var res;
      if i == 1 {
        res := Close(pipe1.0);
        res := Dup2(pipe1.1, STDOUT);
        res := Close(pipe1.1);
      } else if i == n {
        res := Close(pipe0.1);
        res := Dup2(pipe0.0, STDIN);
        res := Close(pipe0.0);
      } else {
        res := Close(pipe0.1);
        res := Dup2(pipe0.0, STDIN);
        res := Close(pipe0.0);
        res := Close(pipe1.0);
        res := Dup2(pipe1.1, STDOUT);
        res := Close(pipe1.1);
      }
    }

    /** redirection, for a command with optional input and output files; false
        when open fails and the child exits. */
    method Redirect(input: Option, output: Option, opens: (bool, bool)) returns (ok: bool)
      requires fds.Length > 2 && fds[STDIN] != Closed && fds[STDOUT] != Closed
      modifies fds
      ensures ok ==> fds[..] == old(fds[..])[STDIN := if input.Some? then Opened(input.name, false) else old(fds[STDIN])]
                                            [STDOUT := if output.Some? then Opened(output.name, true) else old(fds[STDOUT])]
      ensures Free(old(fds[..])) > 0 && (input.Some? ==> opens.0) && (output.Some? ==> opens.1) ==> ok
    {
      ghost var t := fds[..];
      ok := true;
      if input.Some? {
        ok := RedirectTo(STDIN, Opened(input.name, false), opens.0);
        if !ok {
          return;
        }
        TotalUpdate(t, IsClosed, STDIN, Opened(input.name, false));
      }
      if output.Some? {
        ok := RedirectTo(STDOUT, Opened(output.name, true), opens.1);
      }
    }

    /** open, dup2 and close. */
    method RedirectTo(to: nat, f: File, opens: bool) returns (ok: bool)
      requires to < fds.Length && fds[to] != Closed && f != Closed
      modifies fds
      ensures ok ==> fds[..] == old(fds[..])[to := f]
      ensures !ok ==> fds[..] == old(fds[..])
      ensures Free(old(fds[..])) > 0 && opens ==> ok
    {
      var redir := Lookup();
      if redir < 0 || !opens {
        if redir < 0 {
          TotalZero(fds[..], IsClosed);
        }
        return false;
      }
      fds[redir] := f;
      var res := Dup2(redir, to);
      res := Close(redir);
      return true;
    }
  }

  /** The table during turn i: the base with the pipes that are open then. */
  function Wired(base: seq<File>, i: nat, n: nat, pipe0: (nat, nat), pipe1: (nat, nat)): seq<File>
    requires 1 <= i && (i > 1 ==> pipe0.0 < |base| && pipe0.1 < |base|)
    requires i < n ==> pipe1.0 < |base| && pipe1.1 < |base|
  {
    var t := if i > 1 then WithPipe(base, i - 2, pipe0.0, pipe0.1) else base;
    if i < n then WithPipe(t, i - 1, pipe1.0, pipe1.1) else t
  }

  /** The descriptors that the shell needs for its pipes. */
  function Needed(n: nat): nat {
    if n <= 1 then 0 else if n == 2 then 2 else 4
  }

  lemma WithPipeCounts(t: seq<File>, k: nat, r: nat, w: nat)
    requires TwoFree(t, r, w)
    ensures Free(WithPipe(t, k, r, w)) == Free(t) - 2 && PipeFds(WithPipe(t, k, r, w)) == PipeFds(t) + 2
    ensures Free(t) >= 2
  {
    var t1 := t[r := PipeEnd(k, false)];
    TotalUpdate(t, IsClosed, r, PipeEnd(k, false));
    TotalUpdate(t, IsPipe, r, PipeEnd(k, false));
    TotalUpdate(t1, IsClosed, w, PipeEnd(k, true));
    TotalUpdate(t1, IsPipe, w, PipeEnd(k, true));
    if r < w {
      TotalAtLeastTwo(t, IsClosed, r, w);
    } else {
      TotalAtLeastTwo(t, IsClosed, w, r);
    }
  }

  /** execute_pipeline for n commands, when the first `forks` calls of fork
      succeed: child i gets its standard input from pipe i - 1 and its output
      into pipe i, and no other pipe end; the shell never holds more than four
      of them, and ends with the table it began with, unless a fork fails. */
  method ExecutePipeline(shell: Process, n: nat, forks: nat) returns (children: seq<seq<File>>)
    requires ShellTable(shell.fds[..]) && Free(shell.fds[..]) >= Needed(n) && shell.peak == 0
    modifies shell`peak, shell.fds
    ensures |children| == if forks < n then forks else n
    ensures forall i :: 0 <= i < |children| ==> children[i] == ChildTable(old(shell.fds[..]), i, n)
    ensures shell.peak <= 4
    ensures shell.fds[..] == old(shell.fds[..]) <==> forks >= n || n == 1
  {
    hide ChildTable, ShellTable, Free, PipeFds;
    ghost var base := shell.fds[..];
    NoPipes(base);
    children := [];
    var pipe0, pipe1 := (0, 0), (0, 0);
    var i := 1;
    while i <= n
      invariant 1 <= i <= n + 1 && |children| == i - 1 && i - 1 <= forks && shell.peak <= 4
      invariant 1 < i <= n ==> TwoFree(base, pipe1.0, pipe1.1)
      invariant shell.fds[..] == if 1 < i <= n then WithPipe(base, i - 2, pipe1.0, pipe1.1) else base
      invariant forall k :: 0 <= k < |children| ==> children[k] == ChildTable(base, k, n)
    {
      if i > 1 {
        pipe0 := pipe1;
      }
      if i != n {
        pipe1 := NextPipe(shell, i, pipe0, base);
      }
      if |children| >= forks {
        Leaked(base, i, n, pipe0, pipe1);
        return;
      }
      var child := new Process(shell.fds[..]);
      if n > 1 {
        child.WireChild(i, n, pipe0, pipe1, base);
      }
      children := children + [child.fds[..]];
      if i > 1 {
        CloseBoth(shell, i, n, pipe0, pipe1, base);
      }
      i := i + 1;
    }
  }

  /** What each child writes the next one reads, from a pipe that nobody else
      writes to or reads from; the first one reads and the last one writes where
      the shell does, and no child has any other pipe end. */
  lemma ChildrenAreJoined(t: seq<File>, i: nat, n: nat)
    requires ShellTable(t) && i < n
    ensures var c := ChildTable(t, i, n);
            && |c| == |t| && (i == 0 ==> c[STDIN] == t[STDIN]) && (i == n - 1 ==> c[STDOUT] == t[STDOUT])
            && (i > 0 ==> c[STDIN].PipeEnd? && !c[STDIN].write)
            && (i + 1 < n ==> c[STDOUT].PipeEnd? && c[STDOUT].write && ChildTable(t, i + 1, n)[STDIN] == PipeEnd(c[STDOUT].k, false))
            && (forall fd :: STDOUT < fd < |t| ==> c[fd] == t[fd])
            && PipeFds(c) == (if i > 0 then 1 else 0) + (if i + 1 < n then 1 else 0)
    ensures forall j: nat, fd: nat, e: nat ::
              j < n && fd < |t| && e < |t| && (i != j || fd != e) && ChildTable(t, i, n)[fd].PipeEnd? ==>
              ChildTable(t, i, n)[fd] != ChildTable(t, j, n)[e]
  {
    hide PipeFds;
    NoPipes(t);
    var t1 := if i > 0 then t[STDIN := PipeEnd(i - 1, false)] else t;
    PutEnd(t, STDIN, PipeEnd(if i > 0 then i - 1 else 0, false));
    PutEnd(t1, STDOUT, PipeEnd(i, true));
  }

  lemma PutEnd(t: seq<File>, fd: nat, f: File)
    requires fd < |t| && !t[fd].PipeEnd? && f.PipeEnd?
    ensures PipeFds(t[fd := f]) == PipeFds(t) + 1
  {
    TotalUpdate(t, IsPipe, fd, f);
  }

  lemma NoPipes(t: seq<File>)
    requires ShellTable(t)
    ensures PipeFds(t) == 0 && |t| > 2 && ChildTable(t, 0, 1) == t
  {
    TotalZero(t, IsPipe);
  }

  /** pipe(pipe1), with the previous pipe still open. */
  method NextPipe(shell: Process, i: nat, pipe0: (nat, nat), ghost base: seq<File>) returns (pipe1: (nat, nat))
    requires ShellTable(base) && 1 <= i && Free(base) >= (if i > 1 then 4 else 2) && PipeFds(base) == 0 && shell.peak <= 4
    requires i > 1 ==> TwoFree(base, pipe0.0, pipe0.1)
    requires shell.fds[..] == if i > 1 then WithPipe(base, i - 2, pipe0.0, pipe0.1) else base
    modifies shell`peak, shell.fds
    ensures shell.peak <= 4 && TwoFree(base, pipe1.0, pipe1.1)
    ensures i > 1 ==> pipe1.0 != pipe0.0 && pipe1.0 != pipe0.1 && pipe1.1 != pipe0.0 && pipe1.1 != pipe0.1
    ensures shell.fds[..] == Wired(base, i, i + 1, pipe0, pipe1)
  {
    ghost var t := shell.fds[..];
    if i > 1 {
      WithPipeCounts(base, i - 2, pipe0.0, pipe0.1);
    }
    var r, w := shell.MakePipe(i - 1);
    WithPipeCounts(t, i - 1, r, w);
    pipe1 := (r, w);
  }

  /** The shell closes the pipe that the child before has written to. */
  method CloseBoth(shell: Process, i: nat, n: nat, pipe0: (nat, nat), pipe1: (nat, nat), ghost base: seq<File>)
    requires 1 < i <= n && ShellTable(base) && TwoFree(base, pipe0.0, pipe0.1)
    requires i < n ==> TwoFree(base, pipe1.0, pipe1.1)
    requires i < n ==> pipe1.0 != pipe0.0 && pipe1.0 != pipe0.1 && pipe1.1 != pipe0.0 && pipe1.1 != pipe0.1
    requires shell.fds[..] == Wired(base, i, n, pipe0, pipe1)
    modifies shell.fds
    ensures shell.fds[..] == if i < n then WithPipe(base, i - 1, pipe1.0, pipe1.1) else base
  {
    var res := shell.Close(pipe0.0);
    res := shell.Close(pipe0.1);
  }

  /** A pipe that is left open shows in the table. */
  lemma Leaked(base: seq<File>, i: nat, n: nat, pipe0: (nat, nat), pipe1: (nat, nat))
    requires 1 <= i <= n && (i > 1 ==> TwoFree(base, pipe0.0, pipe0.1)) && (i < n ==> TwoFree(base, pipe1.0, pipe1.1))
    requires 1 < i < n ==> pipe1.0 != pipe0.0 && pipe1.0 != pipe0.1 && pipe1.1 != pipe0.0 && pipe1.1 != pipe0.1
    ensures Wired(base, i, n, pipe0, pipe1) == base <==> n == 1
  {
    var t := Wired(base, i, n, pipe0, pipe1);
    if i < n {
      assert t[pipe1.0] == PipeEnd(i - 1, false);
    } else if i > 1 {
      assert t[pipe0.0] == PipeEnd(i - 2, false);
    }
  }
}
