// shell_core/shell_loop.c: hsh, the read-execute loop, with the prompt it prints, and
// the parent's side of fork_cmd (shell_core/command_executor.c), which it calls.
module ShellLoop {
  import opened Base
  import opened StringManipulation1
  import opened OutputBuffers
  import opened StringManipulation2
  import opened ErrorReporter
  import opened ErrorUtilities
  import opened ShellUtilities
  import opened ListOperations
  import opened VariableExpansion
  import opened CommandChaining
  import opened HistoryManager
  import opened InputReader
  import opened EnvManager
  import opened PathResolver
  import opened BuiltinExit
  import opened BuiltinManager
  import opened InfoSetup
  import opened StringConverters

  // ---------------------------------------------------------------- the prompt

  /** What follows the directory name in the prompt. */
  const PROMPT_SIGN: Str := "$ "

  /** The prompt when getcwd fails. */
  const FALLBACK_PROMPT: Str := "hsh$ "

  /**
   * The directory text of the prompt for the working directory c: the part after the
   * last '/' when something follows it; for a trailing '/' (c longer than "/"), the
   * part after the '/' before it, trailing '/' included, or all of c when there is no
   * earlier '/'; otherwise (no '/' at all, or c is "/") all of c.
   */
  function DirText(c: Str): Str {
    match LastIndexOf(c, '/')
    case None => c
    case Some(last) =>
      if last + 1 < |c| then c[last + 1..]
      else if |c| > 1 then
        match LastIndexOf(c[..|c| - 1], '/')
        case Some(prev) => c[prev + 1..]
        case None => c
      else c
  }

  /** What the prompt prints for the result of getcwd. */
  function PromptText(cwd: Option<Str>): Str {
    if cwd.None? then FALLBACK_PROMPT else DirText(cwd.value) + PROMPT_SIGN
  }

  /** The backward scan for the '/' before a trailing one, from index |c| - 2 down. */
  method PrevSlash(c: Str) returns (prev: Option<nat>)
    requires |c| >= 1
    ensures prev == LastIndexOf(c[..|c| - 1], '/')
  {
    var i := |c| - 2;
    while i >= 0
      invariant -1 <= i <= |c| - 2
      invariant forall k :: i < k < |c| - 1 ==> c[k] != '/'
      decreases i + 1
    {
      if c[i] == '/' {
        return Some(i);
      }
      i := i - 1;
    }
    return None;
  }

  /** The prompt hsh prints in interactive mode, as PromptText says. */
  method ShowPrompt(con: Console, cwd: Option<Str>)
    requires con.Valid() && (cwd.Some? ==> NoNul(cwd.value))
    modifies con.out, con.out.buf
    ensures con.Valid()
    ensures con.out.Emitted() == old(con.out.Emitted()) + PromptText(cwd)
  {
    if cwd.None? {
      assert NUL !in FALLBACK_PROMPT;
      CStrNoNul(FALLBACK_PROMPT);
      Puts(con, Some(FALLBACK_PROMPT));
      return;
    }
    ghost var o0 := con.out.Emitted();
    var shown := DirectoryText(cwd.value);
    CStrNoNul(shown);
    Puts(con, Some(shown));
    assert NUL !in PROMPT_SIGN;
    CStrNoNul(PROMPT_SIGN);
    Puts(con, Some(PROMPT_SIGN));
    AppendAssoc(o0, shown, PROMPT_SIGN);
  }

  /** The branches of the prompt that pick the directory text to print. */
  method DirectoryText(c: Str) returns (shown: Str)
    requires NoNul(c)
    ensures shown == DirText(c) && NoNul(shown)
  {
    var last := StrRChr(Some(c), '/');
    CStrNoNul(c);
    var from := 0;
    if last.Some? && At(c, last.value + 1) != NUL {
      from := last.value + 1;
    } else if last.Some? && At(c, last.value + 1) == NUL && |c| > 1 {
      var prev := PrevSlash(c);
      if prev.Some? {
        from := prev.value + 1;
      }
    }
    shown := c[from..];
    NoNulSuffix(c, from);
  }

  /** A C string's tails are C strings. */
  lemma NoNulSuffix(c: Str, a: nat)
    requires NoNul(c) && a <= |c|
    ensures NoNul(c[a..])
  {
    forall k | 0 <= k < |c[a..]| ensures c[a..][k] != NUL {
      assert c[a..][k] == c[a + k];
    }
  }

  /** The last c of a string ending in c + t, where t holds no c, is the one before t. */
  lemma {:induction false} LastIndexBeforeTail(d: Str, c: char, t: Str)
    requires c !in t
    ensures LastIndexOf(d + [c] + t, c) == Some(|d|)
  {
    var s := d + [c] + t;
    assert s[|d|] == c;
    forall k | |d| < k < |s| ensures s[k] != c {
      assert s[k] == t[k - |d| - 1];
    }
    var r := LastIndexOf(s, c);
    assert r.Some?;
    assert r.value <= |d|;
    assert r.value >= |d|;
  }

  /** In a directory d/name the prompt shows name. */
  lemma PromptNamesDirectory(d: Str, name: Str)
    requires name != [] && '/' !in name
    ensures PromptText(Some(d + "/" + name)) == name + PROMPT_SIGN
  {
    LastIndexBeforeTail(d, '/', name);
    var c := d + "/" + name;
    assert c[|d| + 1..] == name;
  }

  /** In the root directory the prompt is "/$ ". */
  lemma PromptAtRoot()
    ensures PromptText(Some("/")) == "/" + PROMPT_SIGN
  {
    LastIndexBeforeTail([], '/', []);
    assert [] + "/" + [] == "/";
  }

  /** A working directory without any '/' is shown whole. */
  lemma PromptWithoutSlash(c: Str)
    requires '/' !in c
    ensures PromptText(Some(c)) == c + PROMPT_SIGN
  {
    assert forall k :: 0 <= k < |c| ==> c[k] != '/';
  }

  /**
   * For a working directory that ends in '/', d/name/, the prompt shows the last
   * component with its trailing '/' still attached.
   */
  lemma PromptKeepsTrailingSlash(d: Str, name: Str)
    requires name != [] && '/' !in name
    ensures PromptText(Some(d + "/" + name + "/")) == name + "/" + PROMPT_SIGN
  {
    var p := d + ['/'] + name;
    var c := p + ['/'] + [];
    assert c == d + "/" + name + "/";
    LastIndexBeforeTail(p, '/', []);
    assert c[..|c| - 1] == p;
    LastIndexBeforeTail(d, '/', name);
    assert DirText(c) == c[|d| + 1..];
    assert c[|d| + 1..] == name + "/";
  }

  // ---------------------------------------------------------------- fork_cmd

  /** The message fork_cmd reports for a child that exited with 126. */
  const PERMISSION_MSG: Str := "Permission denied\n"

  /** The status wait() stores: a 16-bit value. */
  type WaitStatus = w: int | 0 <= w < 0x1_0000

  /** What one fork_cmd sees: fork() failing, or the status wait() reports for the child. */
  datatype Child = ForkFailed | Waited(wstatus: WaitStatus)

  /** WIFEXITED: the low seven bits are zero. */
  predicate ExitedNormally(w: WaitStatus) {
    w % 0x80 == 0
  }

  /** WEXITSTATUS: the second byte. */
  function ExitCodeOf(w: WaitStatus): int {
    (w / 0x100) % 0x100
  }

  /**
   * status after fork_cmd: unchanged when fork() fails; the exit code of a child that
   * exited; otherwise the raw wait status, which wait() has stored there.
   */
  function StatusAfter(status: int, c: Child): int {
    match c
    case ForkFailed => status
    case Waited(w) => if ExitedNormally(w) then ExitCodeOf(w) else w
  }

  /** The children the shell's fork() calls produce, in order; none left means fork fails. */
  class Processes {
    var children: seq<Child>

    constructor (children: seq<Child>)
      ensures this.children == children
    {
      this.children := children;
    }

    /** What the next fork_cmd sees. */
    function Next(): Child
      reads this
    {
      if children == [] then ForkFailed else children[0]
    }

    /** fork() and, in the parent, wait(). */
    method ForkAndWait() returns (c: Child)
      modifies this
      ensures c == old(Next())
      ensures children == if old(children) == [] then [] else old(children[1..])
    {
      if children == [] {
        return ForkFailed;
      }
      c := children[0];
      children := children[1..];
    }
  }

  /**
   * fork_cmd in the parent: status as StatusAfter says, and "Permission denied" on
   * standard error after a child that exited with 126.
   */
  method ForkCmd(info: Info, con: Console, procs: Processes)
    requires con.Valid() && |info.argv| > 0
    modifies info`status, procs, con.out, con.out.buf, con.err, con.err.buf
    ensures con.Valid() && con.out.Emitted() == old(con.out.Emitted())
    ensures info.status == old(info.status) || 0 <= info.status < 0x1_0000
    ensures var c := old(procs.Next());
            && info.status == StatusAfter(old(info.status), c)
            && con.err.Emitted() == old(con.err.Emitted())
                 + (if info.status == 126 && c.Waited? && ExitedNormally(c.wstatus)
                    then ErrorLine(info.fname, info.line_count, info.argv[0], Some(PERMISSION_MSG))
                    else [])
  {
    var c := procs.ForkAndWait();
    if c.ForkFailed? {
      return;
    }
    info.status := c.wstatus;
    if ExitedNormally(c.wstatus) {
      info.status := ExitCodeOf(c.wstatus);
      if info.status == 126 {
        PrintError(con, info, Some(PERMISSION_MSG));
      }
    }
  }

  /** A child that calls exit(n) leaves n in status: WEXITSTATUS undoes the wait encoding. */
  lemma ExitCodeRoundTrip(status: int, n: int)
    requires 0 <= n < 0x100
    ensures ExitedNormally(n * 0x100) && StatusAfter(status, Waited(n * 0x100)) == n
  {
    assert (n * 0x100) % 0x80 == 0 by {
      assert n * 0x100 == (n * 2) * 0x80;
    }
    assert (n * 0x100) / 0x100 == n;
  }

  /**
   * A child killed by signal sig leaves the raw wait status in status: sig itself, not
   * 128 + sig, or sig + 128 when the child dumped core (the 0x80 bit of the status).
   */
  lemma SignalledChildStatus(status: int, sig: int, core: bool)
    requires 1 <= sig < 0x80
    ensures var w := if core then sig + 0x80 else sig;
            !ExitedNormally(w) && StatusAfter(status, Waited(w)) == w
  {
  }

  // ---------------------------------------------------------------- exit codes

  /** How hsh ends: exit(code), returning a value, or an undefined end. */
  datatype Outcome =
    | Exited(code: int)   // exit() is called with code
    | Returned(value: int) // hsh returns value
    | Undefined           // the C program has no defined behaviour from here on

  /**
   * The end of hsh after the loop: a non-interactive shell with a nonzero status exits
   * with it; otherwise after an exit built-in (-2) the shell exits with the built-in's
   * code, or with status when the code is -1; otherwise hsh returns builtin_ret.
   */
  function Ending(interactive: bool, status: int, builtinRet: int, errNum: int): Outcome {
    if !interactive && status != 0 then Exited(status)
    else if builtinRet == -2 then Exited(if errNum == -1 then status else errNum)
    else Returned(builtinRet)
  }

  /**
   * `exit` with no argument exits with the status of the command before it; `exit n`
   * exits with n, except that a non-interactive shell whose status is nonzero exits
   * with that status instead.
   */
  lemma ExitBuiltinCode(interactive: bool, status: int, argv: seq<seq<char>>)
    requires ExitDecision(argv).ExitWith?
    ensures var code := ExitDecision(argv).code;
            Ending(interactive, status, -2, code)
              == Exited(if (!interactive && status != 0) || |argv| <= 1 then status else code)
  {
  }

  /** In a script, `exit 5` after a failing command exits with the failure's status. */
  lemma ScriptExitAfterFailure(cmd: seq<char>, n: int, status: int)
    requires 0 <= n <= INT_MAX && status != 0
    ensures var argv := [cmd, NumberText(n, 10, 0)];
            && ExitDecision(argv) == ExitWith(n)
            && Ending(false, status, -2, ExitDecision(argv).code) == Exited(status)
            && Ending(true, status, -2, ExitDecision(argv).code) == Exited(n)
  {
    ExitWithNumber(cmd, n, []);
    assert [cmd, NumberText(n, 10, 0)] + [] == [cmd, NumberText(n, 10, 0)];
  }

  // ---------------------------------------------------------------- the loop

  /** What find_builtin answers for argv: -1 when argv[0] names no built-in. */
  function BuiltinAnswer(argv: seq<seq<char>>, env: seq<Node>, help: int): int
    requires |argv| >= 1
  {
    var k := BuiltinIndex(TABLE, argv[0], 0);
    if k.None? then -1 else BuiltinResult(TABLE[k.value].func, argv, |argv|, env, help)
  }

  /**
   * The command line arg, prepared as argv, reaches behaviour C leaves undefined: the
   * built-in argv[0] names faults, or no built-in answers (-1) and find_path reaches a
   * PATH entry too long for its buffer.
   */
  predicate CommandCrashes(arg: Str, argv: seq<seq<char>>, env: seq<Node>, aliases: seq<Node>,
                           history: seq<Node>, regular: set<Str>, help: int)
    requires |argv| >= 1
  {
    var k := BuiltinIndex(TABLE, argv[0], 0);
    if k.Some? && HandlerFaults(TABLE[k.value].func, argv, |argv|, env, aliases, history) then true
    else BuiltinAnswer(argv, env, help) == -1 && CmdOverruns(arg, argv[0], env, regular)
  }

  /** Of the built-ins, only help can answer -1, as no built-in found does. */
  lemma OnlyHelpAnswersNone(argv: seq<seq<char>>, env: seq<Node>, help: int)
    requires |argv| >= 1
    ensures var k := BuiltinIndex(TABLE, argv[0], 0);
            BuiltinAnswer(argv, env, help) == -1 ==> k.None? || TABLE[k.value].func == HelpH
  {
    TableShape();
    BuiltinNames(argv[0]);
  }

  /** The state a turn of hsh dispatches a command from. */
  datatype Turn = Turn(arg: Str, aliases: seq<Node>, history: seq<Node>, status: int, env: seq<Node>)

  /** The command of turn t, prepared with the shell's pid, reaches undefined behaviour. */
  predicate TurnCrashes(t: Turn, pid: int, regular: set<Str>, help: int) {
    && INT_MIN <= t.status <= INT_MAX && INT_MIN <= pid <= INT_MAX
    && CommandCrashes(t.arg, Prepared(t.arg, t.aliases, t.status, pid, t.env), t.env, t.aliases,
                      t.history, regular, help)
  }

  /**
   * The end of one cycle of hsh with input: set_info, find_builtin and, when no
   * built-in answered (-1), find_cmd and then fork_cmd, which runs whenever find_cmd
   * leaves a path, as it always does. `crashed` reports a handler or find_cmd reaching
   * behaviour C leaves undefined. `forked` tells whether fork_cmd ran.
   */
  method Execute(info: Info, con: Console, pb: PathBuffer, procs: Processes, av0: Str,
                 tty: bool, pid: int, regular: set<Str>, help: int)
      returns (ret: int, crashed: bool, ghost forked: bool)
    requires info.Valid() && con.Valid() && pb.Valid() && info.arg.Some? && info.readfd == 0
    requires INT_MIN <= info.status <= INT_MAX && INT_MIN <= pid <= INT_MAX
    requires pb.buf != con.out.buf && pb.buf != con.err.buf
    modifies info`fname, info`argv, info`argc, info`line_count, info`status, info`err_num
    modifies info`env_changed, info`path, info`linecount_flag
    modifies info.env, info.alias, con.out, con.out.buf, con.err, con.err.buf, pb.buf, procs
    ensures con.Valid() && INT_MIN <= info.status <= INT_MAX && info.fname == av0
    ensures var argv := Prepared(old(info.arg.value), old(info.alias.nodes), old(info.status), pid, old(info.env.nodes));
            var k := BuiltinIndex(TABLE, argv[0], 0);
            && (crashed <==> CommandCrashes(old(info.arg.value), argv, old(info.env.nodes), old(info.alias.nodes),
                                            old(info.history.nodes), regular, help))
            && (!crashed ==> ret == BuiltinAnswer(argv, old(info.env.nodes), help))
            && (!crashed && k.Some? && TABLE[k.value].func == ExitH && ret == -2 ==>
                  info.err_num == ExitDecision(argv).code)
    ensures forked <==> !crashed && ret == -1
  {
    ghost var argv := Prepared(info.arg.value, info.alias.nodes, info.status, pid, info.env.nodes);
    SetInfo(info, av0, pid);
    assert info.argv == argv;
    ret, crashed, forked := Dispatch(info, con, pb, procs, regular, tty, help);
  }

  /**
   * find_builtin on the prepared argv, then, when it answers -1, find_cmd and fork_cmd.
   */
  method Dispatch(info: Info, con: Console, pb: PathBuffer, procs: Processes, regular: set<Str>,
                  tty: bool, help: int)
      returns (ret: int, crashed: bool, ghost forked: bool)
    requires info.Valid() && con.Valid() && pb.Valid() && info.arg.Some? && |info.argv| >= 1
    requires info.argc == |info.argv| && INT_MIN <= info.status <= INT_MAX
    requires pb.buf != con.out.buf && pb.buf != con.err.buf
    modifies info`argv, info`line_count, info`status, info`err_num
    modifies info`env_changed, info`path, info`linecount_flag
    modifies info.env, info.alias, con.out, con.out.buf, con.err, con.err.buf, pb.buf, procs
    ensures con.Valid() && INT_MIN <= info.status <= INT_MAX
    ensures var k := BuiltinIndex(TABLE, old(info.argv[0]), 0);
            && (crashed <==> CommandCrashes(old(info.arg.value), old(info.argv), old(info.env.nodes),
                                            old(info.alias.nodes), old(info.history.nodes), regular, help))
            && (!crashed ==> ret == BuiltinAnswer(old(info.argv), old(info.env.nodes), help))
            && (!crashed && k.Some? && TABLE[k.value].func == ExitH && ret == -2 ==>
                  info.err_num == ExitDecision(old(info.argv)).code)
    ensures forked <==> !crashed && ret == -1
  {
    ghost var status0, argv, env := info.status, info.argv, info.env.nodes;
    ghost var arg, aliases, history := info.arg.value, info.alias.nodes, info.history.nodes;
    ghost var k := BuiltinIndex(TABLE, argv[0], 0);
    ghost var answer := BuiltinAnswer(argv, env, help);
    forked := false;
    ret, crashed := FindBuiltin(info, con, help);
    assert info.status == status0 || info.status == 2;
    assert crashed <==> k.Some? && HandlerFaults(TABLE[k.value].func, argv, |argv|, env, aliases, history);
    assert !crashed ==> ret == answer;
    if !crashed && ret == -1 {
      OnlyHelpAnswersNone(argv, env, help);
      assert info.argv == argv && info.env.nodes == env;
      crashed, forked := RunExternal(info, con, pb, procs, regular, tty);
      assert crashed == CmdOverruns(arg, argv[0], env, regular);
    }
    assert crashed == CommandCrashes(arg, argv, env, aliases, history, regular, help);
  }

  /**
   * find_cmd, then fork_cmd whenever find_cmd leaves a path, which it always does;
   * `crashed` reports a PATH entry too long for find_path's buffer.
   */
  method RunExternal(info: Info, con: Console, pb: PathBuffer, procs: Processes, regular: set<Str>, tty: bool)
      returns (crashed: bool, ghost forked: bool)
    requires con.Valid() && pb.Valid() && |info.argv| >= 1 && info.arg.Some?
    requires pb.buf != con.out.buf && pb.buf != con.err.buf
    requires INT_MIN <= info.status <= INT_MAX
    modifies info`path, info`line_count, info`linecount_flag, info`status, pb.buf, procs
    modifies con.out, con.out.buf, con.err, con.err.buf
    ensures con.Valid() && INT_MIN <= info.status <= INT_MAX
    ensures forked <==> !crashed
    ensures crashed == CmdOverruns(old(info.arg.value), old(info.argv[0]), old(info.env.nodes), regular)
    ensures crashed ==> info.status == old(info.status) && procs.children == old(procs.children)
    ensures !crashed ==>
              var v := Resolve(old(info.arg.value), old(info.argv[0]), old(info.env.nodes), regular,
                               old(IsInteractive(info, tty)));
              && info.path == Some(if v.Found? then v.path else CStr(info.argv[0]))
              && info.status == StatusAfter(if v.NotFound? then 127 else old(info.status), old(procs.Next()))
  {
    var overflow, v := FindCmd(info, con, pb, regular, tty);
    assert info.status == 127 || info.status == old(info.status);
    if overflow {
      return true, false;
    }
    if info.path.Some? {
      ForkCmd(info, con, procs);
      return false, true;
    }
    assert false;
  }

  /**
   * free(info->arg) in free_info when cmd_buf is NULL hands free a pointer into the
   * middle of a block, which is undefined: arg is a command get_input handed out from
   * position arg_at > 0 of the chain buffer.
   */
  predicate FreesInterior(info: Info)
    reads info`cmd_buf, info`arg, info`arg_at
  {
    !info.cmd_buf && info.arg.Some? && info.arg_at > 0
  }

  /**
   * free_info: argv and path are dropped; with all, arg is freed when cmd_buf is NULL
   * (crashed when that is not the start of a block), then the three lists are freed,
   * environ goes back to NULL and standard output is flushed.
   */
  method FreeInfo(info: Info, con: Console, all: bool) returns (crashed: bool)
    requires info.Valid() && con.Valid()
    modifies info`argv, info`path, info`environ, info.env, info.history, info.alias, con.out, con.out.buf
    ensures con.Valid() && info.argv == [] && info.path == None
    ensures con.out.Emitted() == old(con.out.Emitted())
    ensures crashed == (all && FreesInterior(info))
    ensures !all ==> unchanged(info.env, info.history, info.alias, con.out, con.out.buf) && info.environ == old(info.environ)
    ensures all && !crashed ==>
              && info.env.nodes == [] && info.history.nodes == [] && info.alias.nodes == []
              && info.environ == None && con.out.Pending() == []
  {
    info.argv := [];
    info.path := None;
    crashed := false;
    if all {
      if FreesInterior(info) {
        return true;
      }
      FreeList(info.env);
      FreeList(info.history);
      FreeList(info.alias);
      info.environ := None;
      var _ := PutChar(con, Flush);
    }
  }

  /**
   * hsh: cycles until get_input reports the end of input (-1) or a built-in asks to
   * exit (-2). Each cycle clears the command fields, prints the prompt when
   * interactive, flushes standard error, reads the next command and dispatches it;
   * at the end of input an interactive shell prints a newline. Then the history is
   * written, everything is freed and the end is as Ending says. Undefined ends hsh in
   * two ways: a turn whose command meets TurnCrashes (`last` is that turn), or an exit
   * built-in (-2) whose turn began with a chain pending (midLine), whose arg free_info
   * then frees from inside the chain buffer. The working
   * directory, the terminal test, the pid, the regular files, the value of help and
   * the result of opening the history file are fixed inputs.
   */
  method Hsh(info: Info, con: Console, reader: LineReader, src: Source, pb: PathBuffer, procs: Processes,
             av0: Str, tty: bool, pid: int, cwd: Option<Str>, regular: set<Str>, help: int, openFd: int)
      returns (o: Outcome, r: int, builtinRet: int, ghost last: Turn, ghost midLine: bool)
    requires info.Valid() && con.Valid() && reader.Valid() && pb.Valid()
    requires reader.cbuf == null
    requires reader.rbuf != con.out.buf && reader.rbuf != con.err.buf && reader.rbuf != con.fdw.buf
    requires reader.rbuf != pb.buf && pb.buf != con.out.buf && pb.buf != con.err.buf
    requires INT_MIN <= info.status <= INT_MAX && INT_MIN <= pid <= INT_MAX
    requires cwd.Some? ==> NoNul(cwd.value)
    modifies info, info.env, info.history, info.alias, con.out, con.out.buf, con.err, con.err.buf
    modifies con.fdw, con.fdw.buf, reader, reader.rbuf, src, pb.buf, procs
    ensures con.Valid()
    ensures !o.Undefined? ==>
              && (r == -1 || builtinRet == -2)
              && o == Ending(tty, info.status, builtinRet, info.err_num)
              && con.out.Pending() == []
    ensures o.Undefined? ==> r != -1 && info.arg == Some(last.arg)
    ensures o.Undefined? <==> r != -1 && (TurnCrashes(last, pid, regular, help) || (builtinRet == -2 && midLine))
  {
    r, builtinRet := 0, 0;
    last, midLine := Turn([], [], [], 0, []), false;
    ghost var cycles := 0;
    while r != -1 && builtinRet != -2
      invariant info.Valid() && con.Valid() && reader.Valid() && pb.Valid()
      invariant reader.cbuf == null || fresh(reader.cbuf)
      invariant INT_MIN <= info.status <= INT_MAX
      invariant cycles == 0 ==> r == 0 && builtinRet == 0
      invariant cycles > 0 ==> info.readfd == 0
      invariant cycles > 0 && r != -1 ==>
                  && !TurnCrashes(last, pid, regular, help) && info.arg == Some(last.arg)
                  && (FreesInterior(info) <==> midLine)
      invariant r == -1 ==> !FreesInterior(info)
      decreases if r == -1 || builtinRet == -2 then 0 else 1,
                src.Remaining(0), reader.ReadRank(), reader.ChainRank()
    {
      var crashed;
      r, builtinRet, crashed, last, midLine := Cycle(info, con, reader, src, pb, procs, av0, tty, pid, cwd, regular, help, builtinRet);
      if crashed {
        return Undefined, r, builtinRet, last, midLine;
      }
      cycles := cycles + 1;
    }
    o := Finish(info, con, tty, openFd, builtinRet);
  }

  /**
   * The end of hsh after the loop: write_history, free_info with all set, then the
   * exit or return Ending describes, with readfd 0 making interactivity the terminal
   * test alone; Undefined when free_info frees arg from inside a block.
   */
  method Finish(info: Info, con: Console, tty: bool, openFd: int, builtinRet: int) returns (o: Outcome)
    requires info.Valid() && con.Valid() && info.readfd == 0
    modifies info`argv, info`path, info`environ, info.env, info.history, info.alias
    modifies con.out, con.out.buf, con.fdw, con.fdw.buf
    ensures con.Valid()
    ensures o == if old(FreesInterior(info)) then Undefined else Ending(tty, info.status, builtinRet, info.err_num)
    ensures !o.Undefined? ==> con.out.Pending() == []
  {
    var _ := WriteHistory(info, con, openFd);
    var crashed := FreeInfo(info, con, true);
    o := if crashed then Undefined else Ending(IsInteractive(info, tty), info.status, builtinRet, info.err_num);
  }

  /**
   * One turn of hsh's loop: clear_info; the prompt when interactive; standard error
   * flushed; get_input; then, for a command, set_info and the dispatch (which may
   * crash), or, at the end of input, a newline when interactive, builtin_ret keeping
   * its value; free_info. A command consumes input or moves along the line.
   */
  method Cycle(info: Info, con: Console, reader: LineReader, src: Source, pb: PathBuffer, procs: Processes,
               av0: Str, tty: bool, pid: int, cwd: Option<Str>, regular: set<Str>, help: int, ret0: int)
      returns (r: int, ret: int, crashed: bool, ghost turn: Turn, ghost chained: bool)
    requires info.Valid() && con.Valid() && reader.Valid() && pb.Valid()
    requires reader.rbuf != con.out.buf && reader.rbuf != con.err.buf && reader.rbuf != pb.buf
    requires reader.cbuf != con.out.buf && reader.cbuf != con.err.buf && reader.cbuf != pb.buf
    requires pb.buf != con.out.buf && pb.buf != con.err.buf
    requires INT_MIN <= info.status <= INT_MAX && INT_MIN <= pid <= INT_MAX
    requires cwd.Some? ==> NoNul(cwd.value)
    modifies info, info.env, info.history, info.alias, con.out, con.out.buf, con.err, con.err.buf
    modifies reader, reader.rbuf, if reader.cbuf == null then {} else {reader.cbuf}, src, pb.buf, procs
    ensures info.Valid() && con.Valid() && reader.Valid()
    ensures reader.cbuf == old(reader.cbuf) || reader.cbuf == null || fresh(reader.cbuf)
    ensures INT_MIN <= info.status <= INT_MAX && info.readfd == 0
    ensures chained == (old(reader.ci) > 0)
    ensures r == -1 ==> ret == ret0 && !crashed
    ensures FreesInterior(info) == (r != -1 && chained)
    ensures r != -1 ==> info.arg == Some(turn.arg) && (crashed <==> TurnCrashes(turn, pid, regular, help))
    ensures r != -1 && !crashed ==>
              Below3(src.Remaining(0), reader.ReadRank(), reader.ChainRank(),
                     old(src.Remaining(0)), old(reader.ReadRank()), old(reader.ChainRank()))
  {
    r, chained := ReadTurn(info, con, reader, src, tty, cwd);
    ret, crashed, turn := ActStep(info, con, pb, procs, av0, tty, pid, regular, help, r, ret0);
  }

  /** The first half of a turn: the start of a turn, then the next command read. */
  method ReadTurn(info: Info, con: Console, reader: LineReader, src: Source, tty: bool, cwd: Option<Str>)
      returns (r: int, ghost chained: bool)
    requires info.Valid() && con.Valid() && reader.Valid()
    requires reader.rbuf != con.out.buf && reader.rbuf != con.err.buf
    requires reader.cbuf != con.out.buf && reader.cbuf != con.err.buf
    requires cwd.Some? ==> NoNul(cwd.value)
    modifies info`arg, info`arg_at, info`argv, info`path, info`argc, info`cmd_buf, info`cmd_buf_type
    modifies info`readfd, info`linecount_flag, info`err_num, info`histcount, info.history
    modifies con.out, con.out.buf, con.err, con.err.buf
    modifies reader, reader.rbuf, if reader.cbuf == null then {} else {reader.cbuf}, src
    ensures info.Valid() && con.Valid() && reader.Valid() && info.readfd == 0
    ensures reader.cbuf == old(reader.cbuf) || reader.cbuf == null || fresh(reader.cbuf)
    ensures chained == (old(reader.ci) > 0)
    ensures FreesInterior(info) == (r != -1 && chained)
    ensures r != -1 ==>
              && info.arg.Some?
              && Below3(src.Remaining(0), reader.ReadRank(), reader.ChainRank(),
                        old(src.Remaining(0)), old(reader.ReadRank()), old(reader.ChainRank()))
  {
    chained := reader.ci > 0;
    Prelude(info, con, tty, cwd);
    r := NextInput(info, con, reader, src);
  }

  /**
   * The start of a turn: clear_info, the prompt when standard input is a terminal,
   * and standard error flushed.
   */
  method Prelude(info: Info, con: Console, tty: bool, cwd: Option<Str>)
    requires con.Valid() && (cwd.Some? ==> NoNul(cwd.value))
    modifies info`arg, info`arg_at, info`argv, info`path, info`argc, info`cmd_buf, info`cmd_buf_type
    modifies info`readfd, info`linecount_flag, info`err_num
    modifies con.out, con.out.buf, con.err, con.err.buf
    ensures con.Valid() && info.readfd == 0 && info.cmd_buf_type == CMD_NORM
    ensures info.arg == None && !info.cmd_buf
    ensures con.out.Emitted() == old(con.out.Emitted()) + (if tty then PromptText(cwd) else [])
  {
    ClearInfo(info);
    if IsInteractive(info, tty) {
      ShowPrompt(con, cwd);
    }
    var _ := EPutChar(con, Flush);
  }

  /**
   * get_input as the loop relies on it: the descriptor and the writers stay valid,
   * nothing reaches standard output but a flush, and a call that does not report the
   * end of input (-1) leaves a command in arg and consumes input or moves along the
   * line.
   */
  method NextInput(info: Info, con: Console, reader: LineReader, src: Source) returns (r: int)
    requires info.Valid() && con.Valid() && reader.Valid()
    requires reader.rbuf != con.out.buf && reader.cbuf != con.out.buf
    modifies info`arg, info`arg_at, info`linecount_flag, info`histcount, info`cmd_buf, info`cmd_buf_type, info.history
    modifies con.out, con.out.buf
    modifies reader, reader.rbuf, if reader.cbuf == null then {} else {reader.cbuf}, src
    ensures info.Valid() && con.Valid() && reader.Valid()
    ensures reader.cbuf == old(reader.cbuf) || reader.cbuf == null || fresh(reader.cbuf)
    ensures info.readfd == old(info.readfd) && con.out.Emitted() == old(con.out.Emitted())
    ensures r == -1 ==> info.arg == old(info.arg)
    ensures r != -1 ==>
              info.arg_at == old(reader.ci) && (old(reader.ci) > 0 ==> info.cmd_buf == old(info.cmd_buf))
    ensures r != -1 ==>
              && info.arg.Some?
              && Below3(src.Remaining(info.readfd), reader.ReadRank(), reader.ChainRank(),
                        old(src.Remaining(info.readfd)), old(reader.ReadRank()), old(reader.ChainRank()))
  {
    ghost var s, got;
    r, s, got := reader.GetInput(info, src, con);
  }

  /**
   * The second half of a turn: the command is prepared and dispatched, or, at the end
   * of input, an interactive shell prints a newline and builtin_ret keeps its value;
   * then free_info without all.
   */
  method ActStep(info: Info, con: Console, pb: PathBuffer, procs: Processes, av0: Str, tty: bool, pid: int,
                 regular: set<Str>, help: int, r: int, ret0: int)
      returns (ret: int, crashed: bool, ghost t: Turn)
    requires info.Valid() && con.Valid() && pb.Valid() && info.readfd == 0
    requires r != -1 ==> info.arg.Some?
    requires pb.buf != con.out.buf && pb.buf != con.err.buf
    requires INT_MIN <= info.status <= INT_MAX && INT_MIN <= pid <= INT_MAX
    modifies info`fname, info`argv, info`argc, info`line_count, info`status, info`err_num
    modifies info`env_changed, info`path, info`linecount_flag, info`environ
    modifies info.env, info.history, info.alias, con.out, con.out.buf, con.err, con.err.buf, pb.buf, procs
    ensures con.Valid() && INT_MIN <= info.status <= INT_MAX
    ensures r == -1 ==>
              && ret == ret0 && !crashed && info.arg == old(info.arg)
              && con.out.Emitted() == old(con.out.Emitted()) + (if tty then "\n" else [])
    ensures r != -1 ==>
              && t == Turn(old(info.arg.value), old(info.alias.nodes), old(info.history.nodes), old(info.status),
                           old(info.env.nodes))
              && info.arg == Some(t.arg) && info.arg_at == old(info.arg_at) && info.cmd_buf == old(info.cmd_buf)
              && (crashed <==> TurnCrashes(t, pid, regular, help))
              && (!crashed ==>
                    && ret == BuiltinAnswer(Prepared(t.arg, t.aliases, t.status, pid, t.env), t.env, help)
                    && info.argv == [] && info.path == None)
  {
    if r != -1 {
      ret, crashed, t := RunCommand(info, con, pb, procs, av0, tty, pid, regular, help);
      if !crashed {
        var _ := FreeInfo(info, con, false);
      }
    } else {
      ret, crashed, t := ret0, false, Turn([], [], [], 0, []);
      if IsInteractive(info, tty) {
        var _ := PutChar(con, Ch('\n'));
      }
      var _ := FreeInfo(info, con, false);
    }
  }

  /**
   * A turn with a command: set_info and the dispatch, which keep arg and cmd_buf. `t`
   * is the turn the command was read in.
   */
  method RunCommand(info: Info, con: Console, pb: PathBuffer, procs: Processes, av0: Str, tty: bool, pid: int,
                    regular: set<Str>, help: int)
      returns (ret: int, crashed: bool, ghost t: Turn)
    requires info.Valid() && con.Valid() && pb.Valid() && info.readfd == 0 && info.arg.Some?
    requires pb.buf != con.out.buf && pb.buf != con.err.buf
    requires INT_MIN <= info.status <= INT_MAX && INT_MIN <= pid <= INT_MAX
    modifies info`fname, info`argv, info`argc, info`line_count, info`status, info`err_num
    modifies info`env_changed, info`path, info`linecount_flag, info`environ
    modifies info.env, info.history, info.alias, con.out, con.out.buf, con.err, con.err.buf, pb.buf, procs
    ensures con.Valid() && INT_MIN <= info.status <= INT_MAX
    ensures t == Turn(old(info.arg.value), old(info.alias.nodes), old(info.history.nodes), old(info.status),
                      old(info.env.nodes))
    ensures info.arg == Some(t.arg) && info.arg_at == old(info.arg_at) && info.cmd_buf == old(info.cmd_buf)
    ensures crashed <==> TurnCrashes(t, pid, regular, help)
    ensures !crashed ==>
              && ret == BuiltinAnswer(Prepared(t.arg, t.aliases, t.status, pid, t.env), t.env, help)
  {
    t := Turn(info.arg.value, info.alias.nodes, info.history.nodes, info.status, info.env.nodes);
    ghost var forked;
    ret, crashed, forked := Execute(info, con, pb, procs, av0, tty, pid, regular, help);
  }

  /**
   * && and || never skip a command in hsh: clear_info resets cmd_buf_type to CMD_NORM
   * before every get_input, so the chain step hands out the next segment in full
   * whatever the status of the command before it.
   */
  lemma ChainNeverSkipsInLoop(s: seq<char>, i: nat, len: nat, status: int)
    requires i < len < |s| && s[len] == NUL
    ensures Chain(s, i, len, CMD_NORM, status) == Chain(s, i, len, CMD_NORM, 0)
    ensures var c := Chain(s, i, len, CMD_NORM, status);
            CStr(c.mem[i..]) == CStr(s[i..NextDelim(s, i, len)])
  {
    ChainCommand(s, i, len, CMD_NORM, status);
  }
}
