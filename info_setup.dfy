// shell_core/shell_utilities.c, second part: clear_info, which resets the per-command
// fields of info_t at the start of every cycle, and set_info, which splits the command
// line into argv and expands aliases and variables in it.
module InfoSetup {
  import opened Base
  import opened StringManipulation1
  import opened ShellUtilities
  import opened StringTokenization
  import opened VariableExpansion
  import opened StringConverters

  /** The delimiters set_info splits a command line on: space and tab. */
  const TOKEN_DELIMS: Str := " \t"

  /**
   * clear_info: the per-command fields go back to NULL, 0 or CMD_NORM, and readfd to
   * standard input, whatever descriptor it held; fname, status, the history count, the
   * lists and the rest are kept. With readfd 0 the shell is interactive exactly when
   * standard input is a terminal.
   */
  method ClearInfo(info: Info)
    modifies info`arg, info`arg_at, info`argv, info`path, info`argc, info`cmd_buf, info`cmd_buf_type
    modifies info`readfd, info`linecount_flag, info`err_num
    ensures info.arg == None && info.arg_at == 0 && info.argv == [] && info.path == None && info.argc == 0
    ensures !info.cmd_buf && info.cmd_buf_type == CMD_NORM && info.readfd == 0
    ensures info.linecount_flag == 0 && info.err_num == 0
    ensures forall tty: bool :: IsInteractive(info, tty) == tty
  {
    info.arg := None;
    info.arg_at := 0;
    info.argv := [];
    info.path := None;
    info.argc := 0;
    info.cmd_buf := false;
    info.cmd_buf_type := CMD_NORM;
    info.readfd := 0;
    info.linecount_flag := 0;
    info.err_num := 0;
  }

  /**
   * The argv set_info builds from the line arg before expansion: the words strtow finds
   * between spaces and tabs, or, when it finds none, a single copy of the line.
   */
  function Tokens(arg: seq<char>): (ts: seq<Str>)
    ensures |ts| >= 1
  {
    match StrTowSpec(Some(arg), Some(TOKEN_DELIMS))
    case Some(ws) => ws
    case None => [CStr(arg)]
  }

  /**
   * The tokens of a line are its words, which spell out its characters other than
   * spaces and tabs, in order; a line with no such character becomes one token, the
   * line itself (empty or all blanks).
   */
  lemma TokensMeaning(arg: seq<char>)
    ensures var s := CStr(arg);
            && (Kept(s, TOKEN_DELIMS, 0) == [] ==> Tokens(arg) == [s])
            && (Kept(s, TOKEN_DELIMS, 0) != [] ==>
                  && Flatten(Tokens(arg)) == Kept(s, TOKEN_DELIMS, 0)
                  && forall j :: 0 <= j < |Tokens(arg)| ==> IsWord(Tokens(arg)[j], TOKEN_DELIMS))
  {
    assert NUL !in TOKEN_DELIMS;
    CStrNoNul(TOKEN_DELIMS);
    assert CStr(DelimMemory(Some(TOKEN_DELIMS))) == TOKEN_DELIMS;
    StrTowWords(Some(arg), Some(TOKEN_DELIMS));
    var r := StrTowSpec(Some(arg), Some(TOKEN_DELIMS));
    if r.Some? {
      FlattenNonEmpty(r.value, TOKEN_DELIMS);
    }
  }

  /** Words are nonempty, so a nonempty list of them spells out something. */
  lemma FlattenNonEmpty(ws: seq<Str>, delims: Str)
    requires |ws| >= 1 && IsWord(ws[0], delims)
    ensures Flatten(ws) != []
  {
    FlattenCons(ws[0], ws[1..]);
    assert [ws[0]] + ws[1..] == ws;
  }

  /**
   * The argv set_info leaves for the line arg: the tokens, the first replaced as
   * replace_alias does, then every one expanded as replace_vars does.
   */
  function Prepared(arg: seq<char>, aliases: seq<Node>, status: int, pid: int, env: seq<Node>): seq<seq<char>>
    requires INT_MIN <= status <= INT_MAX && INT_MIN <= pid <= INT_MAX
  {
    var ts := Tokens(arg);
    var ws := ts[0 := Rounds(aliases, ts[0], MAX_ROUNDS).0];
    seq(|ws|, i requires 0 <= i < |ws| => Expanded(ws[i], status, pid, env))
  }

  /**
   * set_info: fname becomes the program name; with a line in arg, argv is built from
   * it, argc counts it, and aliases, then variables, are expanded. Without a line
   * nothing else changes.
   */
  method SetInfo(info: Info, av0: Str, pid: int)
    requires INT_MIN <= info.status <= INT_MAX && INT_MIN <= pid <= INT_MAX
    modifies info`fname, info`argv, info`argc
    ensures info.fname == av0
    ensures old(info.arg).None? ==> info.argv == old(info.argv) && info.argc == old(info.argc)
    ensures old(info.arg).Some? ==>
              && info.argv == Prepared(info.arg.value, info.alias.nodes, info.status, pid, info.env.nodes)
              && info.argc == |info.argv| >= 1
  {
    info.fname := av0;
    if info.arg.None? {
      return;
    }
    var words := StrTow(info.arg, Some(TOKEN_DELIMS));
    if words.None? {
      info.argv := [CStr(info.arg.value)];
    } else {
      info.argv := words.value;
    }
    assert info.argv == Tokens(info.arg.value);
    var i := 0;
    while i < |info.argv|
      invariant 0 <= i <= |info.argv|
    {
      i := i + 1;
    }
    info.argc := i;
    ghost var ts := info.argv;
    var _ := ReplaceAlias(info);
    ghost var ws := info.argv;
    var _ := ReplaceVars(info, pid);
    assert ws == ts[0 := Rounds(info.alias.nodes, ts[0], MAX_ROUNDS).0];
  }

  /**
   * set_info always leaves at least one argument, and the arguments after the first
   * are never alias-replaced: each is the expansion of its own token.
   */
  lemma PreparedShape(arg: seq<char>, aliases: seq<Node>, status: int, pid: int, env: seq<Node>)
    requires INT_MIN <= status <= INT_MAX && INT_MIN <= pid <= INT_MAX
    ensures var p := Prepared(arg, aliases, status, pid, env);
            && |p| == |Tokens(arg)| >= 1
            && p[0] == Expanded(Rounds(aliases, Tokens(arg)[0], MAX_ROUNDS).0, status, pid, env)
            && forall i :: 1 <= i < |p| ==> p[i] == Expanded(Tokens(arg)[i], status, pid, env)
  {
  }

  /**
   * Aliases are replaced before variables are expanded: a command word whose alias
   * value is "$?" runs as the decimal text of the status, provided "$?" is no alias
   * name itself.
   */
  lemma AliasBeforeVariables(arg: seq<char>, aliases: seq<Node>, status: int, pid: int, env: seq<Node>)
    requires INT_MIN <= status <= INT_MAX && INT_MIN <= pid <= INT_MAX
    requires ValueOf(aliases, Tokens(arg)[0]) == Some(STATUS_VAR)
    requires ValueOf(aliases, STATUS_VAR) == None
    ensures Prepared(arg, aliases, status, pid, env)[0] == NumberText(status, 10, 0)
  {
    var t := Tokens(arg)[0];
    assert Rounds(aliases, t, MAX_ROUNDS) == Rounds(aliases, STATUS_VAR, MAX_ROUNDS - 1);
    assert Rounds(aliases, STATUS_VAR, MAX_ROUNDS - 1) == (STATUS_VAR, false);
    SpecialVariables(status, pid, env);
  }
}
