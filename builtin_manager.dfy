// builtins/builtin_manager.c: the table of built-in commands and find_builtin, which
// looks argv[0] up in it, counts the line and runs the handler it found.
module BuiltinManager {
  import opened Base
  import opened StringManipulation1
  import opened OutputBuffers
  import opened ListUtilities
  import opened EnvManager
  import opened BuiltinExit
  import opened BuiltinHistoryAlias

  /** The handlers of the table; NoHandler stands for a NULL function pointer. */
  datatype Handler = ExitH | EnvH | HelpH | HistoryH | SetEnvH | UnsetEnvH | CdH | AliasH | NoHandler

  /** One entry of the table: its name (None for NULL) and its handler. */
  datatype Entry = Entry(name: Option<Str>, func: Handler)

  /**
   * builtintbl as written: eight commands, the {NULL, NULL} sentinel, fifteen entries
   * after it, and the closing sentinel.
   */
  const TABLE: seq<Entry> := [
    Entry(Some("exit"), ExitH), Entry(Some("env"), EnvH), Entry(Some("help"), HelpH),
    Entry(Some("history"), HistoryH), Entry(Some("setenv"), SetEnvH),
    Entry(Some("unsetenv"), UnsetEnvH), Entry(Some("cd"), CdH), Entry(Some("alias"), AliasH),
    Entry(None, NoHandler),
    Entry(Some(""), NoHandler), Entry(Some("\n"), NoHandler), Entry(Some(";"), NoHandler),
    Entry(Some("&&"), NoHandler), Entry(Some("||"), NoHandler), Entry(Some("\0"), NoHandler),
    Entry(Some("exit\n"), ExitH), Entry(Some("env\n"), EnvH), Entry(Some("help\n"), HelpH),
    Entry(Some("history\n"), HistoryH), Entry(Some("setenv\n"), SetEnvH),
    Entry(Some("unsetenv\n"), UnsetEnvH), Entry(Some("cd\n"), CdH), Entry(Some("alias\n"), AliasH),
    Entry(None, NoHandler)
  ]

  /** The number of entries before the first sentinel. */
  const REACHABLE: nat := 8

  /** The names of the built-ins, in table order. */
  const NAMES: seq<Str> := ["exit", "env", "help", "history", "setenv", "unsetenv", "cd", "alias"]

  /**
   * The loop of find_builtin from entry i: the first entry, before the first NULL name,
   * whose name _strcmp finds equal to w.
   */
  function BuiltinIndex(t: seq<Entry>, w: seq<char>, i: nat): (r: Option<nat>)
    requires i <= |t|
    ensures r.Some? ==> i <= r.value < |t| && t[r.value].name.Some?
                        && CStr(t[r.value].name.value) == CStr(w)
    decreases |t| - i
  {
    if i == |t| || t[i].name.None? then None
    else if StrCmp(w, t[i].name.value) == 0 then Some(i)
    else BuiltinIndex(t, w, i + 1)
  }

  /**
   * What find_builtin returns after running handler h: the code of _myexit, 0 for env,
   * history and alias, 1 for setenv (whose _setenv always succeeds here, and whose
   * result is inverted), unsetenv's count check, _mycd's result and `help`, the value
   * of _myhelp.
   */
  function BuiltinResult(h: Handler, argv: seq<seq<char>>, argc: int, env: seq<Node>, help: int): int {
    match h
    case ExitH => if ExitDecision(argv).ExitWith? then -2 else 1
    case EnvH => 0
    case HelpH => help
    case HistoryH => 0
    case SetEnvH => 1
    case UnsetEnvH => if argc == 1 then 1 else 0
    case CdH => CdResult(argv, env)
    case AliasH => 0
    case NoHandler => -1
  }

  /**
   * The calls of handler h that reach behaviour C leaves undefined: a history number
   * past the range of int, an env list with positions past the range of unsigned int,
   * an alias list and argv that together pass it, or an alias listing (argc 1) that
   * meets an alias without '=', where print_alias ends the process.
   */
  predicate HandlerFaults(h: Handler, argv: seq<seq<char>>, argc: int, env: seq<Node>,
                          aliases: seq<Node>, history: seq<Node>) {
    match h
    case HistoryH => !NumsAreInts(history)
    case UnsetEnvH => |env| >= 0x1_0000_0000
    case AliasH => |aliases| + |argv| >= 0x1_0000_0000 || (argc == 1 && ListingCrashes(aliases))
    case _ => false
  }

  /** What _mycd returns: 1 for `cd -` without OLDPWD, 0 otherwise. */
  function CdResult(argv: seq<seq<char>>, env: seq<Node>): int {
    if |argv| > 1 && StrCmp(argv[1], "-") == 0 && EnvValue(env, "OLDPWD=", 0).None? then 1 else 0
  }

  /**
   * find_builtin: -1 with nothing changed when argv[0] names no built-in; otherwise
   * line_count goes up by one (as an unsigned int) and the handler's result comes
   * back. `fault` reports, exactly as HandlerFaults says, a handler that ended the
   * process (print_alias on an alias without '=') or a list grown past the limits the
   * C types give it: a position past the range of unsigned int, or a history number
   * past the range of int.
   */
  method FindBuiltin(info: Info, con: Console, help: int) returns (r: int, fault: bool)
    requires con.Valid() && info.Valid() && |info.argv| >= 1
    modifies info`line_count, info`status, info`err_num, info`argv, info`env_changed
    modifies info.env, info.alias, con.out, con.out.buf, con.err, con.err.buf
    ensures con.Valid() && |info.argv| == |old(info.argv)|
    ensures info.status == old(info.status) || info.status == 2
    ensures var k := BuiltinIndex(TABLE, old(info.argv[0]), 0);
            && (k.None? ==>
                  && r == -1 && !fault
                  && unchanged(info, info.env, info.alias)
                  && con.out.Emitted() == old(con.out.Emitted())
                  && con.err.Emitted() == old(con.err.Emitted()))
            && (k.Some? ==>
                  && info.line_count == Inc32(old(info.line_count))
                  && (fault <==> HandlerFaults(TABLE[k.value].func, old(info.argv), old(info.argc),
                                               old(info.env.nodes), old(info.alias.nodes), old(info.history.nodes)))
                  && (TABLE[k.value].func == HelpH ==>
                        r == help && info.argv == old(info.argv) && info.env.nodes == old(info.env.nodes))
                  && (!fault ==>
                        r == BuiltinResult(TABLE[k.value].func, old(info.argv), old(info.argc),
                                           old(info.env.nodes), help))
                  && (TABLE[k.value].func == ExitH ==>
                        && !fault
                        && (r == -2 ==> info.err_num == ExitDecision(old(info.argv)).code)))
  {
    TableShape();
    var k := LookUp(TABLE, info.argv[0], REACHABLE);
    if k.None? {
      return -1, false;
    }
    BuiltinNames(info.argv[0]);
    r, fault := RunHandler(TABLE[k.value].func, info, con, help);
  }

  /** The search loop of find_builtin, over a table whose entry n has a NULL name. */
  method LookUp(t: seq<Entry>, w: seq<char>, n: nat) returns (k: Option<nat>)
    requires n < |t| && t[n].name.None?
    ensures k == BuiltinIndex(t, w, 0)
  {
    var i := 0;
    while t[i].name.Some?
      invariant 0 <= i <= n
      invariant BuiltinIndex(t, w, i) == BuiltinIndex(t, w, 0)
      decreases n - i
    {
      assert i != n;
      var c := StrCmp(w, t[i].name.value);
      IndexStep(t, w, i);
      if c == 0 {
        return Some(i);
      }
      i := i + 1;
    }
    IndexStep(t, w, i);
    return None;
  }

  /** One entry of find_builtin's search: a match there, or the search from the next. */
  lemma IndexStep(t: seq<Entry>, w: seq<char>, i: nat)
    requires i < |t|
    ensures t[i].name.None? ==> BuiltinIndex(t, w, i) == None
    ensures t[i].name.Some? ==>
              BuiltinIndex(t, w, i) == if StrCmp(w, t[i].name.value) == 0 then Some(i)
                                       else BuiltinIndex(t, w, i + 1)
  {
  }

  /** The first REACHABLE entries carry the names and a handler; then comes a NULL name. */
  lemma TableShape()
    ensures REACHABLE < |TABLE| && TABLE[REACHABLE].name.None? && |NAMES| == REACHABLE
    ensures forall j :: 0 <= j < REACHABLE ==>
              TABLE[j].name == Some(NAMES[j]) && TABLE[j].func != NoHandler
  {
  }

  /** The line count of a found entry, then the call through its function pointer. */
  method RunHandler(h: Handler, info: Info, con: Console, help: int) returns (r: int, fault: bool)
    requires con.Valid() && info.Valid() && |info.argv| >= 1 && h != NoHandler
    modifies info`line_count, info`status, info`err_num, info`argv, info`env_changed
    modifies info.env, info.alias, con.out, con.out.buf, con.err, con.err.buf
    ensures con.Valid() && info.line_count == Inc32(old(info.line_count)) && |info.argv| == |old(info.argv)|
    ensures info.status == old(info.status) || info.status == 2
    ensures fault <==> HandlerFaults(h, old(info.argv), old(info.argc), old(info.env.nodes),
                                     old(info.alias.nodes), old(info.history.nodes))
    ensures !fault ==> r == BuiltinResult(h, old(info.argv), old(info.argc), old(info.env.nodes), help)
    ensures h == HelpH ==> r == help && info.argv == old(info.argv) && info.env.nodes == old(info.env.nodes)
    ensures h == ExitH ==> !fault && (r == -2 ==> info.err_num == ExitDecision(old(info.argv)).code)
  {
    info.line_count := Inc32(info.line_count);
    r, fault := -1, false;
    match h
    case ExitH => r := MyExit(info, con);
    case EnvH => r := MyEnv(info, con);
    case HelpH => r := help;
    case HistoryH =>
      if !NumsAreInts(info.history.nodes) {
        return -1, true;
      }
      r := MyHistory(info, con);
    case SetEnvH => r := MySetEnv(info, con);
    case UnsetEnvH =>
      if |info.env.nodes| >= 0x1_0000_0000 {
        return -1, true;
      }
      r := MyUnsetEnv(info, con);
    case CdH => r := CdResult(info.argv, info.env.nodes);
    case AliasH =>
      if |info.alias.nodes| + |info.argv| >= 0x1_0000_0000 {
        return -1, true;
      }
      r, fault := MyAlias(info, con);
  }

  // ---------------------------------------------------------------- properties

  /**
   * Exactly the eight names before the sentinel are built-ins, each at its own entry;
   * _strcmp compares whole strings, so a prefix or an extension of a name is not one,
   * and none of the entries after the sentinel can be reached.
   */
  lemma BuiltinNames(w: seq<char>)
    ensures var k := BuiltinIndex(TABLE, w, 0);
            && (k.Some? <==> CStr(w) in NAMES)
            && (k.Some? ==> k.value < REACHABLE && NAMES[k.value] == CStr(w))
  {
    TableShape();
    NamesAreStrings();
    FirstNames(TABLE, NAMES, w, 0);
  }

  /** Every name of the table before the sentinel is its own C string. */
  lemma NamesAreStrings()
    ensures forall j :: 0 <= j < |NAMES| ==> CStr(NAMES[j]) == NAMES[j]
  {
    forall j | 0 <= j < |NAMES|
      ensures CStr(NAMES[j]) == NAMES[j]
    {
      assert NoNul(NAMES[j]);
      CStrNoNul(NAMES[j]);
    }
  }

  /**
   * In a table whose first entries carry the given names, followed by a NULL name,
   * the search from entry i finds w exactly when w is one of the names from i on.
   */
  lemma {:induction false} FirstNames(t: seq<Entry>, names: seq<Str>, w: seq<char>, i: nat)
    requires i <= |names| < |t| && t[|names|].name.None?
    requires forall j :: 0 <= j < |names| ==> t[j].name == Some(names[j]) && CStr(names[j]) == names[j]
    ensures var k := BuiltinIndex(t, w, i);
            && (k.Some? <==> CStr(w) in names[i..])
            && (k.Some? ==> i <= k.value < |names| && names[k.value] == CStr(w))
    decreases |names| - i
  {
    if i < |names| {
      FirstNames(t, names, w, i + 1);
      assert names[i..] == [names[i]] + names[i + 1..];
    }
  }

  /** "exit" followed by a newline is not a built-in, though the table lists it. */
  lemma NewlineNamesUnreachable()
    ensures BuiltinIndex(TABLE, "exit\n", 0).None?
  {
    BuiltinNames("exit\n");
    assert NoNul("exit\n");
    CStrNoNul("exit\n");
    assert "exit\n" !in NAMES;
  }
}
