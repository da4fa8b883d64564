// variables/variable_expansion.c: rewriting argv[0] through the alias list, and the
// "$?", "$$" and "$NAME" tokens of argv. A token replaced by a _strdup copy holds
// exactly the copied string (its terminator is implicit, see Base.At); getpid() is
// a parameter.
module VariableExpansion {
  import opened Base
  import opened StringManipulation1
  import opened StringConverters
  import opened ListUtilities

  /** The text after the first '=' of a node's string, as `_strchr(str, '=') + 1` reads it. */
  function AfterEq(str: Str): (v: Str)
    ensures NoNul(v)
  {
    match StrChr(str, '=')
    case None => []
    case Some(p) => CStr(str[p + 1..])
  }

  /**
   * The node node_starts_with(list, w, '=') finds for the word w: the first one whose
   * string is w's string followed by '='.
   */
  function Lookup(l: seq<Node>, w: seq<char>): Option<nat> {
    NodeStartsWith(l, w, '=' as int, 0)
  }

  /** What a NAME=value list gives for the word w: the text after '=' of the node found. */
  function ValueOf(l: seq<Node>, w: seq<char>): Option<Str> {
    match Lookup(l, w)
    case None => None
    case Some(k) => Some(AfterEq(l[k].str))
  }

  /**
   * In a list of NAME=value strings, the first entry for a name without '=' gives its
   * value; a name no entry has gives nothing.
   */
  lemma ValueOfEntry(l: seq<Node>, name: Str, value: Str, k: nat)
    requires NoNul(name) && '=' !in name && NoNul(value)
    requires k < |l| && l[k].str == name + "=" + value
    requires forall j :: 0 <= j < k ==> !NodeMatches(l[j], name, '=' as int)
    ensures Lookup(l, name) == Some(k) && ValueOf(l, name) == Some(value)
  {
    var str := l[k].str;
    assert NoNul(name + "=");
    NoNulAppend(name + "=", value);
    CStrNoNul(name);
    CStrNoNul(str);
    assert str[..|name|] == name;
    assert NodeMatches(l[k], name, '=' as int);
    var p := StrChr(str, '=');
    assert str[|name|] == '=';
    assert forall t :: 0 <= t < |name| ==> str[t] == name[t];
    assert p == Some(|name|);
    assert str[|name| + 1..] == value;
    CStrNoNul(value);
  }

  /** Without an entry NAME=... for the word, the lookup finds nothing. */
  lemma ValueOfMissing(l: seq<Node>, w: seq<char>)
    requires forall j :: 0 <= j < |l| ==> !NodeMatches(l[j], w, '=' as int)
    ensures ValueOf(l, w) == None
  {
  }

  // ---------------------------------------------------------------- aliases

  /** The number of alias substitutions replace_alias makes at most. */
  const MAX_ROUNDS: nat := 10

  /**
   * replace_alias's loop from the word w with n rounds left: the word argv[0] ends
   * with, and whether every round found an alias.
   */
  function Rounds(l: seq<Node>, w: seq<char>, n: nat): (seq<char>, bool)
    decreases n
  {
    if n == 0 then (w, true)
    else
      match ValueOf(l, w)
      case None => (w, false)
      case Some(v) => Rounds(l, v, n - 1)
  }

  /**
   * replace_alias: replaces argv[0] by the value of its alias up to 10 times; returns 0
   * as soon as argv[0] is no alias, and 1 only when all ten rounds found one. The
   * other tokens are not touched.
   */
  method ReplaceAlias(info: Info) returns (r: int)
    requires |info.argv| >= 1
    modifies info`argv
    ensures var (w, all) := Rounds(info.alias.nodes, old(info.argv[0]), MAX_ROUNDS);
            && info.argv == old(info.argv)[0 := w]
            && r == (if all then 1 else 0)
  {
    var l := info.alias.nodes;
    ghost var goal := Rounds(l, info.argv[0], MAX_ROUNDS);
    ghost var argv0 := info.argv;
    var i := 0;
    while i < MAX_ROUNDS
      invariant 0 <= i <= MAX_ROUNDS && |info.argv| == |argv0|
      invariant info.argv == argv0[0 := info.argv[0]]
      invariant Rounds(l, info.argv[0], MAX_ROUNDS - i) == goal
    {
      var v := AliasValue(l, info.argv[0]);
      if v.None? {
        return 0;
      }
      RoundsStep(l, info.argv[0], v.value, MAX_ROUNDS - i);
      info.argv := info.argv[0 := v.value];
      i := i + 1;
    }
    return 1;
  }

  /** One round of replace_alias: node_starts_with, then the text after the node's '='. */
  method AliasValue(l: seq<Node>, w: seq<char>) returns (v: Option<Str>)
    ensures v == ValueOf(l, w)
  {
    var node := NodeStartsWith(l, w, '=' as int, 0);
    if node.None? {
      return None;
    }
    var str := l[node.value].str;
    EqualsAfterName(l, w, node.value);
    var p := StrChr(str, '=').value;
    return Some(CStr(str[p + 1..]));
  }

  /** The node found for a word holds a '=' (right after the word). */
  lemma EqualsAfterName(l: seq<Node>, w: seq<char>, k: nat)
    requires Lookup(l, w) == Some(k)
    ensures StrChr(l[k].str, '=').Some?
  {
    var str := l[k].str;
    var j := StartsWith(str, w).value;
    assert At(str, j) == '=' && At(str, CLen(str)) == NUL;
    assert j < CLen(str);
    assert CStr(str)[j] == '=';
  }

  /** One round of replace_alias. */
  lemma RoundsStep(l: seq<Node>, w: seq<char>, v: Str, n: nat)
    requires n > 0 && ValueOf(l, w) == Some(v)
    ensures Rounds(l, w, n) == Rounds(l, v, n - 1)
  {
  }

  /** When replace_alias returns 0, argv[0] is left at a word that is no alias. */
  lemma {:induction false} RoundsStop(l: seq<Node>, w: seq<char>, n: nat)
    ensures !Rounds(l, w, n).1 ==> ValueOf(l, Rounds(l, w, n).0) == None
    decreases n
  {
    if n > 0 && ValueOf(l, w).Some? {
      RoundsStop(l, ValueOf(l, w).value, n - 1);
    }
  }

  /** A word that is its own alias is replaced every round: replace_alias returns 1. */
  lemma {:induction false} RoundsCycle(l: seq<Node>, w: Str, n: nat)
    requires ValueOf(l, w) == Some(w)
    ensures Rounds(l, w, n) == (w, true)
    decreases n
  {
    if n > 0 {
      RoundsCycle(l, w, n - 1);
    }
  }

  /**
   * `alias a=a`: argv[0] "a" is rewritten ten times to "a" and replace_alias returns 1,
   * the only way it does.
   */
  lemma SelfAliasReturnsOne()
    ensures Rounds([Node(0, "a=a")], "a", MAX_ROUNDS) == ("a", true)
  {
    assert NUL !in "a";
    ValueOfEntry([Node(0, "a=a")], "a", "a", 0);
    RoundsCycle([Node(0, "a=a")], "a", MAX_ROUNDS);
  }

  /**
   * An alias whose value is no alias name itself (as with `alias ll='ls -l'`): argv[0]
   * is rewritten once to the value, and replace_alias returns 0 although it replaced
   * argv[0].
   */
  lemma AliasToPlainWord(l: seq<Node>, name: Str, value: Str, k: nat)
    requires NoNul(name) && '=' !in name && NoNul(value)
    requires k < |l| && l[k].str == name + "=" + value
    requires forall j :: 0 <= j < k ==> !NodeMatches(l[j], name, '=' as int)
    requires forall j :: 0 <= j < |l| ==> !NodeMatches(l[j], value, '=' as int)
    ensures Rounds(l, name, MAX_ROUNDS) == (value, false)
  {
    ValueOfEntry(l, name, value, k);
    ValueOfMissing(l, value);
  }

  // ---------------------------------------------------------------- variables

  const STATUS_VAR: Str := "$?"
  const PID_VAR: Str := "$$"

  /** Whether replace_vars rewrites a token: it starts with '$' and does not end there. */
  predicate IsVarToken(tok: seq<char>) {
    At(tok, 0) == '$' && At(tok, 1) != NUL
  }

  /**
   * The text replace_vars puts for a token: the decimal status for "$?", the decimal
   * process id for "$$", otherwise the value of the first environment entry for the
   * name after '$', or "" when there is none. Other tokens stay as they are.
   */
  function Expanded(tok: seq<char>, status: int, pid: int, env: seq<Node>): seq<char>
    requires INT_MIN <= status <= INT_MAX && INT_MIN <= pid <= INT_MAX
  {
    if !IsVarToken(tok) then tok
    else if StrCmp(tok, STATUS_VAR) == 0 then NumberText(status, 10, 0)
    else if StrCmp(tok, PID_VAR) == 0 then NumberText(pid, 10, 0)
    else
      match ValueOf(env, tok[1..])
      case None => []
      case Some(v) => v
  }

  /** replace_string: *old is freed and becomes new; always 1. */
  method ReplaceString(info: Info, i: nat, repl: seq<char>) returns (r: int)
    requires i < |info.argv|
    modifies info`argv
    ensures info.argv == old(info.argv)[i := repl] && r == 1
  {
    info.argv := info.argv[i := repl];
    return 1;
  }

  /** Whether one of the first n tokens is rewritten by replace_vars. */
  predicate HasVarToken(argv: seq<seq<char>>, n: nat)
    requires n <= |argv|
  {
    exists t :: 0 <= t < n && IsVarToken(argv[t])
  }

  lemma HasVarTokenStep(argv: seq<seq<char>>, n: nat)
    requires n < |argv|
    ensures HasVarToken(argv, n + 1) <==> HasVarToken(argv, n) || IsVarToken(argv[n])
  {
    if HasVarToken(argv, n + 1) && !IsVarToken(argv[n]) {
      var t :| 0 <= t < n + 1 && IsVarToken(argv[t]);
      assert t < n;
    }
  }

  /**
   * replace_vars: every token is replaced by its expansion; the result is 1 exactly
   * when some token started with '$' and did not end there.
   */
  method ReplaceVars(info: Info, pid: int) returns (r: int)
    requires INT_MIN <= info.status <= INT_MAX && INT_MIN <= pid <= INT_MAX
    modifies info`argv
    ensures |info.argv| == |old(info.argv)|
    ensures forall i :: 0 <= i < |info.argv| ==>
              info.argv[i] == Expanded(old(info.argv)[i], info.status, pid, info.env.nodes)
    ensures r == (if HasVarToken(old(info.argv), |old(info.argv)|) then 1 else 0)
  {
    var argv0 := info.argv;
    var env := info.env.nodes;
    var i := 0;
    r := 0;
    while i < |info.argv|
      invariant |info.argv| == |argv0| && 0 <= i <= |argv0|
      invariant forall t :: 0 <= t < i ==> info.argv[t] == Expanded(argv0[t], info.status, pid, env)
      invariant forall t :: i <= t < |argv0| ==> info.argv[t] == argv0[t]
      invariant r == (if HasVarToken(argv0, i) then 1 else 0)
    {
      var tok := info.argv[i];
      HasVarTokenStep(argv0, i);
      if At(tok, 0) != '$' || At(tok, 1) == NUL {
        i := i + 1;
        continue;
      }
      r := 1;
      var repl := VarText(tok, info.status, pid, env);
      var _ := ReplaceString(info, i, repl);
      i := i + 1;
    }
  }

  /** The replacement replace_vars computes for a '$' token (before _strdup copies it). */
  method VarText(tok: seq<char>, status: int, pid: int, env: seq<Node>) returns (repl: seq<char>)
    requires INT_MIN <= status <= INT_MAX && INT_MIN <= pid <= INT_MAX && IsVarToken(tok)
    ensures repl == Expanded(tok, status, pid, env)
  {
    if StrCmp(tok, STATUS_VAR) == 0 {
      NumberTextIntLength(status);
      repl := ConvertNumber(status, 10, 0);
    } else if StrCmp(tok, PID_VAR) == 0 {
      NumberTextIntLength(pid);
      repl := ConvertNumber(pid, 10, 0);
    } else {
      var node := NodeStartsWith(env, tok[1..], '=' as int, 0);
      if node.Some? {
        repl := AfterEq(env[node.value].str);
      } else {
        repl := [];
      }
    }
  }

  /** "$?" is the last status and "$$" the process id, in decimal. */
  lemma SpecialVariables(status: int, pid: int, env: seq<Node>)
    requires INT_MIN <= status <= INT_MAX && INT_MIN <= pid <= INT_MAX
    ensures Expanded("$?", status, pid, env) == NumberText(status, 10, 0)
    ensures Expanded("$$", status, pid, env) == NumberText(pid, 10, 0)
  {
    assert NUL !in "$?" && NUL !in "$$";
    CStrNoNul("$?");
    CStrNoNul("$$");
    assert StrCmp("$$", "$?") != 0;
  }

  /**
   * "$NAME" is the value of the first environment entry NAME=value, and "" when the
   * environment has no entry for NAME.
   */
  lemma EnvironmentVariable(status: int, pid: int, env: seq<Node>, name: Str, value: Str, k: nat)
    requires INT_MIN <= status <= INT_MAX && INT_MIN <= pid <= INT_MAX
    requires name != [] && name != "?" && name != "$"
    requires NoNul(name) && '=' !in name && NoNul(value)
    requires k < |env| && env[k].str == name + "=" + value
    requires forall j :: 0 <= j < k ==> !NodeMatches(env[j], name, '=' as int)
    ensures Expanded("$" + name, status, pid, env) == value
  {
    var tok := "$" + name;
    NamedVariable(name);
    ValueOfEntry(env, name, value, k);
  }

  /** A variable the environment does not have expands to nothing. */
  lemma MissingVariable(status: int, pid: int, env: seq<Node>, name: Str)
    requires INT_MIN <= status <= INT_MAX && INT_MIN <= pid <= INT_MAX
    requires name != [] && name != "?" && name != "$" && NoNul(name)
    requires forall j :: 0 <= j < |env| ==> !NodeMatches(env[j], name, '=' as int)
    ensures Expanded("$" + name, status, pid, env) == []
  {
    NamedVariable(name);
  }

  /** "$" and a name other than "?" and "$" is a variable token, and neither special one. */
  lemma NamedVariable(name: Str)
    requires name != [] && name != "?" && name != "$" && NoNul(name)
    ensures var tok := "$" + name;
            && IsVarToken(tok) && tok[1..] == name
            && StrCmp(tok, STATUS_VAR) != 0 && StrCmp(tok, PID_VAR) != 0
  {
    var tok := "$" + name;
    assert NoNul(tok);
    CStrNoNul(tok);
    assert NoNul(STATUS_VAR) && NoNul(PID_VAR);
    CStrNoNul(STATUS_VAR);
    CStrNoNul(PID_VAR);
    assert tok[1..] == name;
    assert STATUS_VAR[1..] == "?" && PID_VAR[1..] == "$";
  }

  /** A lone "$", or a token not starting with '$', is kept. */
  lemma PlainTokensKept(tok: seq<char>, status: int, pid: int, env: seq<Node>)
    requires INT_MIN <= status <= INT_MAX && INT_MIN <= pid <= INT_MAX
    requires CStr(tok) == "$" || CStr(tok) == [] || CStr(tok)[0] != '$'
    ensures Expanded(tok, status, pid, env) == tok
  {
    if CStr(tok) == "$" {
      assert At(tok, 1) == NUL;
    }
  }
}
