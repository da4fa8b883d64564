// builtins/builtin_history_alias.c: the history and alias built-ins. An alias is a
// node "name=value" of info->alias. unset_alias writes a NUL over the '=' of the
// caller's argument and puts the '=' back only when it deleted a node, so the
// argument memory is both an input and an output here.
module BuiltinHistoryAlias {
  import opened Base
  import opened StringManipulation1
  import opened OutputBuffers
  import opened StringManipulation2
  import opened ListOperations
  import opened ListUtilities
  import opened VariableExpansion

  /** _myhistory: prints the history list as "num: str" lines; always 0. */
  method MyHistory(info: Info, con: Console) returns (r: int)
    requires con.Valid() && NumsAreInts(info.history.nodes)
    modifies con.out, con.out.buf
    ensures con.Valid() && r == 0
    ensures con.out.Emitted() == old(con.out.Emitted()) + ListText(info.history.nodes)
  {
    var _ := PrintList(con, info.history.nodes);
    return 0;
  }

  const NOT_FOUND: Str := "Error: Alias not found\n"

  /** The alias list, the caller's argument memory, and whether NOT_FOUND was printed. */
  datatype AliasUpdate = AliasUpdate(nodes: seq<Node>, arg: seq<char>, complained: bool)

  /**
   * What unset_alias does with the argument s: nothing without '='; otherwise the
   * first node whose text begins with the name before '=' (no '=' needed after it) is
   * deleted and the '=' is restored, or, when there is none, the complaint is printed
   * and the '=' stays overwritten by NUL.
   */
  function UnsetSpec(l: seq<Node>, s: seq<char>): AliasUpdate {
    match StrChr(s, '=')
    case None => AliasUpdate(l, s, false)
    case Some(p) =>
      var name := s[p := NUL];
      match NodeStartsWith(l, name, -1, 0)
      case None => AliasUpdate(l, name, true)
      case Some(k) => AliasUpdate(RemoveAt(l, k), s, false)
  }

  /**
   * What set_alias does with s: nothing without '='; with nothing after '=' it is
   * unset_alias; otherwise unset_alias, then a node holding the argument's string as
   * unset_alias left it, numbered 0, goes to the end of the list.
   */
  function SetSpec(l: seq<Node>, s: seq<char>): AliasUpdate {
    match StrChr(s, '=')
    case None => AliasUpdate(l, s, false)
    case Some(p) =>
      if At(s, p + 1) == NUL then UnsetSpec(l, s)
      else
        var u := UnsetSpec(l, s);
        AliasUpdate(u.nodes + [Node(0, CStr(u.arg))], u.arg, u.complained)
  }

  /** What the complaint of an update adds to standard output. */
  function Complaint(u: AliasUpdate): Str {
    if u.complained then NOT_FOUND else []
  }

  /**
   * unset_alias on the argument memory s: returns 1 on every path, and the memory
   * the caller's argument is left as.
   */
  method UnsetAlias(info: Info, con: Console, s: seq<char>) returns (r: int, arg: seq<char>)
    requires con.Valid() && |info.alias.nodes| < 0x1_0000_0000
    modifies info.alias, con.out, con.out.buf
    ensures con.Valid() && r == 1
    ensures var u := UnsetSpec(old(info.alias.nodes), s);
            && info.alias.nodes == u.nodes && arg == u.arg
            && con.out.Emitted() == old(con.out.Emitted()) + Complaint(u)
  {
    var q := StrChr(s, '=');
    if q.None? {
      return 1, s;
    }
    var p := q.value;
    arg := s[p := NUL];
    var found := DeleteByName(info, con, arg);
    if found {
      arg := arg[p := '='];
      assert arg == s;
    }
    return 1, arg;
  }

  /**
   * The middle of unset_alias: node_starts_with on the cut name, get_node_index and
   * delete_node_at_index, and the complaint when nothing was deleted.
   */
  method DeleteByName(info: Info, con: Console, name: seq<char>) returns (found: bool)
    requires con.Valid() && |info.alias.nodes| < 0x1_0000_0000
    modifies info.alias, con.out, con.out.buf
    ensures con.Valid()
    ensures match NodeStartsWith(old(info.alias.nodes), name, -1, 0)
            case None =>
              && !found && info.alias.nodes == old(info.alias.nodes)
              && con.out.Emitted() == old(con.out.Emitted()) + NOT_FOUND
            case Some(k) =>
              && found && info.alias.nodes == RemoveAt(old(info.alias.nodes), k)
              && con.out.Emitted() == old(con.out.Emitted())
  {
    var node := NodeStartsWith(info.alias.nodes, name, -1, 0);
    var idx := GetNodeIndex(info.alias.nodes, node);
    var index: u32 := if idx < 0 then idx + 0x1_0000_0000 else idx;
    var ret := DeleteNodeAtIndex(info.alias, index);
    if ret == 0 {
      PutNotFound(con);
      return false;
    }
    return true;
  }

  /** The complaint of unset_alias, written with _puts. */
  method PutNotFound(con: Console)
    requires con.Valid()
    modifies con.out, con.out.buf
    ensures con.Valid() && con.out.Emitted() == old(con.out.Emitted()) + NOT_FOUND
  {
    NotFoundNoNul();
    Puts(con, Some(NOT_FOUND));
  }

  lemma NotFoundNoNul()
    ensures CStr(NOT_FOUND) == NOT_FOUND
  {
    assert NUL !in NOT_FOUND;
    CStrNoNul(NOT_FOUND);
  }

  /**
   * set_alias on the argument memory s: 1 without '=', the result of unset_alias
   * when the value is empty, and otherwise 0 after appending the new node.
   */
  method SetAlias(info: Info, con: Console, s: seq<char>) returns (r: int, arg: seq<char>)
    requires con.Valid() && |info.alias.nodes| < 0x1_0000_0000
    modifies info.alias, con.out, con.out.buf
    ensures con.Valid()
    ensures var u := SetSpec(old(info.alias.nodes), s);
            && info.alias.nodes == u.nodes && arg == u.arg
            && con.out.Emitted() == old(con.out.Emitted()) + Complaint(u)
    ensures r == (if StrChr(s, '=').None? || At(s, StrChr(s, '=').value + 1) == NUL then 1 else 0)
  {
    var q := StrChr(s, '=');
    if q.None? {
      return 1, s;
    }
    if At(s, q.value + 1) == NUL {
      r, arg := UnsetAlias(info, con, s);
      return;
    }
    ghost var u := UnsetSpec(info.alias.nodes, s);
    ghost var e0 := con.out.Emitted();
    var _, a := UnsetAlias(info, con, s);
    arg := a;
    assert info.alias.nodes == u.nodes && con.out.Emitted() == e0 + Complaint(u);
    var added := AddNodeEnd(info.alias, Some(arg), 0);
    assert added.Some?;
    r := if added.None? then 1 else 0;
  }

  // ---------------------------------------------------------------- printing

  /**
   * What print_alias writes for a node holding '=': the text up to and including the
   * first '=', then the value between single quotes and a newline. A node without '='
   * has none: print_alias writes a quote and then reads through the pointer
   * `NULL + 1`, which ends the process.
   */
  function AliasLine(str: Str): Option<Str> {
    match StrChr(str, '=')
    case None => None
    case Some(p) => Some(str[..p + 1] + "'" + CStr(str[p + 1..]) + "'\n")
  }

  /** print_alias: 1 for NULL, else 0 after printing; `crashed` when the node has no '='. */
  method PrintAlias(con: Console, l: seq<Node>, node: Option<nat>) returns (r: int, crashed: bool)
    requires con.Valid() && (node.Some? ==> node.value < |l|)
    modifies con.out, con.out.buf
    ensures con.Valid()
    ensures node.None? ==> r == 1 && !crashed && con.out.Emitted() == old(con.out.Emitted())
    ensures node.Some? ==> r == 0 && (crashed <==> AliasLine(l[node.value].str).None?)
    ensures node.Some? && crashed ==> con.out.Emitted() == old(con.out.Emitted()) + "'"
    ensures node.Some? && !crashed ==>
              con.out.Emitted() == old(con.out.Emitted()) + AliasLine(l[node.value].str).value
  {
    if node.None? {
      return 1, false;
    }
    crashed := PrintAliasNode(con, l[node.value].str);
    r := 0;
  }

  /** print_alias on a node holding str. */
  method PrintAliasNode(con: Console, str: Str) returns (crashed: bool)
    requires con.Valid()
    modifies con.out, con.out.buf
    ensures con.Valid() && (crashed <==> AliasLine(str).None?)
    ensures crashed ==> con.out.Emitted() == old(con.out.Emitted()) + "'"
    ensures !crashed ==> con.out.Emitted() == old(con.out.Emitted()) + AliasLine(str).value
  {
    var q := StrChr(str, '=');
    if q.None? {
      var _ := PutChar(con, Ch('\''));
      return true;
    }
    PutQuoted(con, str, q.value);
    assert AliasLine(str) == Some(str[..q.value + 1] + "'" + CStr(str[q.value + 1..]) + "'\n");
    return false;
  }

  /** The output of print_alias for a node whose first '=' is at p. */
  method PutQuoted(con: Console, str: Str, p: nat)
    requires con.Valid() && p < |str|
    modifies con.out, con.out.buf
    ensures con.Valid()
    ensures con.out.Emitted() == old(con.out.Emitted()) + (str[..p + 1] + "'" + CStr(str[p + 1..]) + "'\n")
  {
    ghost var e0 := con.out.Emitted();
    PutPrefix(con, str, p + 1);
    PutValue(con, str[p + 1..]);
    RegroupLine(e0, str[..p + 1], "'", CStr(str[p + 1..]), "'\n");
  }

  /** The characters of str before index n, one _putchar each. */
  method PutPrefix(con: Console, str: Str, n: nat)
    requires con.Valid() && n <= |str|
    modifies con.out, con.out.buf
    ensures con.Valid() && con.out.Emitted() == old(con.out.Emitted()) + str[..n]
  {
    ghost var e0 := con.out.Emitted();
    var a := 0;
    while a < n
      invariant 0 <= a <= n && con.Valid()
      invariant con.out.Emitted() == e0 + str[..a]
    {
      var _ := PutChar(con, Ch(str[a]));
      assert str[..a + 1] == str[..a] + [str[a]];
      AppendAssoc(e0, str[..a], [str[a]]);
      a := a + 1;
    }
  }

  /** The quoted value after the '=': a quote, the value as _puts writes it, a quote and a newline. */
  method PutValue(con: Console, value: seq<char>)
    requires con.Valid()
    modifies con.out, con.out.buf
    ensures con.Valid() && con.out.Emitted() == old(con.out.Emitted()) + ("'" + CStr(value) + "'\n")
  {
    ghost var e0 := con.out.Emitted();
    var _ := PutChar(con, Ch('\''));
    Puts(con, Some(value));
    QuoteLineNoNul();
    Puts(con, Some("'\n"));
    AppendAssoc(e0 + "'", CStr(value), "'\n");
    AppendAssoc(e0, "'" + CStr(value), "'\n");
    AppendAssoc(e0, "'", CStr(value));
  }

  lemma {:induction false} RegroupLine(e: Str, a: Str, b: Str, c: Str, d: Str)
    ensures e + a + (b + c + d) == e + (a + b + c + d)
  {
    AppendAssoc(e, a, b + c + d);
    AppendAssoc(a, b + c, d);
    AppendAssoc(a, b, c);
  }

  lemma QuoteLineNoNul()
    ensures CStr("'\n") == "'\n"
  {
    assert NUL !in "'\n";
    CStrNoNul("'\n");
  }

  /** What `alias` without arguments writes from node i on, and whether it crashed. */
  function ListingFrom(l: seq<Node>, i: nat, out: Str): (Str, bool)
    requires i <= |l|
    decreases |l| - i
  {
    if i == |l| then (out, false)
    else
      match AliasLine(l[i].str)
      case None => (out + "'", true)
      case Some(t) => ListingFrom(l, i + 1, out + t)
  }

  /** Some alias of l has no '=', so listing the aliases ends the process. */
  predicate ListingCrashes(l: seq<Node>) {
    exists j :: 0 <= j < |l| && AliasLine(l[j].str).None?
  }

  /** The listing from node i crashes exactly when a node from i on has no '='. */
  lemma {:induction false} ListingCrashFrom(l: seq<Node>, i: nat, out: Str)
    requires i <= |l|
    ensures ListingFrom(l, i, out).1 <==> exists j :: i <= j < |l| && AliasLine(l[j].str).None?
    decreases |l| - i
  {
    if i < |l| && AliasLine(l[i].str).Some? {
      ListingCrashFrom(l, i + 1, out + AliasLine(l[i].str).value);
      assert forall j :: i <= j < |l| && AliasLine(l[j].str).None? ==> i + 1 <= j;
    }
  }

  /** The state _myalias's argument loop works on. */
  datatype AliasRun = AliasRun(nodes: seq<Node>, argv: seq<seq<char>>, out: Str)

  /**
   * _myalias's loop from argument i: an argument holding '=' is set_alias'ed (it may
   * be left with a NUL in place of its '='); any other is looked up as name followed
   * by '=' and printed when found.
   */
  function ArgsFrom(run: AliasRun, i: nat): AliasRun
    requires 1 <= i <= |run.argv|
    decreases |run.argv| - i
  {
    if i == |run.argv| then run
    else ArgsFrom(ArgStep(run, i), i + 1)
  }

  /** One turn of _myalias's argument loop, on argument i. */
  function ArgStep(run: AliasRun, i: nat): (r: AliasRun)
    requires i < |run.argv|
    ensures |r.argv| == |run.argv|
  {
    if StrChr(run.argv[i], '=').Some? then
      var u := SetSpec(run.nodes, run.argv[i]);
      AliasRun(u.nodes, run.argv[i := u.arg], run.out + Complaint(u))
    else
      match Lookup(run.nodes, run.argv[i])
      case None => run
      case Some(k) =>
        EqualsAfterName(run.nodes, run.argv[i], k);
        AliasRun(run.nodes, run.argv, run.out + AliasLine(run.nodes[k].str).value)
  }

  /**
   * _myalias: with argc 1, prints every alias (crashing at one without '='); otherwise
   * handles argv[1..] as ArgsFrom says. Always 0.
   */
  method MyAlias(info: Info, con: Console) returns (r: int, crashed: bool)
    requires con.Valid() && |info.argv| >= 1
    requires |info.alias.nodes| + |info.argv| < 0x1_0000_0000
    modifies info`argv, info.alias, con.out, con.out.buf
    ensures con.Valid() && r == 0 && |info.argv| == |old(info.argv)|
    ensures crashed <==> info.argc == 1 && ListingCrashes(old(info.alias.nodes))
    ensures info.argc == 1 ==>
              && (con.out.Emitted(), crashed) == ListingFrom(old(info.alias.nodes), 0, old(con.out.Emitted()))
              && info.alias.nodes == old(info.alias.nodes) && info.argv == old(info.argv)
    ensures info.argc != 1 ==>
              && !crashed
              && AliasRun(info.alias.nodes, info.argv, con.out.Emitted())
                 == ArgsFrom(AliasRun(old(info.alias.nodes), old(info.argv), old(con.out.Emitted())), 1)
  {
    if info.argc == 1 {
      ListingCrashFrom(info.alias.nodes, 0, con.out.Emitted());
      r, crashed := ListAliases(con, info.alias.nodes);
      return;
    }
    AliasArgs(info, con);
    return 0, false;
  }

  /** The argument loop of _myalias: argv[1..] handled in order, as ArgsFrom says. */
  method AliasArgs(info: Info, con: Console)
    requires con.Valid() && |info.argv| >= 1
    requires |info.alias.nodes| + |info.argv| < 0x1_0000_0000
    modifies info`argv, info.alias, con.out, con.out.buf
    ensures con.Valid() && |info.argv| == |old(info.argv)|
    ensures AliasRun(info.alias.nodes, info.argv, con.out.Emitted())
            == ArgsFrom(AliasRun(old(info.alias.nodes), old(info.argv), old(con.out.Emitted())), 1)
  {
    ghost var goal := ArgsFrom(AliasRun(info.alias.nodes, info.argv, con.out.Emitted()), 1);
    var i, n := 1, |info.argv|;
    while i < n
      invariant 1 <= i <= n == |info.argv| && con.Valid()
      invariant |info.alias.nodes| + n < 0x1_0000_0000 + i - 1
      invariant ArgsFrom(AliasRun(info.alias.nodes, info.argv, con.out.Emitted()), i) == goal
    {
      ghost var run := AliasRun(info.alias.nodes, info.argv, con.out.Emitted());
      AliasArg(info, con, i);
      assert AliasRun(info.alias.nodes, info.argv, con.out.Emitted()) == ArgStep(run, i);
      i := i + 1;
    }
  }

  /** The body of _myalias's argument loop for argument i. */
  method AliasArg(info: Info, con: Console, i: nat)
    requires con.Valid() && i < |info.argv| && |info.alias.nodes| < 0x1_0000_0000
    modifies info`argv, info.alias, con.out, con.out.buf
    ensures con.Valid() && |info.alias.nodes| <= old(|info.alias.nodes|) + 1
    ensures AliasRun(info.alias.nodes, info.argv, con.out.Emitted())
            == ArgStep(AliasRun(old(info.alias.nodes), old(info.argv), old(con.out.Emitted())), i)
  {
    var q := StrChr(info.argv[i], '=');
    if q.Some? {
      SetArg(info, con, i);
    } else {
      ShowArg(info, con, i);
    }
  }

  /** An argument with '=': set_alias, whose cut leaves the name alone in argv[i]. */
  method SetArg(info: Info, con: Console, i: nat)
    requires con.Valid() && i < |info.argv| && |info.alias.nodes| < 0x1_0000_0000
    requires StrChr(info.argv[i], '=').Some?
    modifies info`argv, info.alias, con.out, con.out.buf
    ensures con.Valid() && |info.alias.nodes| <= old(|info.alias.nodes|) + 1
    ensures AliasRun(info.alias.nodes, info.argv, con.out.Emitted())
            == ArgStep(AliasRun(old(info.alias.nodes), old(info.argv), old(con.out.Emitted())), i)
  {
    var _, a := SetAlias(info, con, info.argv[i]);
    info.argv := info.argv[i := a];
  }

  /** An argument without '=': print_alias of the first node that starts with it and '='. */
  method ShowArg(info: Info, con: Console, i: nat)
    requires con.Valid() && i < |info.argv|
    requires StrChr(info.argv[i], '=').None?
    modifies con.out, con.out.buf
    ensures con.Valid()
    ensures AliasRun(info.alias.nodes, info.argv, con.out.Emitted())
            == ArgStep(AliasRun(info.alias.nodes, info.argv, old(con.out.Emitted())), i)
  {
    var arg := info.argv[i];
    var node := NodeStartsWith(info.alias.nodes, arg, '=' as int, 0);
    if node.Some? {
      EqualsAfterName(info.alias.nodes, arg, node.value);
    }
    var _, _ := PrintAlias(con, info.alias.nodes, node);
  }

  /** The loop of _myalias without arguments: print_alias for every node, in order. */
  method ListAliases(con: Console, l: seq<Node>) returns (r: int, crashed: bool)
    requires con.Valid()
    modifies con.out, con.out.buf
    ensures con.Valid() && r == 0
    ensures (con.out.Emitted(), crashed) == ListingFrom(l, 0, old(con.out.Emitted()))
  {
    var i := 0;
    while i < |l|
      invariant i <= |l| && con.Valid()
      invariant ListingFrom(l, i, con.out.Emitted()) == ListingFrom(l, 0, old(con.out.Emitted()))
    {
      var _, c := PrintAlias(con, l, Some(i));
      if c {
        return 0, true;
      }
      i := i + 1;
    }
    return 0, false;
  }

  // ---------------------------------------------------------------- properties

  /**
   * Setting a brand-new alias stores only its name, without '=' or value, complains
   * that the alias was not found, and leaves a NUL in place of the argument's '='.
   */
  lemma SetNewAlias(l: seq<Node>, name: Str, value: Str)
    requires NoNul(name) && '=' !in name && NoNul(value) && value != []
    requires forall j :: 0 <= j < |l| ==> !NodeMatches(l[j], name, -1)
    ensures SetSpec(l, name + "=" + value) == AliasUpdate(l + [Node(0, name)], name + [NUL] + value, true)
  {
    var s := name + "=" + value;
    StrChrAfterName(name, value);
    var m := s[|name| := NUL];
    assert m == name + [NUL] + value;
    CStrTerminated(m, |name|);
    assert m[..|name|] == name;
    SameString(l, m, name);
  }

  /**
   * Setting an alias whose name begins the text of node k (the first such node) deletes
   * that node and appends "name=value".
   */
  lemma SetExistingAlias(l: seq<Node>, name: Str, value: Str, k: nat)
    requires NoNul(name) && '=' !in name && NoNul(value) && value != []
    requires k < |l| && NodeMatches(l[k], name, -1)
    requires forall j :: 0 <= j < k ==> !NodeMatches(l[j], name, -1)
    ensures SetSpec(l, name + "=" + value)
            == AliasUpdate(RemoveAt(l, k) + [Node(0, name + "=" + value)], name + "=" + value, false)
  {
    var s := name + "=" + value;
    StrChrAfterName(name, value);
    var m := s[|name| := NUL];
    assert m == name + [NUL] + value;
    CStrTerminated(m, |name|);
    assert m[..|name|] == name;
    SameString(l, m, name);
    assert NoNul(name + "=");
    NoNulAppend(name + "=", value);
    CStrNoNul(s);
  }

  /** In "name=value", the first '=' is the one after the name, and something follows it. */
  lemma StrChrAfterName(name: Str, value: Str)
    requires NoNul(name) && '=' !in name && NoNul(value) && value != []
    ensures StrChr(name + "=" + value, '=') == Some(|name|)
    ensures At(name + "=" + value, |name| + 1) != NUL
  {
    var s := name + "=" + value;
    assert s == name + ("=" + value);
    assert s[..|name|] == name;
    assert s[|name|] == '=';
    forall k | 0 <= k < |name|
      ensures s[k] != '=' && s[k] != NUL
    {
      assert s[k] == name[k];
    }
    StrChrIs(s, '=', |name|);
    assert s[|name| + 1] == value[0];
  }

  /** Looking up a name through memory holding it before a NUL is looking up the name. */
  lemma SameString(l: seq<Node>, m: seq<char>, name: Str)
    requires NoNul(name) && CStr(m) == name
    ensures NodeStartsWith(l, m, -1, 0) == NodeStartsWith(l, name, -1, 0)
  {
    CStrNoNul(name);
    forall j | 0 <= j < |l|
      ensures NodeMatches(l[j], m, -1) == NodeMatches(l[j], name, -1)
    {
    }
    SameMatches(l, m, name, 0);
  }

  lemma {:induction false} SameMatches(l: seq<Node>, m: seq<char>, name: Str, i: nat)
    requires i <= |l|
    requires forall j :: 0 <= j < |l| ==> NodeMatches(l[j], m, -1) == NodeMatches(l[j], name, -1)
    ensures NodeStartsWith(l, m, -1, i) == NodeStartsWith(l, name, -1, i)
    decreases |l| - i
  {
    if i < |l| {
      SameMatches(l, m, name, i + 1);
    }
  }

  /**
   * The brand-new alias never expands: after `alias foo=bar` on a list with no node
   * beginning with "foo", no node is "foo" followed by '='.
   */
  lemma NewAliasNotUsable(l: seq<Node>, name: Str, value: Str)
    requires NoNul(name) && '=' !in name && NoNul(value) && value != []
    requires forall j :: 0 <= j < |l| ==> !NodeMatches(l[j], name, -1)
    ensures ValueOf(SetSpec(l, name + "=" + value).nodes, name) == None
  {
    SetNewAlias(l, name, value);
    var l' := l + [Node(0, name)];
    CStrNoNul(name);
    forall j | 0 <= j < |l'|
      ensures !NodeMatches(l'[j], name, '=' as int)
    {
      if j < |l| {
        assert !NodeMatches(l[j], name, -1);
      } else {
        assert StartsWith(name, name) == Some(|name|);
        assert At(name, |name|) == NUL;
      }
    }
    ValueOfMissing(l', name);
  }

  /**
   * `alias name=value` issued twice when no node begins with the name: the first stores
   * the bare name and complains, the second deletes that node without complaint and
   * stores "name=value", after which the name expands to the value.
   */
  lemma AliasTakesTwoSets(l: seq<Node>, name: Str, value: Str)
    requires NoNul(name) && '=' !in name && NoNul(value) && value != []
    requires forall j :: 0 <= j < |l| ==> !NodeMatches(l[j], name, -1)
    ensures var u1 := SetSpec(l, name + "=" + value);
            var u2 := SetSpec(u1.nodes, name + "=" + value);
            && u1.nodes == l + [Node(0, name)] && u1.complained
            && u2.nodes == l + [Node(0, name + "=" + value)] && !u2.complained
            && ValueOf(u2.nodes, name) == Some(value)
  {
    var s := name + "=" + value;
    SetNewAlias(l, name, value);
    var l1 := l + [Node(0, name)];
    CStrNoNul(name);
    assert StartsWith(name, name) == Some(|name|);
    SetExistingAlias(l1, name, value, |l|);
    var l2 := RemoveAt(l1, |l|) + [Node(0, s)];
    assert RemoveAt(l1, |l|) == l;
    forall j | 0 <= j < |l|
      ensures !NodeMatches(l2[j], name, '=' as int)
    {
      assert !NodeMatches(l[j], name, -1);
    }
    ValueOfEntry(l2, name, value, |l|);
  }
}
