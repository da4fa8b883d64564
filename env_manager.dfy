// environment/env_manager.c: the environment as the list info->env of "NAME=value"
// strings, with lookup, update in place, append, removal and the array copy handed
// to execve. The failure of malloc is not part of this model.
module EnvManager {
  import opened Base
  import opened StringManipulation1
  import opened OutputBuffers
  import opened StringManipulation2
  import opened ErrorReporter
  import opened ListOperations
  import opened ListUtilities

  /** argv[i], or NULL past the end of the vector. */
  function Arg(argv: seq<seq<char>>, i: int): (r: Option<seq<char>>)
    ensures r.Some? <==> 0 <= i < |argv|
  {
    if 0 <= i < |argv| then Some(argv[i]) else None
  }

  // ---------------------------------------------------------------- lookup

  /**
   * What _getenv takes from one entry: the text after name, when the entry starts
   * with name and something follows it.
   */
  function EntryValue(str: Str, name: seq<char>): (r: Option<Str>)
    ensures r.Some? <==> IsPrefix(CStr(name), CStr(str)) && CLen(name) < CLen(str)
    ensures r.Some? ==> CStr(str) == CStr(name) + r.value && r.value != [] && NoNul(r.value)
  {
    match StartsWith(str, name)
    case None => None
    case Some(k) =>
      if At(str, k) != NUL then
        assert CStr(str) == CStr(str)[..k] + CStr(str)[k..];
        Some(CStr(str)[k..])
      else
        None
  }

  /** The value _getenv returns, scanning from node i: the first entry with a value. */
  function EnvValue(l: seq<Node>, name: seq<char>, i: nat): (r: Option<Str>)
    requires i <= |l|
    ensures r.Some? ==> r.value != [] && NoNul(r.value)
    decreases |l| - i
  {
    if i == |l| then None
    else if EntryValue(l[i].str, name).Some? then EntryValue(l[i].str, name)
    else EnvValue(l, name, i + 1)
  }

  /** The first entry with a value decides: an entry k after entries without one. */
  lemma {:induction false} EnvValueAt(l: seq<Node>, name: seq<char>, i: nat, k: nat)
    requires i <= k < |l| && EntryValue(l[k].str, name).Some?
    requires forall j :: i <= j < k ==> EntryValue(l[j].str, name).None?
    ensures EnvValue(l, name, i) == EntryValue(l[k].str, name)
    decreases k - i
  {
    if i < k {
      EnvValueAt(l, name, i + 1, k);
    }
  }

  /** Without an entry with a value from node i on, _getenv returns NULL. */
  lemma {:induction false} EnvValueNone(l: seq<Node>, name: seq<char>, i: nat)
    requires i <= |l| && forall j :: i <= j < |l| ==> EntryValue(l[j].str, name).None?
    ensures EnvValue(l, name, i).None?
    decreases |l| - i
  {
    if i < |l| {
      EnvValueNone(l, name, i + 1);
    }
  }

  /** _getenv: the first value of an entry starting with name, skipping empty ones. */
  method GetEnv(info: Info, name: seq<char>) returns (r: Option<Str>)
    ensures r == EnvValue(info.env.nodes, name, 0)
  {
    var nodes := info.env.nodes;
    var i := 0;
    while i < |nodes|
      invariant i <= |nodes| && EnvValue(nodes, name, i) == EnvValue(nodes, name, 0)
    {
      var p := StartsWith(nodes[i].str, name);
      if p.Some? && At(nodes[i].str, p.value) != NUL {
        return Some(CStr(nodes[i].str)[p.value..]);
      }
      i := i + 1;
    }
    return None;
  }

  // ---------------------------------------------------------------- update

  /** An entry for key: key's text followed by '=', as _setenv and _unsetenv test it. */
  predicate IsEntryOf(n: Node, key: seq<char>) {
    NodeMatches(n, key, '=' as int)
  }

  /** The string _setenv builds: key, '=', value. */
  function Entry(key: seq<char>, value: seq<char>): Str {
    CStr(key) + "=" + CStr(value)
  }

  lemma EntryNoNul(key: seq<char>, value: seq<char>)
    ensures NoNul(Entry(key, value)) && CStr(Entry(key, value)) == Entry(key, value)
  {
    var e := Entry(key, value);
    forall k | 0 <= k < |e| ensures e[k] != NUL {
      if k < CLen(key) {
        assert e[k] == CStr(key)[k];
      } else if k > CLen(key) {
        assert e[k] == CStr(value)[k - CLen(key) - 1];
      }
    }
    CStrNoNul(e);
  }

  /**
   * The list _setenv leaves: the first entry of key rewritten in place (keeping its
   * number), or a new entry numbered 0 at the end.
   */
  function SetEnvList(l: seq<Node>, key: seq<char>, value: seq<char>): seq<Node> {
    match NodeStartsWith(l, key, '=' as int, 0)
    case Some(k) => l[k := Node(l[k].num, Entry(key, value))]
    case None => l + [Node(0, Entry(key, value))]
  }

  /**
   * malloc, _strcpy, then two _strcat calls: the bytes of a, the separator, the bytes
   * of b and a terminator, in a block of exactly that size.
   */
  method JoinPair(a: seq<char>, sep: char, b: seq<char>) returns (r: Str)
    requires sep != NUL
    ensures r == CStr(a) + [sep] + CStr(b)
  {
    var buf := new char[StrLen(Some(a)) + StrLen(Some(b)) + 2];
    var src := new char[|a|](k requires 0 <= k < |a| => a[k]);
    assert src[..] == a;
    ghost var b0 := buf[..];
    StrCpy(buf, src);
    CpyResultString(b0, a);
    var sepString := [sep];
    CStrNoNul(sepString);
    ghost var b1 := buf[..];
    StrCat(buf, sepString);
    CatResultString(b1, sepString);
    ghost var b2 := buf[..];
    StrCat(buf, b);
    CatResultString(b2, b);
    r := buf[..CLen(buf[..])];
  }

  /**
   * _setenv: 0 and no change for a NULL key or value; otherwise "key=value" replaces
   * the first entry of key, or is appended, env_changed becomes 1, and the result is 0.
   */
  method SetEnv(info: Info, key: Option<seq<char>>, value: Option<seq<char>>) returns (r: int)
    modifies info.env, info`env_changed
    ensures r == 0
    ensures key.None? || value.None? ==>
              info.env.nodes == old(info.env.nodes) && info.env_changed == old(info.env_changed)
    ensures key.Some? && value.Some? ==>
              info.env.nodes == SetEnvList(old(info.env.nodes), key.value, value.value)
              && info.env_changed == 1
  {
    if key.None? || value.None? {
      return 0;
    }
    var buf := JoinPair(key.value, '=', value.value);
    var nodes := info.env.nodes;
    var i := 0;
    while i < |nodes|
      invariant i <= |nodes| && NodeStartsWith(nodes, key.value, '=' as int, i) == NodeStartsWith(nodes, key.value, '=' as int, 0)
    {
      var p := StartsWith(nodes[i].str, key.value);
      if p.Some? && At(nodes[i].str, p.value) == '=' {
        info.env.nodes := nodes[i := Node(nodes[i].num, buf)];
        info.env_changed := 1;
        return 0;
      }
      i := i + 1;
    }
    var _ := AddNodeEnd(info.env, Some(buf), 0);
    EntryNoNul(key.value, value.value);
    info.env_changed := 1;
    return 0;
  }

  /** The entry of key that _setenv writes is the one _getenv then finds for "key=". */
  lemma EntryFound(key: seq<char>, value: seq<char>)
    requires CStr(value) != []
    ensures EntryValue(Entry(key, value), CStr(key) + "=") == Some(CStr(value))
  {
    var name := CStr(key) + "=";
    EntryNoNul(key, value);
    EntryNoNul(key, []);
    assert Entry(key, []) == name;
    assert Entry(key, value) == name + CStr(value);
    assert IsPrefix(name, Entry(key, value));
  }

  /** An entry with a value for "key=" is an entry of key. */
  lemma ValueMeansEntry(n: Node, key: seq<char>)
    requires EntryValue(n.str, CStr(key) + "=").Some?
    ensures IsEntryOf(n, key)
  {
    var name := CStr(key) + "=";
    EntryNoNul(key, []);
    assert Entry(key, []) == name;
    var s := CStr(n.str);
    assert s[..|name|] == name;
    assert s[..CLen(key)] == CStr(key) by {
      assert s[..CLen(key)] == name[..CLen(key)];
    }
    assert At(n.str, CLen(key)) == s[CLen(key)] == '=';
  }

  /** After _setenv(key, value) with a nonempty value, _getenv("key=") yields that value. */
  lemma SetThenGet(l: seq<Node>, key: seq<char>, value: seq<char>)
    requires CStr(value) != []
    ensures EnvValue(SetEnvList(l, key, value), CStr(key) + "=", 0) == Some(CStr(value))
  {
    var name := CStr(key) + "=";
    var l' := SetEnvList(l, key, value);
    EntryFound(key, value);
    var k := match NodeStartsWith(l, key, '=' as int, 0) case Some(k) => k case None => |l|;
    forall j | 0 <= j < k
      ensures EntryValue(l'[j].str, name).None?
    {
      assert l'[j] == l[j];
      if EntryValue(l[j].str, name).Some? {
        ValueMeansEntry(l[j], key);
      }
    }
    assert l'[k] == Node(l'[k].num, Entry(key, value));
    EnvValueAt(l', name, 0, k);
  }

  /** _setenv either rewrites one entry of key or appends one: the others are kept in place. */
  lemma SetEnvShape(l: seq<Node>, key: seq<char>, value: seq<char>)
    ensures var l' := SetEnvList(l, key, value);
            && |l'| == |l| + (if exists j :: 0 <= j < |l| && IsEntryOf(l[j], key) then 0 else 1)
            && exists k :: 0 <= k < |l'| && l'[k].str == Entry(key, value)
                           && forall j :: 0 <= j < |l| && j != k ==> l'[j] == l[j]
  {
    var l' := SetEnvList(l, key, value);
    match NodeStartsWith(l, key, '=' as int, 0)
    case Some(k) =>
      assert l'[k].str == Entry(key, value);
    case None =>
      assert l'[|l|].str == Entry(key, value);
  }

  // ---------------------------------------------------------------- removal

  /** The list _unsetenv leaves: every entry of key removed, the others in order. */
  function UnsetList(l: seq<Node>, key: seq<char>): seq<Node> {
    if l == [] then []
    else (if IsEntryOf(l[0], key) then [] else [l[0]]) + UnsetList(l[1..], key)
  }

  predicate HasEntry(l: seq<Node>, key: seq<char>) {
    exists j :: 0 <= j < |l| && IsEntryOf(l[j], key)
  }

  /**
   * Removing every entry of key leaves no entry of key, keeps only nodes of the list,
   * and changes nothing in a list without one.
   */
  lemma UnsetListMeaning(l: seq<Node>, key: seq<char>)
    ensures var r := UnsetList(l, key);
            && |r| <= |l| && !HasEntry(r, key)
            && (forall j :: 0 <= j < |r| ==> r[j] in l)
            && (!HasEntry(l, key) ==> r == l)
  {
    UnsetListKeeps(l, key);
    if !HasEntry(l, key) {
      UnsetListNoop(l, key);
    }
  }

  /** What remains after removing the entries of key: nodes of l, none an entry of key. */
  lemma {:induction false} UnsetListKeeps(l: seq<Node>, key: seq<char>)
    ensures var r := UnsetList(l, key);
            && |r| <= |l|
            && forall j :: 0 <= j < |r| ==> r[j] in l && !IsEntryOf(r[j], key)
  {
    if l != [] {
      UnsetListKeeps(l[1..], key);
      var rest := UnsetList(l[1..], key);
      var r := UnsetList(l, key);
      forall j | 0 <= j < |r|
        ensures r[j] in l && !IsEntryOf(r[j], key)
      {
        if !IsEntryOf(l[0], key) && j > 0 {
          assert r[j] == rest[j - 1];
          assert rest[j - 1] in l[1..];
        }
      }
    }
  }

  /** A list without an entry of key is left as it is. */
  lemma {:induction false} UnsetListNoop(l: seq<Node>, key: seq<char>)
    requires !HasEntry(l, key)
    ensures UnsetList(l, key) == l
  {
    if l != [] {
      assert forall j :: 0 <= j < |l[1..]| ==> l[1..][j] == l[j + 1];
      UnsetListNoop(l[1..], key);
      assert [l[0]] + l[1..] == l;
    }
  }

  lemma UnsetCons(n: Node, l: seq<Node>, key: seq<char>)
    ensures UnsetList([n] + l, key) == (if IsEntryOf(n, key) then [] else [n]) + UnsetList(l, key)
  {
    assert ([n] + l)[1..] == l;
  }

  /** Deleting an entry of key does not change what remains after removing them all. */
  lemma {:induction false} UnsetAfterDelete(l: seq<Node>, key: seq<char>, k: nat)
    requires k < |l| && IsEntryOf(l[k], key)
    ensures UnsetList(RemoveAt(l, k), key) == UnsetList(l, key)
    decreases k
  {
    UnsetCons(l[0], l[1..], key);
    assert [l[0]] + l[1..] == l;
    if k == 0 {
      assert RemoveAt(l, 0) == l[1..];
    } else {
      UnsetAfterDelete(l[1..], key, k - 1);
      assert RemoveAt(l, k) == [l[0]] + RemoveAt(l[1..], k - 1);
      UnsetCons(l[0], RemoveAt(l[1..], k - 1), key);
    }
  }

  /**
   * _unsetenv: 0 for an empty list or a NULL key, with nothing changed. Otherwise every
   * entry of key is deleted, restarting from the head after each deletion; env_changed
   * takes the result of the last deletion, and the result is env_changed.
   * List positions are unsigned ints, so the list is shorter than 2^32.
   */
  method UnsetEnv(info: Info, key: Option<seq<char>>) returns (r: int)
    requires |info.env.nodes| < 0x1_0000_0000
    modifies info.env, info`env_changed
    ensures old(info.env.nodes) == [] || key.None? ==>
              r == 0 && info.env.nodes == old(info.env.nodes) && info.env_changed == old(info.env_changed)
    ensures old(info.env.nodes) != [] && key.Some? ==>
              info.env.nodes == UnsetList(old(info.env.nodes), key.value) && r == info.env_changed
              && info.env_changed == if HasEntry(old(info.env.nodes), key.value) then 1 else old(info.env_changed)
  {
    if info.env.nodes == [] || key.None? {
      return 0;
    }
    var v := key.value;
    ghost var l0 := info.env.nodes;
    ghost var deleted := false;
    var i := 0;
    while i < |info.env.nodes|
      invariant i <= |info.env.nodes| <= |l0|
      invariant UnsetList(info.env.nodes, v) == UnsetList(l0, v)
      invariant NodeStartsWith(info.env.nodes, v, '=' as int, i) == NodeStartsWith(info.env.nodes, v, '=' as int, 0)
      invariant HasEntry(l0, v) <==> deleted || HasEntry(info.env.nodes, v)
      invariant info.env_changed == if deleted then 1 else old(info.env_changed)
      decreases |info.env.nodes|, |info.env.nodes| - i
    {
      var node := info.env.nodes[i];
      var p := StartsWith(node.str, v);
      if p.Some? && At(node.str, p.value) == '=' {
        info.env_changed := DeleteEntry(info.env, v, i);
        deleted := true;
        i := 0;
        continue;
      }
      i := i + 1;
    }
    UnsetListMeaning(info.env.nodes, v);
    return info.env_changed;
  }

  /** One deletion of _unsetenv: the entry of key at index i goes, and the result is 1. */
  method DeleteEntry(head: ListHead, key: seq<char>, i: nat) returns (d: int)
    requires i < |head.nodes| < 0x1_0000_0000 && IsEntryOf(head.nodes[i], key)
    modifies head
    ensures d == 1 && |head.nodes| == |old(head.nodes)| - 1 && HasEntry(old(head.nodes), key)
    ensures UnsetList(head.nodes, key) == UnsetList(old(head.nodes), key)
  {
    UnsetAfterDelete(head.nodes, key, i);
    d := DeleteNodeAtIndex(head, i as u32);
  }

  /** After _unsetenv(key), _getenv("key=") finds nothing. */
  lemma UnsetThenGet(l: seq<Node>, key: seq<char>)
    ensures EnvValue(UnsetList(l, key), CStr(key) + "=", 0).None?
  {
    var l' := UnsetList(l, key);
    UnsetListMeaning(l, key);
    forall j | 0 <= j < |l'|
      ensures EntryValue(l'[j].str, CStr(key) + "=").None?
    {
      if EntryValue(l'[j].str, CStr(key) + "=").Some? {
        ValueMeansEntry(l'[j], key);
      }
    }
    EnvValueNone(l', CStr(key) + "=", 0);
  }

  // ---------------------------------------------------------------- built-ins

  /**
   * _mysetenv: with other than three arguments, reports the count and returns 1;
   * otherwise calls _setenv and returns 0 when it returned nonzero, else 1. As _setenv
   * returns 0 on success, a successful call yields 1.
   */
  method MySetEnv(info: Info, con: Console) returns (r: int)
    requires con.Valid()
    modifies info.env, info`env_changed, con.err, con.err.buf
    ensures con.Valid()
    ensures r == 1
    ensures info.argc != 3 ==> con.err.Emitted() == old(con.err.Emitted()) + "Incorrect number of arguements\n"
                               && info.env.nodes == old(info.env.nodes)
    ensures info.argc == 3 && |info.argv| >= 3 ==>
              info.env.nodes == SetEnvList(old(info.env.nodes), info.argv[1], info.argv[2])
              && info.env_changed == 1 && con.err.Emitted() == old(con.err.Emitted())
  {
    if info.argc != 3 {
      Complain(con, "Incorrect number of arguements\n");
      return 1;
    }
    var s := SetEnv(info, Arg(info.argv, 1), Arg(info.argv, 2));
    if s != 0 {
      return 0;
    }
    return 1;
  }

  /** The usage message of a built-in, written to standard error. */
  method Complain(con: Console, message: Str)
    requires con.Valid() && NoNul(message)
    modifies con.err, con.err.buf
    ensures con.Valid() && con.err.Emitted() == old(con.err.Emitted()) + message
  {
    CStrNoNul(message);
    EPuts(con, Some(message));
  }

  /** What one _unsetenv call leaves: nothing changes for an empty list or a NULL key. */
  function UnsetOne(l: seq<Node>, key: Option<seq<char>>): seq<Node> {
    if l == [] || key.None? then l else UnsetList(l, key.value)
  }

  /**
   * The list after _unsetenv for argv[i] up to argv[n] in order, each missing argument
   * a NULL key, and whether any of those calls deleted an entry.
   */
  function UnsetArgs(l: seq<Node>, argv: seq<seq<char>>, i: int, n: int): (seq<Node>, bool)
    decreases if i <= n then n - i + 1 else 0
  {
    if i > n then (l, false)
    else
      var key := Arg(argv, i);
      var rest := UnsetArgs(UnsetOne(l, key), argv, i + 1, n);
      (rest.0, rest.1 || (l != [] && key.Some? && HasEntry(l, key.value)))
  }

  /**
   * _myunsetenv: with one argument, reports it and returns 1; otherwise calls
   * _unsetenv for argv[1] up to argv[argc] (the last one NULL) and returns 0, leaving
   * the list UnsetArgs describes and setting env_changed to 1 when an entry went.
   */
  method MyUnsetEnv(info: Info, con: Console) returns (r: int)
    requires con.Valid() && |info.env.nodes| < 0x1_0000_0000
    modifies info.env, info`env_changed, con.err, con.err.buf
    ensures con.Valid()
    ensures r == (if info.argc == 1 then 1 else 0)
    ensures info.argc == 1 ==> con.err.Emitted() == old(con.err.Emitted()) + "Too few arguements.\n"
                               && info.env.nodes == old(info.env.nodes)
                               && info.env_changed == old(info.env_changed)
    ensures info.argc != 1 ==>
              var run := UnsetArgs(old(info.env.nodes), info.argv, 1, info.argc);
              && con.err.Emitted() == old(con.err.Emitted())
              && info.env.nodes == run.0
              && info.env_changed == (if run.1 then 1 else old(info.env_changed))
              && forall t :: 1 <= t <= info.argc && t < |info.argv| ==> !HasEntry(info.env.nodes, info.argv[t])
  {
    if info.argc == 1 {
      Complain(con, "Too few arguements.\n");
      return 1;
    }
    ghost var goal := UnsetArgs(info.env.nodes, info.argv, 1, info.argc);
    ghost var changed := false;
    UnsetArgsMeaning(info.env.nodes, info.argv, 1, info.argc);
    var i := 1;
    while i <= info.argc
      invariant con.Valid() && con.err.Emitted() == old(con.err.Emitted())
      invariant |info.env.nodes| < 0x1_0000_0000
      invariant goal == (UnsetArgs(info.env.nodes, info.argv, i, info.argc).0,
                         changed || UnsetArgs(info.env.nodes, info.argv, i, info.argc).1)
      invariant info.env_changed == if changed then 1 else old(info.env_changed)
      decreases info.argc - i
    {
      ghost var before := info.env.nodes;
      UnsetOneMeaning(before, Arg(info.argv, i));
      var _ := UnsetEnv(info, Arg(info.argv, i));
      changed := changed || (before != [] && i < |info.argv| && HasEntry(before, info.argv[i]));
      i := i + 1;
    }
    return 0;
  }

  /**
   * After _myunsetenv's calls from argv[i] to argv[n], none of those names has an
   * entry left, only nodes of the old list remain, and an entry was deleted exactly
   * when the list got shorter.
   */
  lemma {:induction false} UnsetArgsMeaning(l: seq<Node>, argv: seq<seq<char>>, i: int, n: int)
    ensures var run := UnsetArgs(l, argv, i, n);
            && |run.0| <= |l|
            && (forall j :: 0 <= j < |run.0| ==> run.0[j] in l)
            && (run.1 <==> |run.0| < |l|)
            && (forall t :: i <= t <= n && 0 <= t < |argv| ==> !HasEntry(run.0, argv[t]))
    decreases if i <= n then n - i + 1 else 0
  {
    if i <= n {
      var key := Arg(argv, i);
      var l1 := UnsetOne(l, key);
      UnsetOneMeaning(l, key);
      UnsetArgsMeaning(l1, argv, i + 1, n);
      var r := UnsetArgs(l1, argv, i + 1, n).0;
      if key.Some? {
        AbsentStaysAbsent(l1, r, key.value);
      }
      forall j | 0 <= j < |r|
        ensures r[j] in l
      {
        assert r[j] in l1;
      }
    }
  }

  /**
   * One _unsetenv call keeps only nodes of the list, leaves no entry of its key, and
   * deletes something exactly when the list gets shorter.
   */
  lemma UnsetOneMeaning(l: seq<Node>, key: Option<seq<char>>)
    ensures var r := UnsetOne(l, key);
            && |r| <= |l|
            && (forall j :: 0 <= j < |r| ==> r[j] in l)
            && (key.Some? ==> !HasEntry(r, key.value))
            && (l != [] && key.Some? && HasEntry(l, key.value) <==> |r| < |l|)
  {
    if l != [] && key.Some? {
      UnsetListKeeps(l, key.value);
      if HasEntry(l, key.value) {
        UnsetListShrinks(l, key.value);
      } else {
        UnsetListNoop(l, key.value);
      }
    }
  }

  /** Removing the entries of key shortens a list that holds one. */
  lemma {:induction false} UnsetListShrinks(l: seq<Node>, key: seq<char>)
    requires HasEntry(l, key)
    ensures |UnsetList(l, key)| < |l|
  {
    UnsetListKeeps(l[1..], key);
    if !IsEntryOf(l[0], key) {
      var j :| 0 <= j < |l| && IsEntryOf(l[j], key);
      assert IsEntryOf(l[1..][j - 1], key);
      UnsetListShrinks(l[1..], key);
    }
  }

  /** Nodes taken from a list without an entry of key hold none either. */
  lemma {:induction false} AbsentStaysAbsent(before: seq<Node>, after: seq<Node>, key: seq<char>)
    requires forall j :: 0 <= j < |after| ==> after[j] in before
    requires !HasEntry(before, key)
    ensures !HasEntry(after, key)
  {
    forall j | 0 <= j < |after|
      ensures !IsEntryOf(after[j], key)
    {
      assert after[j] in before;
    }
  }

  /** The list populate_env_list builds: each environ string, numbered 0, in order. */
  function EnvList(environ: seq<seq<char>>): (l: seq<Node>)
    ensures |l| == |environ| && forall j :: 0 <= j < |l| ==> l[j] == Node(0, CStr(environ[j]))
  {
    if environ == [] then [] else EnvList(environ[..|environ| - 1]) + [Node(0, CStr(environ[|environ| - 1]))]
  }

  /** populate_env_list: info->env becomes the list of the environ strings; always 0. */
  method PopulateEnvList(info: Info, environ: seq<seq<char>>) returns (r: int)
    modifies info.env
    ensures r == 0 && info.env.nodes == EnvList(environ)
  {
    var head := new ListHead();
    var i := 0;
    while i < |environ|
      invariant i <= |environ| && head.nodes == EnvList(environ[..i])
    {
      var _ := AddNodeEnd(head, Some(environ[i]), 0);
      assert environ[..i + 1][..i] == environ[..i];
      i := i + 1;
    }
    assert environ[..i] == environ;
    info.env.nodes := head.nodes;
    return 0;
  }

  /**
   * get_environ: the array copy is rebuilt from the list when there is none or the
   * list changed since, which clears env_changed; the copy is returned.
   */
  method GetEnviron(info: Info) returns (r: Option<seq<Str>>)
    modifies info`environ, info`env_changed
    ensures old(info.environ).None? || old(info.env_changed) != 0 ==>
              info.environ == (if info.env.nodes == [] then None else Some(Strings(info.env.nodes)))
              && info.env_changed == 0
    ensures old(info.environ).Some? && old(info.env_changed) == 0 ==>
              info.environ == old(info.environ) && info.env_changed == 0
    ensures r == info.environ
  {
    if info.environ.None? || info.env_changed != 0 {
      info.environ := ListToStrings(info.env.nodes);
      info.env_changed := 0;
    }
    return info.environ;
  }

  /** _myenv: prints every entry on its own line; always 0. */
  method MyEnv(info: Info, con: Console) returns (r: int)
    requires con.Valid()
    modifies con.out, con.out.buf
    ensures con.Valid() && r == 0
    ensures con.out.Emitted() == old(con.out.Emitted()) + ListStrText(info.env.nodes)
  {
    var _ := PrintListStr(con, info.env.nodes);
    return 0;
  }
}
