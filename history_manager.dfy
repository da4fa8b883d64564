// history/history_manager.c: the command history as the list info->history, the file
// ~/.simple_shell_history that holds it between sessions (one entry per line), and
// the bound HIST_MAX on the number of entries kept.
// The file system is a map from path to contents for reading; for writing, what open()
// returns is a parameter and the bytes handed to write() are the log of the _putfd
// writer. The failure of malloc, fstat and read is not part of this model.
module HistoryManager {
  import opened Base
  import opened StringManipulation1
  import opened OutputBuffers
  import opened ErrorReporter
  import opened ListOperations
  import opened ListUtilities
  import opened EnvManager

  // ---------------------------------------------------------------- the file name

  /** The history file of a home directory: HOME, '/', HIST_FILE; none without HOME. */
  function HistoryPath(home: Option<Str>): Option<Str> {
    if home.None? then None else Some(home.value + "/" + HIST_FILE)
  }

  /** The value of HOME in the environment, as _getenv finds it. */
  function Home(info: Info): Option<Str>
    reads info, info.env
  {
    EnvValue(info.env.nodes, "HOME=", 0)
  }

  /** get_history_file: "$HOME/.simple_shell_history", or NULL when HOME is unset or empty. */
  method GetHistoryFile(info: Info) returns (r: Option<Str>)
    ensures r == HistoryPath(Home(info))
    ensures r.Some? ==> NoNul(r.value)
  {
    var dir := GetEnv(info, "HOME=");
    if dir.None? {
      return None;
    }
    var path := JoinPair(dir.value, '/', HIST_FILE);
    JoinedPath(dir.value);
    return Some(path);
  }

  /** What _strcpy and _strcat build from a NUL-free HOME is its path, free of NUL. */
  lemma JoinedPath(dir: Str)
    requires NoNul(dir)
    ensures CStr(dir) + ['/'] + CStr(HIST_FILE) == dir + "/" + HIST_FILE
    ensures NoNul(dir + "/" + HIST_FILE)
  {
    HistFileNoNul();
    JoinedNoNul(dir, '/', HIST_FILE);
  }

  /** Two NUL-free strings joined by a separator other than NUL. */
  lemma JoinedNoNul(a: Str, c: char, b: Str)
    requires NoNul(a) && NoNul(b) && c != NUL
    ensures CStr(a) + [c] + CStr(b) == a + [c] + b
    ensures NoNul(a + [c] + b)
  {
    CStrNoNul(a);
    CStrNoNul(b);
    NoNulAppend(a, [c]);
    NoNulAppend(a + [c], b);
  }

  // ---------------------------------------------------------------- the list

  /** build_history_list: appends buf's string, numbered linecount, to the history. Always 0. */
  method BuildHistoryList(info: Info, buf: seq<char>, linecount: int) returns (r: int)
    modifies info.history
    ensures r == 0
    ensures info.history.nodes == old(info.history.nodes) + [Node(linecount, CStr(buf))]
  {
    var _ := AddNodeEnd(info.history, Some(buf), linecount);
    return 0;
  }

  /** The nodes of l numbered from 0 in order, their strings unchanged. */
  function Renumbered(l: seq<Node>): seq<Node> {
    seq(|l|, j requires 0 <= j < |l| => Node(j, l[j].str))
  }

  /** renumber_history: numbers the nodes 0, 1, ... and sets histcount to their count. */
  method RenumberHistory(info: Info) returns (n: int)
    modifies info.history, info`histcount
    ensures info.history.nodes == Renumbered(old(info.history.nodes))
    ensures n == info.histcount == |info.history.nodes|
  {
    var i := 0;
    while i < |info.history.nodes|
      invariant 0 <= i <= |info.history.nodes| == |old(info.history.nodes)|
      invariant forall j :: 0 <= j < i ==> info.history.nodes[j] == Node(j, old(info.history.nodes)[j].str)
      invariant forall j :: i <= j < |info.history.nodes| ==> info.history.nodes[j] == old(info.history.nodes)[j]
    {
      info.history.nodes := info.history.nodes[i := Node(i, info.history.nodes[i].str)];
      i := i + 1;
    }
    info.histcount := i;
    return i;
  }

  // ---------------------------------------------------------------- the file contents

  /**
   * The entries the parsing loop of read_history produces over the file text t from
   * the state where the current line starts at last and the scan is at i: at each
   * newline the string of the line before it, and at the end the rest when it is not
   * empty. A line with a NUL in it reads as the text before the NUL.
   */
  function EntriesFrom(t: seq<char>, last: nat, i: nat): seq<Str>
    requires last <= i <= |t|
    decreases |t| - i
  {
    if i == |t| then (if last != i then [CStr(t[last..])] else [])
    else if t[i] == '\n' then [CStr(t[last..i])] + EntriesFrom(t, i + 1, i + 1)
    else EntriesFrom(t, last, i + 1)
  }

  /** The entries of the whole file text t. */
  function Entries(t: seq<char>): seq<Str> {
    EntriesFrom(t, 0, 0)
  }

  /** The nodes build_history_list appends for the entries es, numbered from start. */
  function Numbered(es: seq<Str>, start: int): seq<Node> {
    seq(|es|, j requires 0 <= j < |es| => Node(start + j, es[j]))
  }

  /** How many of count entries the trimming loop of read_history deletes. */
  function Dropped(count: nat): (d: nat)
    ensures d <= count
  {
    if count >= HIST_MAX then count - (HIST_MAX - 1) else 0
  }

  /**
   * The history read_history leaves from history l and file text t: the entries of t
   * appended, as many deleted from the front as the trimming loop deletes, numbered
   * from 0.
   */
  function AfterRead(l: seq<Node>, t: seq<char>): seq<Node> {
    Retained(l, Entries(t))
  }

  /** The history left by appending the entries es to l, trimming and renumbering. */
  function Retained(l: seq<Node>, es: seq<Str>): seq<Node> {
    var all := l + Numbered(es, 0);
    Renumbered(all[Dropped(|es|)..])
  }

  /** Whether read_history reads the file: it exists and has at least two bytes. */
  predicate ReadsFile(path: Option<Str>, files: map<Str, seq<char>>) {
    path.Some? && path.value in files && |files[path.value]| >= 2
  }

  /**
   * read_history: without a file name, an existing file or two bytes of contents, 0 and
   * nothing changes; otherwise the history becomes AfterRead of the file and the result
   * is the new histcount, the number of entries.
   */
  method ReadHistory(info: Info, files: map<Str, seq<char>>) returns (r: int)
    requires info.Valid()
    modifies info.history, info`histcount
    ensures var path := HistoryPath(Home(info));
            && (!ReadsFile(path, files) ==>
                  r == 0 && info.history.nodes == old(info.history.nodes) && info.histcount == old(info.histcount))
            && (ReadsFile(path, files) ==>
                  info.history.nodes == AfterRead(old(info.history.nodes), files[path.value])
                  && r == info.histcount == |info.history.nodes|)
  {
    var filename := GetHistoryFile(info);
    if filename.None? || filename.value !in files {
      return 0;
    }
    var content := files[filename.value];
    var fsize := |content|;
    if fsize < 2 {
      return 0;
    }
    var linecount := ParseEntries(info, content);
    ghost var all := old(info.history.nodes) + Numbered(Entries(content), 0);

    info.histcount := linecount;
    var more := info.histcount >= HIST_MAX;
    info.histcount := info.histcount - 1;
    while more
      invariant Min(linecount, HIST_MAX - 1) <= info.histcount + 1 <= linecount
      invariant more <==> info.histcount + 1 >= HIST_MAX
      invariant info.history.nodes == all[linecount - 1 - info.histcount..]
      decreases info.histcount
    {
      var _ := DeleteNodeAtIndex(info.history, 0);
      assert all[linecount - 1 - info.histcount..][1..] == all[linecount - info.histcount..];
      more := info.histcount >= HIST_MAX;
      info.histcount := info.histcount - 1;
    }
    assert linecount - 1 - info.histcount == Dropped(linecount);
    r := RenumberHistory(info);
  }

  /**
   * The parsing loop of read_history over the file contents: each newline becomes a
   * NUL and the string before it an entry; a last line without newline is one too.
   * The entries are numbered from 0.
   */
  method ParseEntries(info: Info, content: seq<char>) returns (linecount: nat)
    modifies info.history
    ensures linecount == |Entries(content)|
    ensures info.history.nodes == old(info.history.nodes) + Numbered(Entries(content), 0)
  {
    var fsize := |content|;
    var buf := Load(content);
    var last, i := 0, 0;
    linecount := 0;
    ghost var done: seq<Str> := [];
    while i < fsize
      invariant 0 <= last <= i <= fsize && linecount == |done|
      invariant buf.Length == fsize + 1 && buf[fsize] == NUL
      invariant forall k :: last <= k < fsize ==> buf[k] == content[k]
      invariant done + EntriesFrom(content, last, i) == Entries(content)
      invariant info.history.nodes == old(info.history.nodes) + Numbered(done, 0)
    {
      if buf[i] == '\n' {
        var entry := EntryAt(buf, content, last, i);
        var _ := BuildHistoryList(info, buf[last..], linecount);
        NumberedSnoc(done, entry);
        AppendAssoc(done, [entry], EntriesFrom(content, i + 1, i + 1));
        done := done + [entry];
        linecount := linecount + 1;
        last := i + 1;
      }
      i := i + 1;
    }
    if last != i {
      ghost var entry := CStr(content[last..]);
      LastEntry(buf[..], content, last);
      var _ := BuildHistoryList(info, buf[last..], linecount);
      NumberedSnoc(done, entry);
      done := done + [entry];
      linecount := linecount + 1;
    }
  }

  /** The rest of the file after the last newline reads as its own string from the buffer. */
  lemma LastEntry(m: seq<char>, content: seq<char>, last: nat)
    requires last < |content| && |m| == |content| + 1 && m[|content|] == NUL
    requires forall k :: last <= k < |content| ==> m[k] == content[k]
    ensures CStr(m[last..]) == CStr(content[last..])
  {
    CStrCutAt(m, last, |content|);
    assert m[|content| := NUL] == m;
    assert m[last..|content|] == content[last..];
  }

  lemma NumberedSnoc(es: seq<Str>, e: Str)
    ensures Numbered(es + [e], 0) == Numbered(es, 0) + [Node(|es|, e)]
  {
  }

  /** The buffer read_history reads the file into: its fsize bytes, then buf[fsize] = 0. */
  method Load(content: seq<char>) returns (buf: array<char>)
    ensures fresh(buf) && buf.Length == |content| + 1 && buf[|content|] == NUL
    ensures forall k :: 0 <= k < |content| ==> buf[k] == content[k]
  {
    buf := new char[|content| + 1](k requires 0 <= k < |content| + 1 => if k < |content| then content[k] else NUL);
  }

  /** Writes the NUL over the newline at i; the line from last then reads as its piece. */
  method EntryAt(buf: array<char>, ghost content: seq<char>, last: nat, i: nat) returns (ghost entry: Str)
    requires last <= i < |content| && buf.Length == |content| + 1 && buf[|content|] == NUL
    requires forall k :: last <= k < |content| ==> buf[k] == content[k]
    requires content[i] == '\n'
    modifies buf
    ensures entry == CStr(content[last..i]) == CStr(buf[last..])
    ensures buf[|content|] == NUL && forall k :: i < k < |content| ==> buf[k] == content[k]
  {
    ghost var m := buf[..];
    buf[i] := NUL;
    assert buf[..] == m[i := NUL];
    assert m[last..i] == content[last..i];
    CStrCutAt(m, last, i);
    assert buf[last..] == m[i := NUL][last..];
    entry := CStr(content[last..i]);
  }

  // ---------------------------------------------------------------- writing

  /**
   * write_history: -1 without a file name or when open() fails (the writer untouched);
   * otherwise each entry and a newline go to the descriptor through _putfd, the buffer
   * is flushed, and the result is 1.
   */
  method WriteHistory(info: Info, con: Console, openFd: int) returns (r: int)
    requires con.Valid()
    modifies con.fdw, con.fdw.buf
    ensures con.Valid()
    ensures HistoryPath(Home(info)).None? || openFd == -1 ==>
              r == -1 && unchanged(con.fdw, con.fdw.buf)
    ensures HistoryPath(Home(info)).Some? && openFd != -1 ==>
              && r == 1 && con.fdw.Pending() == [] && WritesTo(old(con.fdw.log), con.fdw.log, openFd)
              && con.fdw.Emitted() == old(con.fdw.Emitted()) + ListStrText(info.history.nodes)
  {
    var filename := GetHistoryFile(info);
    if filename.None? {
      return -1;
    }
    var fd := openFd;
    if fd == -1 {
      return -1;
    }
    WriteEntries(con, info.history.nodes, fd);
    ghost var log1 := con.fdw.log;
    var _ := PutFd(con, Flush, fd);
    WritesToTrans(old(con.fdw.log), log1, con.fdw.log, fd);
    return 1;
  }

  /** write_history's loop: every node's line, in order, on fd. */
  method WriteEntries(con: Console, nodes: seq<Node>, fd: int)
    requires con.Valid()
    modifies con.fdw, con.fdw.buf
    ensures con.Valid() && WritesTo(old(con.fdw.log), con.fdw.log, fd)
    ensures con.fdw.Emitted() == old(con.fdw.Emitted()) + ListStrText(nodes)
  {
    var k := 0;
    while k < |nodes|
      invariant 0 <= k <= |nodes| && con.Valid()
      invariant con.fdw.Emitted() == old(con.fdw.Emitted()) + ListStrText(nodes[..k])
      invariant WritesTo(old(con.fdw.log), con.fdw.log, fd)
    {
      ghost var log0 := con.fdw.log;
      WriteEntry(con, nodes[k], fd);
      WritesToTrans(old(con.fdw.log), log0, con.fdw.log, fd);
      assert nodes[..k + 1][..k] == nodes[..k];
      AppendAssoc(old(con.fdw.Emitted()), ListStrText(nodes[..k]), CStr(nodes[k].str) + "\n");
      k := k + 1;
    }
    assert nodes[..k] == nodes;
  }

  /** One line of the history file: the node's string and a newline, both on fd. */
  method WriteEntry(con: Console, n: Node, fd: int)
    requires con.Valid()
    modifies con.fdw, con.fdw.buf
    ensures con.Valid() && WritesTo(old(con.fdw.log), con.fdw.log, fd)
    ensures con.fdw.Emitted() == old(con.fdw.Emitted()) + (CStr(n.str) + "\n")
  {
    var _ := PutsFd(con, Some(n.str), fd);
    ghost var log0 := con.fdw.log;
    var _ := PutFd(con, Ch('\n'), fd);
    WritesToTrans(old(con.fdw.log), log0, con.fdw.log, fd);
    AppendAssoc(old(con.fdw.Emitted()), CStr(n.str), "\n");
  }

  // ---------------------------------------------------------------- properties

  /** The file text of a history starting with n: n's line, then the rest's. */
  lemma {:induction false} ListStrTextCons(n: Node, l: seq<Node>)
    ensures ListStrText([n] + l) == CStr(n.str) + "\n" + ListStrText(l)
    decreases |l|
  {
    if l != [] {
      var l' := l[..|l| - 1];
      assert ([n] + l)[..|l|] == [n] + l';
      ListStrTextCons(n, l');
    } else {
      assert ([n] + l)[..0] == [];
    }
  }

  /** Scanning over a line up to its newline at e yields that line first. */
  lemma {:induction false} EntriesLine(t: seq<char>, last: nat, i: nat, e: nat)
    requires last <= i <= e < |t| && t[e] == '\n'
    requires forall k :: i <= k < e ==> t[k] != '\n'
    ensures EntriesFrom(t, last, i) == [CStr(t[last..e])] + EntriesFrom(t, e + 1, e + 1)
    decreases e - i
  {
    if i < e {
      EntriesLine(t, last, i + 1, e);
    }
  }

  /** Text in front does not change the entries read after it. */
  lemma {:induction false} EntriesShift(p: seq<char>, r: seq<char>, last: nat, i: nat)
    requires last <= i <= |r|
    ensures EntriesFrom(p + r, |p| + last, |p| + i) == EntriesFrom(r, last, i)
    decreases |r| - i
  {
    var t := p + r;
    if i == |r| {
      assert t[|p| + last..] == r[last..];
    } else if r[i] == '\n' {
      assert t[|p| + i] == '\n';
      assert t[|p| + last..|p| + i] == r[last..i];
      EntriesShift(p, r, i + 1, i + 1);
      assert EntriesFrom(t, |p| + last, |p| + i)
          == [CStr(r[last..i])] + EntriesFrom(t, |p| + i + 1, |p| + i + 1);
    } else {
      assert t[|p| + i] == r[i];
      EntriesShift(p, r, last, i + 1);
    }
  }

  /**
   * The file write_history produces reads back as the same entries, provided no entry
   * holds a newline.
   */
  lemma {:induction false} EntriesOfListStrText(l: seq<Node>)
    requires forall j :: 0 <= j < |l| ==> '\n' !in CStr(l[j].str)
    ensures Entries(ListStrText(l)) == Strings(l)
    decreases |l|
  {
    if l != [] {
      assert l == [l[0]] + l[1..];
      ListStrTextCons(l[0], l[1..]);
      EntriesOfLine(CStr(l[0].str), ListStrText(l[1..]));
      EntriesOfListStrText(l[1..]);
    }
  }

  /** A line without newline, its newline and more text: the line is the first entry. */
  lemma EntriesOfLine(s: Str, rest: seq<char>)
    requires '\n' !in s && NoNul(s)
    ensures Entries(s + "\n" + rest) == [s] + Entries(rest)
  {
    var t := s + "\n" + rest;
    forall k | 0 <= k < |s| ensures t[k] != '\n' {
      assert t[k] == s[k];
    }
    EntriesLine(t, 0, 0, |s|);
    assert t[..|s|] == s;
    EntriesShift(s + "\n", rest, 0, 0);
    assert t == (s + "\n") + rest;
    CStrNoNul(s);
  }

  /**
   * Reading entries into an empty history keeps the newest Min(n, HIST_MAX - 1) of them
   * in order, numbered from 0.
   */
  lemma KeptNewest(es: seq<Str>)
    ensures var h := Retained([], es);
            && |h| == Min(|es|, HIST_MAX - 1)
            && h == Numbered(es[|es| - |h|..], 0)
  {
    var all := Numbered(es, 0);
    assert [] + all == all;
    var d := Dropped(|es|);
    var h := Renumbered(all[d..]);
    assert h == Retained([], es);
    assert |h| == |es| - d == Min(|es|, HIST_MAX - 1);
    var kept := Numbered(es[d..], 0);
    forall j | 0 <= j < |h|
      ensures h[j] == kept[j]
    {
      assert all[d..][j] == all[d + j] == Node(d + j, es[d + j]);
    }
    assert h == kept;
  }

  /** Every entry of the history file takes at least its newline. */
  lemma {:induction false} ListStrTextLength(l: seq<Node>)
    ensures |ListStrText(l)| >= |l|
    ensures |l| == 1 ==> ListStrText(l) == CStr(l[0].str) + "\n"
  {
    if l != [] {
      ListStrTextLength(l[..|l| - 1]);
    }
  }

  /**
   * Writing a history and reading it into the empty list of the next start keeps its
   * newest Min(n, HIST_MAX - 1) strings in order, numbered from 0, except for a history
   * of one empty entry: its file "\n" is shorter than the two bytes read_history
   * demands, so nothing is read back.
   */
  lemma ReadAfterWrite(l: seq<Node>, path: Option<Str>, files: map<Str, seq<char>>)
    requires forall j :: 0 <= j < |l| ==> '\n' !in CStr(l[j].str)
    requires path.Some? && path.value in files && files[path.value] == ListStrText(l)
    ensures var h := if ReadsFile(path, files) then AfterRead([], files[path.value]) else [];
            if |l| == 1 && CStr(l[0].str) == [] then h == []
            else |h| == Min(|l|, HIST_MAX - 1) && h == Numbered(Strings(l)[|l| - |h|..], 0)
  {
    var es := Strings(l);
    ListStrTextLength(l);
    EntriesOfListStrText(l);
    KeptNewest(es);
    if !(|l| == 1 && CStr(l[0].str) == []) {
      if |l| == 1 {
        assert |ListStrText(l)| >= 2;
      }
      if !ReadsFile(path, files) {
        assert |l| == 0;
      }
    }
  }

  /**
   * A history whose one entry is empty (an empty line or a line that is only a
   * comment) is written as "\n", which read_history ignores, although its lines would
   * parse back into that one entry.
   */
  lemma SingleEmptyEntryLost(n: Node, p: Str)
    requires CStr(n.str) == []
    ensures ListStrText([n]) == "\n"
    ensures !ReadsFile(Some(p), map[p := ListStrText([n])])
    ensures AfterRead([], ListStrText([n])) == [Node(0, [])]
  {
    ListStrTextLength([n]);
    EntriesOfListStrText([n]);
    KeptNewest([[]]);
  }
}
