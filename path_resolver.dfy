// environment/path_resolver.c: finding the file a command names, by trying each
// directory of PATH in turn. What stat() in is_cmd finds is an oracle: the set of paths
// whose mode has the S_IFREG bit set ("regular files" below). The candidates are built
// in the static buffer of dup_chars, which find_path hands back.
module PathResolver {
  import opened Base
  import opened StringManipulation1
  import opened OutputBuffers
  import opened ShellUtilities
  import opened EnvManager
  import opened ErrorUtilities

  /** is_cmd: the path is not NULL and stat() finds a mode with the S_IFREG bit there. */
  predicate IsCmd(regular: set<Str>, path: Option<seq<char>>) {
    path.Some? && CStr(path.value) in regular
  }

  const PATH_BUF_SIZE: nat := 1024

  const DOT_SLASH: Str := "./"
  const PATH_VAR: Str := "PATH="
  const BLANKS: Str := " \t\n"
  const NOT_FOUND_MSG: Str := "not found\n"

  /** The static buffer of dup_chars. */
  class PathBuffer {
    const buf: array<char>

    ghost predicate Valid()
      reads this
    {
      buf.Length == PATH_BUF_SIZE
    }

    constructor ()
      ensures Valid() && fresh(buf)
    {
      buf := new char[PATH_BUF_SIZE](_ => NUL);
    }
  }

  // ---------------------------------------------------------------- dup_chars

  /** The characters of s other than ':', in order. */
  function WithoutColons(s: seq<char>): (r: seq<char>)
    ensures |r| <= |s|
  {
    if s == [] then []
    else WithoutColons(s[..|s| - 1]) + (if s[|s| - 1] == ':' then [] else [s[|s| - 1]])
  }

  lemma {:induction false} WithoutColonsAppend(a: seq<char>, b: seq<char>)
    ensures WithoutColons(a + b) == WithoutColons(a) + WithoutColons(b)
    decreases |b|
  {
    if b != [] {
      var b' := b[..|b| - 1];
      assert (a + b)[..|a + b| - 1] == a + b';
      WithoutColonsAppend(a, b');
    } else {
      assert a + b == a;
    }
  }

  /** A text without ':' is kept whole. */
  lemma {:induction false} WithoutColonsKeeps(s: seq<char>)
    requires ':' !in s
    ensures WithoutColons(s) == s
  {
    if s != [] {
      WithoutColonsKeeps(s[..|s| - 1]);
    }
  }

  /**
   * dup_chars: the buffer holds the characters of pathstr[start..stop) other than ':',
   * then a terminator; the bytes after it are untouched.
   */
  method DupChars(pb: PathBuffer, pathstr: seq<char>, start: nat, stop: nat)
    requires pb.Valid() && start <= stop <= |pathstr|
    requires |WithoutColons(pathstr[start..stop])| < PATH_BUF_SIZE
    modifies pb.buf
    ensures var d := WithoutColons(pathstr[start..stop]);
            pb.buf[..] == d + [NUL] + old(pb.buf[..])[|d| + 1..]
  {
    ghost var whole := WithoutColons(pathstr[start..stop]);
    var k := CopyKept(pb, pathstr, start, stop);
    pb.buf[k] := NUL;
    assert pb.buf[..] == whole + [NUL] + old(pb.buf[..])[|whole| + 1..];
  }

  /** The copying loop of dup_chars; k is where the terminator goes. */
  method CopyKept(pb: PathBuffer, pathstr: seq<char>, start: nat, stop: nat) returns (k: nat)
    requires pb.Valid() && start <= stop <= |pathstr|
    requires |WithoutColons(pathstr[start..stop])| < PATH_BUF_SIZE
    modifies pb.buf
    ensures k == |WithoutColons(pathstr[start..stop])|
    ensures forall t :: 0 <= t < k ==> pb.buf[t] == WithoutColons(pathstr[start..stop])[t]
    ensures forall t :: k <= t < PATH_BUF_SIZE ==> pb.buf[t] == old(pb.buf[t])
  {
    ghost var whole := WithoutColons(pathstr[start..stop]);
    ghost var done: seq<char> := [];
    k := 0;
    var i := start;
    while i < stop
      invariant start <= i <= stop && done == WithoutColons(pathstr[start..i])
      invariant k == |done| <= |whole|
      invariant forall t :: 0 <= t < k ==> pb.buf[t] == done[t]
      invariant forall t :: k <= t < PATH_BUF_SIZE ==> pb.buf[t] == old(pb.buf[t])
    {
      DupStep(pathstr, start, i);
      DupBound(pathstr, start, i + 1, stop);
      if pathstr[i] != ':' {
        pb.buf[k] := pathstr[i];
        done := done + [pathstr[i]];
        k := k + 1;
      }
      i := i + 1;
    }
  }

  /** One character more of the range of dup_chars: kept unless it is ':'. */
  lemma DupStep(s: seq<char>, start: nat, i: nat)
    requires start <= i < |s|
    ensures WithoutColons(s[start..i + 1])
            == WithoutColons(s[start..i]) + (if s[i] == ':' then [] else [s[i]])
  {
    assert s[start..i + 1] == s[start..i] + [s[i]];
    WithoutColonsSnoc(s[start..i], s[i]);
  }

  /** The characters kept from a prefix of the range are no more than from all of it. */
  lemma DupBound(s: seq<char>, start: nat, i: nat, stop: nat)
    requires start <= i <= stop <= |s|
    ensures |WithoutColons(s[start..i])| <= |WithoutColons(s[start..stop])|
  {
    assert s[start..stop] == s[start..i] + s[i..stop];
    WithoutColonsPrefix(s[start..i], s[i..stop]);
  }

  lemma WithoutColonsPrefix(a: seq<char>, b: seq<char>)
    ensures |WithoutColons(a)| <= |WithoutColons(a + b)|
  {
    WithoutColonsAppend(a, b);
  }

  lemma WithoutColonsSnoc(a: seq<char>, c: char)
    ensures WithoutColons(a + [c]) == WithoutColons(a) + (if c == ':' then [] else [c])
  {
    assert (a + [c])[..|a|] == a;
  }

  // ---------------------------------------------------------------- find_path

  /** The index of the first ':' of s. */
  function ColonAt(s: seq<char>): (k: nat)
    requires ':' in s
    ensures k < |s| && s[k] == ':' && ':' !in s[..k]
  {
    if s[0] == ':' then 0
    else
      var k := 1 + ColonAt(s[1..]);
      assert s[..k] == [s[0]] + s[1..][..k - 1];
      k
  }

  /** The entries of a PATH value: the pieces between its ':' separators. */
  function Split(p: Str): (r: seq<Str>)
    ensures |r| >= 1
    decreases |p|
  {
    if ':' !in p then [p]
    else
      var k := ColonAt(p);
      [p[..k]] + Split(p[k + 1..])
  }

  /** The entries joined back with ':' between them. */
  function Join(segs: seq<Str>): Str
    requires |segs| >= 1
  {
    if |segs| == 1 then segs[0] else segs[0] + ":" + Join(segs[1..])
  }

  /** Splitting the entries joined with ':' gives the entries back. */
  lemma {:induction false} SplitJoin(segs: seq<Str>)
    requires |segs| >= 1 && forall seg :: seg in segs ==> ':' !in seg
    ensures Split(Join(segs)) == segs
  {
    if |segs| > 1 {
      var p := Join(segs);
      var head := segs[0];
      assert segs[0] in segs;
      assert p[|head|] == ':' && p[..|head|] == head;
      SplitAtColon(p, |head|);
      assert p[|head| + 1..] == Join(segs[1..]);
      assert forall seg :: seg in segs[1..] ==> seg in segs;
      SplitJoin(segs[1..]);
    }
  }

  /** The first ':' of s cuts it into its first entry and the rest. */
  lemma SplitAtColon(s: Str, k: nat)
    requires k < |s| && s[k] == ':' && ':' !in s[..k]
    ensures Split(s) == [s[..k]] + Split(s[k + 1..])
  {
    var c := ColonAt(s);
    assert s[..c + 1][k] == s[k];
  }

  /** The candidate find_path builds from a PATH entry: cmd itself for an empty one. */
  function Candidate(dir: Str, cmd: Str): Str {
    if dir == [] then cmd else dir + "/" + cmd
  }

  /** The first candidate, over the entries in order, that names a regular file. */
  function FirstCmd(regular: set<Str>, segs: seq<Str>, cmd: Str): Option<Str> {
    if segs == [] then None
    else if Candidate(segs[0], cmd) in regular then Some(Candidate(segs[0], cmd))
    else FirstCmd(regular, segs[1..], cmd)
  }

  /**
   * FirstCmd gives the candidate of entry j exactly when it is a regular file and no
   * earlier entry's candidate is one, and nothing when no candidate is.
   */
  lemma {:induction false} FirstCmdMeaning(regular: set<Str>, segs: seq<Str>, cmd: Str)
    ensures var r := FirstCmd(regular, segs, cmd);
            && (r.Some? ==> exists j :: 0 <= j < |segs| && r.value == Candidate(segs[j], cmd) && r.value in regular
                                      && forall i :: 0 <= i < j ==> Candidate(segs[i], cmd) !in regular)
            && (r.None? <==> forall j :: 0 <= j < |segs| ==> Candidate(segs[j], cmd) !in regular)
  {
    if segs != [] && Candidate(segs[0], cmd) !in regular {
      FirstCmdMeaning(regular, segs[1..], cmd);
      assert forall j :: 1 <= j < |segs| ==> segs[j] == segs[1..][j - 1];
      var r := FirstCmd(regular, segs[1..], cmd);
      if r.Some? {
        var j :| 0 <= j < |segs[1..]| && r.value == Candidate(segs[1..][j], cmd) && r.value in regular
                 && forall i :: 0 <= i < j ==> Candidate(segs[1..][i], cmd) !in regular;
        assert r.value == Candidate(segs[j + 1], cmd);
      }
    }
  }

  /**
   * What find_path returns: NULL without PATH; cmd itself when it is longer than two
   * characters, begins with "./" and is a regular file; otherwise the first candidate
   * from the PATH entries that is one, or NULL.
   */
  function FindPathSpec(regular: set<Str>, pathstr: Option<seq<char>>, cmd: seq<char>): Option<Str> {
    if pathstr.None? then None
    else if CLen(cmd) > 2 && StartsWith(cmd, DOT_SLASH).Some? && IsCmd(regular, Some(cmd)) then Some(CStr(cmd))
    else FirstCmd(regular, Split(CStr(pathstr.value)), CStr(cmd))
  }

  /**
   * The candidate of an entry fits in the 1024-byte static buffer of dup_chars with its
   * terminator; building a longer one writes past the end of the buffer.
   */
  predicate Fits(dir: Str, cmd: Str) {
    |Candidate(dir, cmd)| < PATH_BUF_SIZE
  }

  /**
   * Trying the entries in order reaches one whose candidate does not fit before any
   * candidate names a regular file: the entries after a match are never built.
   */
  predicate Overruns(regular: set<Str>, segs: seq<Str>, cmd: Str) {
    && segs != []
    && (|| !Fits(segs[0], cmd)
        || (Candidate(segs[0], cmd) !in regular && Overruns(regular, segs[1..], cmd)))
  }

  /**
   * find_path writes past its static buffer: there is a PATH, the "./" shortcut does not
   * answer, and the scan of the entries overruns.
   */
  predicate FindPathOverruns(regular: set<Str>, pathstr: Option<seq<char>>, cmd: seq<char>) {
    && pathstr.Some?
    && !(CLen(cmd) > 2 && StartsWith(cmd, DOT_SLASH).Some? && IsCmd(regular, Some(cmd)))
    && Overruns(regular, Split(CStr(pathstr.value)), CStr(cmd))
  }

  /** Every entry before j fits and names no regular file: the scan reaches entry j. */
  predicate ClearBefore(regular: set<Str>, segs: seq<Str>, cmd: Str, j: nat)
    requires j <= |segs|
  {
    forall i :: 0 <= i < j ==> Fits(segs[i], cmd) && Candidate(segs[i], cmd) !in regular
  }

  /**
   * The scan overruns exactly when it reaches an entry j whose candidate does not fit.
   */
  lemma OverrunsMeaning(regular: set<Str>, segs: seq<Str>, cmd: Str)
    ensures Overruns(regular, segs, cmd) <==>
              exists j :: 0 <= j < |segs| && !Fits(segs[j], cmd) && ClearBefore(regular, segs, cmd, j)
  {
    if Overruns(regular, segs, cmd) {
      var j := OverrunAt(regular, segs, cmd);
    }
    forall j | 0 <= j < |segs| && !Fits(segs[j], cmd) && ClearBefore(regular, segs, cmd, j)
      ensures Overruns(regular, segs, cmd)
    {
      ReachedOverruns(regular, segs, cmd, j);
    }
  }

  /** The entry where an overrunning scan stops. */
  lemma {:induction false} OverrunAt(regular: set<Str>, segs: seq<Str>, cmd: Str) returns (j: nat)
    requires Overruns(regular, segs, cmd)
    ensures j < |segs| && !Fits(segs[j], cmd) && ClearBefore(regular, segs, cmd, j)
  {
    if !Fits(segs[0], cmd) {
      j := 0;
    } else {
      var k := OverrunAt(regular, segs[1..], cmd);
      j := k + 1;
      assert segs[j] == segs[1..][k];
      forall i | 0 <= i < j ensures Fits(segs[i], cmd) && Candidate(segs[i], cmd) !in regular {
        if i > 0 {
          assert segs[i] == segs[1..][i - 1];
        }
      }
    }
  }

  /** A reached entry that does not fit makes the scan overrun. */
  lemma {:induction false} ReachedOverruns(regular: set<Str>, segs: seq<Str>, cmd: Str, j: nat)
    requires j < |segs| && !Fits(segs[j], cmd) && ClearBefore(regular, segs, cmd, j)
    ensures Overruns(regular, segs, cmd)
    decreases j
  {
    if j > 0 {
      assert forall i :: 0 <= i < j - 1 ==> segs[1..][i] == segs[i + 1];
      ReachedOverruns(regular, segs[1..], cmd, j - 1);
    }
  }

  /**
   * find_path's scan from index i of the PATH value s, the current entry starting at
   * cur: the entry ends at a ':' or at the end, and is tried then.
   */
  function SearchFrom(regular: set<Str>, s: Str, cmd: Str, cur: nat, i: nat): Option<Str>
    requires cur <= i <= |s|
    decreases |s| - i
  {
    if i == |s| then
      if Candidate(s[cur..], cmd) in regular then Some(Candidate(s[cur..], cmd)) else None
    else if s[i] == ':' then
      if Candidate(s[cur..i], cmd) in regular then Some(Candidate(s[cur..i], cmd))
      else SearchFrom(regular, s, cmd, i + 1, i + 1)
    else SearchFrom(regular, s, cmd, cur, i + 1)
  }

  /** The scan from index i reaches an entry whose candidate does not fit. */
  predicate OverrunFrom(regular: set<Str>, s: Str, cmd: Str, cur: nat, i: nat)
    requires cur <= i <= |s|
    decreases |s| - i
  {
    if i == |s| then !Fits(s[cur..], cmd)
    else if s[i] == ':' then
      || !Fits(s[cur..i], cmd)
      || (Candidate(s[cur..i], cmd) !in regular && OverrunFrom(regular, s, cmd, i + 1, i + 1))
    else OverrunFrom(regular, s, cmd, cur, i + 1)
  }

  /** The scan tries the entries of Split in order, and meets only those. */
  lemma {:induction false} SearchFromIsFirst(regular: set<Str>, s: Str, cmd: Str, cur: nat, i: nat)
    requires cur <= i <= |s| && ':' !in s[cur..i]
    ensures SearchFrom(regular, s, cmd, cur, i) == FirstCmd(regular, Split(s[cur..]), cmd)
    ensures OverrunFrom(regular, s, cmd, cur, i) == Overruns(regular, Split(s[cur..]), cmd)
    decreases |s| - i
  {
    if i == |s| {
      assert s[cur..] == s[cur..i];
      assert Split(s[cur..]) == [s[cur..]];
      assert [s[cur..]][1..] == [];
    } else if s[i] == ':' {
      assert s[cur..][..i - cur] == s[cur..i] && s[cur..][i - cur + 1..] == s[i + 1..];
      SplitAtColon(s[cur..], i - cur);
      assert s[i + 1..i + 1] == [];
      SearchFromIsFirst(regular, s, cmd, i + 1, i + 1);
      assert s[i + 1..][..] == s[i + 1..];
      var rest := Split(s[i + 1..]);
      assert ([s[cur..i]] + rest)[1..] == rest;
    } else {
      assert s[cur..i + 1] == s[cur..i] + [s[i]];
      SearchFromIsFirst(regular, s, cmd, cur, i + 1);
    }
  }

  /**
   * find_path: the path FindPathSpec gives (cmd's own string or the buffer's), the
   * candidates built in the static buffer of dup_chars. `overflow` reports the first
   * candidate the scan reaches that does not fit the buffer, where the C program
   * writes past it; the scan stops there.
   */
  method FindPath(pb: PathBuffer, regular: set<Str>, pathstr: Option<seq<char>>, cmd: seq<char>)
      returns (overflow: bool, r: Option<Str>)
    requires pb.Valid()
    modifies pb.buf
    ensures overflow == FindPathOverruns(regular, pathstr, cmd)
    ensures !overflow ==> r == FindPathSpec(regular, pathstr, cmd)
  {
    if pathstr.None? {
      return false, None;
    }
    if CLen(cmd) > 2 && StartsWith(cmd, DOT_SLASH).Some? {
      if IsCmd(regular, Some(cmd)) {
        return false, Some(CStr(cmd));
      }
    }
    var p := pathstr.value;
    ghost var s := CStr(p);
    assert s[0..] == s;
    SearchFromIsFirst(regular, s, CStr(cmd), 0, 0);
    overflow, r := ScanPath(pb, regular, p, cmd);
  }

  /** The loop of find_path over the entries of the PATH value p. */
  method ScanPath(pb: PathBuffer, regular: set<Str>, p: seq<char>, cmd: seq<char>)
      returns (overflow: bool, r: Option<Str>)
    requires pb.Valid()
    modifies pb.buf
    ensures overflow == OverrunFrom(regular, CStr(p), CStr(cmd), 0, 0)
    ensures !overflow ==> r == SearchFrom(regular, CStr(p), CStr(cmd), 0, 0)
  {
    ghost var s, c := CStr(p), CStr(cmd);
    ghost var goal := SearchFrom(regular, s, c, 0, 0);
    ghost var over := OverrunFrom(regular, s, c, 0, 0);
    var n := CLen(cmd);
    var i, cur := 0, 0;
    while true
      invariant cur <= i <= |s| && ':' !in s[cur..i]
      invariant SearchFrom(regular, s, c, cur, i) == goal
      invariant OverrunFrom(regular, s, c, cur, i) == over
      decreases |s| - i
    {
      if At(p, i) == NUL || p[i] == ':' {
        var last := At(p, i) == NUL;
        assert last ==> i == |s|;
        assert !last ==> s[i] == ':';
        EntryEnds(regular, s, c, cur, i);
        CStrSlice(p, cur, i);
        if (if i == cur then n else i - cur + 1 + n) >= PATH_BUF_SIZE {
          return true, None;
        }
        BuildCandidate(pb, p, cur, i, cmd);
        if IsCmd(regular, Some(pb.buf[..])) {
          return false, Some(CStr(pb.buf[..]));
        }
        if last {
          break;
        }
        cur := i + 1;
      } else {
        InsideEntry(regular, s, c, cur, i);
      }
      i := i + 1;
    }
    return false, None;
  }

  /** The scan at the end of an entry: the entry is tried, then the scan goes on after it. */
  lemma EntryEnds(regular: set<Str>, s: Str, cmd: Str, cur: nat, i: nat)
    requires cur <= i <= |s| && (i == |s| || s[i] == ':')
    ensures |Candidate(s[cur..i], cmd)| == if i == cur then |cmd| else i - cur + 1 + |cmd|
    ensures i == |s| ==>
              && OverrunFrom(regular, s, cmd, cur, i) == !Fits(s[cur..i], cmd)
              && SearchFrom(regular, s, cmd, cur, i)
                 == if Candidate(s[cur..i], cmd) in regular then Some(Candidate(s[cur..i], cmd)) else None
    ensures i < |s| ==>
              && OverrunFrom(regular, s, cmd, cur, i)
                 == (|| !Fits(s[cur..i], cmd)
                     || (Candidate(s[cur..i], cmd) !in regular && OverrunFrom(regular, s, cmd, i + 1, i + 1)))
              && SearchFrom(regular, s, cmd, cur, i)
                 == if Candidate(s[cur..i], cmd) in regular then Some(Candidate(s[cur..i], cmd))
                    else SearchFrom(regular, s, cmd, i + 1, i + 1)
  {
    if i == |s| {
      assert s[cur..] == s[cur..i];
    }
  }

  /** The scan inside an entry moves on by one character. */
  lemma InsideEntry(regular: set<Str>, s: Str, cmd: Str, cur: nat, i: nat)
    requires cur <= i < |s| && s[i] != ':' && ':' !in s[cur..i]
    ensures ':' !in s[cur..i + 1]
    ensures SearchFrom(regular, s, cmd, cur, i) == SearchFrom(regular, s, cmd, cur, i + 1)
    ensures OverrunFrom(regular, s, cmd, cur, i) == OverrunFrom(regular, s, cmd, cur, i + 1)
  {
    assert s[cur..i + 1] == s[cur..i] + [s[i]];
  }

  /**
   * One candidate of find_path: dup_chars of the entry p[cur..i), then cmd, or "/" and
   * cmd, appended with _strcat.
   */
  method BuildCandidate(pb: PathBuffer, p: seq<char>, cur: nat, i: nat, cmd: seq<char>)
    requires pb.Valid() && cur <= i <= CLen(p) && ':' !in p[cur..i]
    requires Fits(p[cur..i], CStr(cmd))
    modifies pb.buf
    ensures CStr(pb.buf[..]) == Candidate(p[cur..i], CStr(cmd))
  {
    ghost var seg := p[cur..i];
    CStrSlice(p, cur, i);
    WithoutColonsKeeps(seg);
    FitsBounds(seg, CStr(cmd));
    ghost var m0 := pb.buf[..];
    DupChars(pb, p, cur, i);
    EntryLeft(p, cur, i, pb.buf[..], m0[|seg| + 1..]);
    AppendCommand(pb, p[cur..i], cmd);
  }

  /** What dup_chars leaves for an entry of the PATH string: that entry, terminated. */
  lemma EntryLeft(p: seq<char>, cur: nat, i: nat, m: seq<char>, rest: seq<char>)
    requires cur <= i <= CLen(p) && m == p[cur..i] + [NUL] + rest
    ensures CLen(m) == i - cur && CStr(m) == p[cur..i]
  {
    var seg := p[cur..i];
    forall k | 0 <= k < |seg| ensures seg[k] != NUL {
      assert seg[k] == p[..CLen(p)][cur + k];
    }
    assert m[..|seg|] == seg;
    CLenIs(m, |seg|);
  }

  lemma FitsBounds(dir: Str, cmd: Str)
    requires Fits(dir, cmd)
    ensures |dir| < PATH_BUF_SIZE && |cmd| < PATH_BUF_SIZE
  {
  }

  /** The end of one candidate: cmd after an empty entry, otherwise "/" and cmd. */
  method AppendCommand(pb: PathBuffer, dir: Str, cmd: seq<char>)
    requires pb.Valid() && CLen(pb.buf[..]) == |dir| && CStr(pb.buf[..]) == dir
    requires Fits(dir, CStr(cmd))
    modifies pb.buf
    ensures CStr(pb.buf[..]) == Candidate(dir, CStr(cmd))
  {
    ghost var m0 := pb.buf[..];
    if pb.buf[0] == NUL {
      StrCat(pb.buf, cmd);
      CatResultString(m0, cmd);
    } else {
      SlashNoNul();
      StrCat(pb.buf, "/");
      CatResultString(m0, "/");
      ghost var m1 := pb.buf[..];
      StrCat(pb.buf, cmd);
      CatResultString(m1, cmd);
    }
  }

  lemma SlashNoNul()
    ensures CStr("/") == "/" && CLen("/") == 1
  {
    assert NoNul("/");
    CStrNoNul("/");
  }

  // ---------------------------------------------------------------- find_cmd

  /** The number of characters of s that are not space, tab or newline. */
  function WordChars(s: Str): nat {
    if s == [] then 0
    else WordChars(s[..|s| - 1]) + (if IsDelimiter(s[|s| - 1], BLANKS) then 0 else 1)
  }

  /** A line counts as blank exactly when it holds only spaces, tabs and newlines. */
  lemma {:induction false} WordCharsZero(s: Str)
    requires NoNul(s)
    ensures WordChars(s) == 0 <==> forall t :: 0 <= t < |s| ==> s[t] in BLANKS
  {
    BlankNoNul();
    if s != [] {
      WordCharsZero(s[..|s| - 1]);
      assert forall t :: 0 <= t < |s| - 1 ==> s[..|s| - 1][t] == s[t];
    }
  }

  lemma BlankNoNul()
    ensures CStr(BLANKS) == BLANKS
  {
    assert NoNul(BLANKS);
    CStrNoNul(BLANKS);
  }

  /** How find_cmd ends. */
  datatype Resolution =
    | Blank                 // the line holds nothing but blanks
    | Found(path: Str)      // find_path found the command
    | Fallback              // is_cmd accepts argv[0] as it is
    | NotFound              // status 127 and "not found"
    | NewlineLine           // not found, but the line begins with a newline: nothing said

  /**
   * find_cmd's outcome on the line arg and the command argv0, with the environment,
   * the regular files and whether the shell is interactive.
   */
  function Resolve(arg: Str, argv0: seq<char>, env: seq<Node>, regular: set<Str>, interactive: bool): Resolution {
    if WordChars(CStr(arg)) == 0 then Blank
    else Search(arg, argv0, EnvValue(env, PATH_VAR, 0), regular, interactive)
  }

  /** find_cmd's outcome on a line that is not blank, with the value of PATH. */
  function Search(arg: Str, argv0: seq<char>, pathVar: Option<Str>, regular: set<Str>, interactive: bool): Resolution {
    match FindPathSpec(regular, pathVar, argv0)
    case Some(p) => Found(p)
    case None =>
      if (interactive || pathVar.Some? || At(argv0, 0) == '/') && IsCmd(regular, Some(argv0)) then Fallback
      else if At(arg, 0) != '\n' then NotFound
      else NewlineLine
  }

  /** find_cmd's loop that counts the characters of arg that are not blanks. */
  method CountWordChars(arg: Str) returns (k: nat)
    ensures k == WordChars(CStr(arg))
  {
    ghost var s := CStr(arg);
    k := 0;
    var i := 0;
    while At(arg, i) != NUL
      invariant i <= |s| && k == WordChars(s[..i])
      decreases |s| - i
    {
      assert s[..i + 1][..i] == s[..i];
      if !IsDelimiter(arg[i], BLANKS) {
        k := k + 1;
      }
      i := i + 1;
    }
    assert s[..i] == s;
  }

  /**
   * find_cmd: path is argv[0] unless find_path found something; the deferred line
   * count is taken; a command found nowhere sets status 127 and reports "not found".
   * `overflow` reports that find_path reached a PATH entry whose candidate does not fit
   * its static buffer (CmdOverruns), where the C program writes past it; the search
   * stops there, with argv[0] as the path.
   */
  method FindCmd(info: Info, con: Console, pb: PathBuffer, regular: set<Str>, stdinIsTty: bool)
      returns (overflow: bool, ghost v: Resolution)
    requires con.Valid() && pb.Valid() && |info.argv| >= 1 && info.arg.Some?
    requires pb.buf != con.out.buf && pb.buf != con.err.buf
    modifies info`path, info`line_count, info`linecount_flag, info`status, pb.buf
    modifies con.out, con.out.buf, con.err, con.err.buf
    ensures con.Valid() && con.out.Emitted() == old(con.out.Emitted())
    ensures info.path.Some?
    ensures old(info.linecount_flag) == 1 ==> info.line_count == Inc32(old(info.line_count)) && info.linecount_flag == 0
    ensures old(info.linecount_flag) != 1 ==>
              info.line_count == old(info.line_count) && info.linecount_flag == old(info.linecount_flag)
    ensures overflow == CmdOverruns(old(info.arg.value), old(info.argv[0]), old(info.env.nodes), regular)
    ensures !overflow ==>
              && v == Resolve(old(info.arg.value), old(info.argv[0]), old(info.env.nodes), regular,
                              old(IsInteractive(info, stdinIsTty)))
              && info.path == Some(if v.Found? then v.path else CStr(info.argv[0]))
              && info.status == (if v.NotFound? then 127 else old(info.status))
              && con.err.Emitted() == old(con.err.Emitted())
                   + (if v.NotFound? then ErrorLine(info.fname, info.line_count, info.argv[0], Some(NOT_FOUND_MSG)) else [])
    ensures overflow ==>
              && info.path == Some(CStr(info.argv[0])) && info.status == old(info.status)
              && con.err.Emitted() == old(con.err.Emitted())
  {
    ghost var inter := IsInteractive(info, stdinIsTty);
    info.path := Some(CStr(info.argv[0]));
    TakeLineCount(info);
    assert IsInteractive(info, stdinIsTty) == inter;
    overflow, v := Conclude(info, con, pb, regular, stdinIsTty);
  }

  /** find_cmd after the line count: the search and its report. */
  method Conclude(info: Info, con: Console, pb: PathBuffer, regular: set<Str>, stdinIsTty: bool)
      returns (overflow: bool, ghost v: Resolution)
    requires con.Valid() && pb.Valid() && |info.argv| >= 1 && info.arg.Some?
    requires pb.buf != con.out.buf && pb.buf != con.err.buf && info.path == Some(CStr(info.argv[0]))
    modifies info`path, info`status, pb.buf, con.out, con.out.buf, con.err, con.err.buf
    ensures con.Valid() && con.out.Emitted() == old(con.out.Emitted())
    ensures overflow == CmdOverruns(info.arg.value, info.argv[0], info.env.nodes, regular)
    ensures !overflow ==>
              && v == Resolve(info.arg.value, info.argv[0], info.env.nodes, regular, IsInteractive(info, stdinIsTty))
              && info.path == Some(if v.Found? then v.path else CStr(info.argv[0]))
              && info.status == (if v.NotFound? then 127 else old(info.status))
              && con.err.Emitted() == old(con.err.Emitted())
                   + (if v.NotFound? then ErrorLine(info.fname, info.line_count, info.argv[0], Some(NOT_FOUND_MSG)) else [])
    ensures overflow ==>
              && info.path == Some(CStr(info.argv[0])) && info.status == old(info.status)
              && con.err.Emitted() == old(con.err.Emitted())
  {
    var path, w;
    overflow, path, w := Classify(info, pb, regular, stdinIsTty);
    v := w;
    if !overflow {
      Report(info, con, path, w);
    }
  }

  /** The deferred line count of find_cmd, taken when linecount_flag is 1. */
  method TakeLineCount(info: Info)
    modifies info`line_count, info`linecount_flag
    ensures old(info.linecount_flag) == 1 ==> info.line_count == Inc32(old(info.line_count)) && info.linecount_flag == 0
    ensures old(info.linecount_flag) != 1 ==>
              info.line_count == old(info.line_count) && info.linecount_flag == old(info.linecount_flag)
  {
    if info.linecount_flag == 1 {
      info.line_count := Inc32(info.line_count);
      info.linecount_flag := 0;
    }
  }

  /** The end of find_cmd: keep the path found, or report a command found nowhere. */
  method Report(info: Info, con: Console, path: Option<Str>, v: Resolution)
    requires con.Valid() && |info.argv| >= 1
    modifies info`path, info`status, con.out, con.out.buf, con.err, con.err.buf
    ensures con.Valid() && con.out.Emitted() == old(con.out.Emitted())
    ensures info.path == (if path.Some? then path else old(info.path))
    ensures info.status == (if path.None? && v.NotFound? then 127 else old(info.status))
    ensures con.err.Emitted() == old(con.err.Emitted())
              + (if path.None? && v.NotFound? then ErrorLine(info.fname, info.line_count, info.argv[0], Some(NOT_FOUND_MSG)) else [])
  {
    if path.Some? {
      info.path := path;
    } else if v.NotFound? {
      info.status := 127;
      PrintError(con, info, Some(NOT_FOUND_MSG));
    }
  }

  /**
   * find_cmd writes past the static buffer of dup_chars: the line is not blank and
   * find_path overruns on the value of PATH in the environment.
   */
  predicate CmdOverruns(arg: Str, argv0: seq<char>, env: seq<Node>, regular: set<Str>) {
    WordChars(CStr(arg)) != 0 && FindPathOverruns(regular, EnvValue(env, PATH_VAR, 0), argv0)
  }

  /**
   * The part of find_cmd after the line count, short of its effects: the blank-line
   * check and the search, with the outcome and the path find_path gave.
   */
  method Classify(info: Info, pb: PathBuffer, regular: set<Str>, stdinIsTty: bool)
      returns (overflow: bool, path: Option<Str>, v: Resolution)
    requires pb.Valid() && |info.argv| >= 1 && info.arg.Some?
    modifies pb.buf
    ensures overflow == CmdOverruns(info.arg.value, info.argv[0], info.env.nodes, regular)
    ensures !overflow ==>
              && v == Resolve(info.arg.value, info.argv[0], info.env.nodes, regular, IsInteractive(info, stdinIsTty))
              && path == (if v.Found? then Some(v.path) else None)
  {
    var k := CountWordChars(info.arg.value);
    if k == 0 {
      return false, None, Blank;
    }
    var pathVar := GetEnv(info, PATH_VAR);
    overflow, path, v := SearchCommand(pb, regular, IsInteractive(info, stdinIsTty), info.arg.value, info.argv[0], pathVar);
  }

  /**
   * The part of find_cmd after the blank-line check, with the value of PATH;
   * `overflow` as find_path reports it.
   */
  method SearchCommand(pb: PathBuffer, regular: set<Str>, interactive: bool, arg: Str, argv0: seq<char>,
                       pathVar: Option<Str>) returns (overflow: bool, path: Option<Str>, v: Resolution)
    requires pb.Valid()
    modifies pb.buf
    ensures overflow == FindPathOverruns(regular, pathVar, argv0)
    ensures !overflow ==> v == Search(arg, argv0, pathVar, regular, interactive)
    ensures !overflow ==> path == (if v.Found? then Some(v.path) else None)
  {
    overflow, path := FindPath(pb, regular, pathVar, argv0);
    if overflow {
      return true, None, NotFound;
    }
    if path.Some? {
      v := Found(path.value);
    } else if (interactive || pathVar.Some? || At(argv0, 0) == '/') && IsCmd(regular, Some(argv0)) {
      v := Fallback;
    } else if At(arg, 0) != '\n' {
      v := NotFound;
    } else {
      v := NewlineLine;
    }
  }

  // ---------------------------------------------------------------- properties

  /**
   * An empty PATH entry (here a leading ':') makes the command's own name a candidate:
   * with PATH ":" followed by anything, a regular file named like the command is found
   * before any directory is tried.
   */
  lemma EmptyEntryFindsCommand(regular: set<Str>, dirs: Str, cmd: Str)
    requires NoNul(dirs) && NoNul(cmd) && cmd in regular
    ensures FindPathSpec(regular, Some(":" + dirs), cmd) == Some(cmd)
  {
    var p := ":" + dirs;
    assert NoNul(p);
    CStrNoNul(p);
    CStrNoNul(cmd);
    SplitAtColon(p, 0);
    assert p[..0] == [];
  }

  /** A command found nowhere: every PATH entry and cmd itself fail, and find_path says NULL. */
  lemma NowhereIsNull(regular: set<Str>, pathstr: Str, cmd: Str)
    requires NoNul(pathstr) && NoNul(cmd) && cmd !in regular
    requires forall d :: d in Split(pathstr) ==> Candidate(d, cmd) !in regular
    ensures FindPathSpec(regular, Some(pathstr), cmd) == None
  {
    CStrNoNul(pathstr);
    CStrNoNul(cmd);
    assert forall j :: 0 <= j < |Split(pathstr)| ==> Split(pathstr)[j] in Split(pathstr);
    FirstCmdMeaning(regular, Split(pathstr), cmd);
  }

  /**
   * Entries are tried left to right: with PATH "a:b" where both a/cmd and b/cmd are
   * regular files, a/cmd is found.
   */
  lemma LeftmostEntryWins(regular: set<Str>, a: Str, b: Str, cmd: Str)
    requires a != [] && b != [] && ':' !in a && ':' !in b && NoNul(a) && NoNul(b) && NoNul(cmd)
    requires a + "/" + cmd in regular && !(CLen(cmd) > 2 && StartsWith(cmd, DOT_SLASH).Some? && cmd in regular)
    ensures FindPathSpec(regular, Some(a + ":" + b), cmd) == Some(a + "/" + cmd)
  {
    var p := a + ":" + b;
    assert NoNul(p);
    CStrNoNul(p);
    CStrNoNul(cmd);
    assert a in [a, b] && b in [a, b];
    SplitJoin([a, b]);
    assert Join([a, b]) == p;
  }

  /**
   * Entries after a match are never built: with PATH "a:long", where a/cmd is a regular
   * file that fits the buffer, find_path finds a/cmd without overrunning, however long
   * the second entry is.
   */
  lemma UnreachedEntryIgnored(regular: set<Str>, a: Str, long: Str, cmd: Str)
    requires a != [] && ':' !in a && ':' !in long && NoNul(a) && NoNul(long) && NoNul(cmd)
    requires Fits(a, cmd) && a + "/" + cmd in regular
    requires !(CLen(cmd) > 2 && StartsWith(cmd, DOT_SLASH).Some? && cmd in regular)
    ensures !FindPathOverruns(regular, Some(a + ":" + long), cmd)
    ensures FindPathSpec(regular, Some(a + ":" + long), cmd) == Some(a + "/" + cmd)
  {
    var p := a + ":" + long;
    assert NoNul(p);
    CStrNoNul(p);
    CStrNoNul(cmd);
    assert a in [a, long] && long in [a, long];
    SplitJoin([a, long]);
    assert Join([a, long]) == p;
  }

  /**
   * A first entry whose candidate does not fit overruns the buffer, unless the "./"
   * shortcut answers first.
   */
  lemma FirstEntryTooLong(regular: set<Str>, d: Str, rest: Str, cmd: Str)
    requires ':' !in d && NoNul(d) && NoNul(rest) && NoNul(cmd) && !Fits(d, cmd)
    requires !(CLen(cmd) > 2 && StartsWith(cmd, DOT_SLASH).Some? && cmd in regular)
    ensures FindPathOverruns(regular, Some(d + ":" + rest), cmd)
  {
    var p := d + [':'] + rest;
    NoNulAppend(d, [':']);
    NoNulAppend(d + [':'], rest);
    CStrNoNul(p);
    CStrNoNul(cmd);
    assert p[|d|] == ':' && p[..|d|] == d && p[|d| + 1..] == rest;
    SplitAtColon(p, |d|);
    var segs := Split(CStr(p));
    assert segs != [] && segs[0] == d;
    assert Overruns(regular, segs, CStr(cmd));
  }
}
