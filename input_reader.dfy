// io_handling/input_reader.c: reading a line (_getline over a static buffer filled by
// read_buf), turning it into the chain buffer (input_buf) and handing out one command
// of a ';' / '&&' / '||' chain per call (get_input).
// The statics of these functions are the fields of a LineReader; the descriptors the
// shell reads from are a Source, an oracle that says what each read() returns.
module InputReader {
  import opened Base
  import opened StringManipulation1
  import opened StringManipulation2
  import opened OutputBuffers
  import opened MemoryAllocators
  import opened ErrorUtilities
  import opened HistoryManager
  import opened CommandChaining

  /** What one read() of at most READ_BUF_SIZE bytes can deliver. */
  type Chunk = s: seq<char> | |s| <= READ_BUF_SIZE

  /** The outcome of one read(): -1, or the bytes read (none at end of file). */
  datatype ReadResult = ReadError | Bytes(data: Chunk)

  /** The buffer after a read() delivered x into its start. */
  function ReadInto(m: seq<char>, x: ReadResult): (r: seq<char>)
    requires |m| == READ_BUF_SIZE
    ensures |r| == |m|
  {
    if x.ReadError? then m else x.data + m[|x.data|..]
  }

  /**
   * The descriptors the shell reads from: for each open descriptor, the results of its
   * next read() calls, in order. A descriptor that is not open fails; one whose results
   * are used up is at end of file.
   */
  class Source {
    var streams: map<int, seq<ReadResult>>

    constructor (streams: map<int, seq<ReadResult>>)
      ensures this.streams == streams
    {
      this.streams := streams;
    }

    /** What the next read() on fd returns. */
    function Next(fd: int): ReadResult
      reads this
    {
      if fd !in streams then ReadError
      else if streams[fd] == [] then Bytes([])
      else streams[fd][0]
    }

    /** The number of results left on fd. */
    function Remaining(fd: int): nat
      reads this
    {
      if fd in streams then |streams[fd]| else 0
    }

    /** The streams after one read() on fd. */
    function After(fd: int): (r: map<int, seq<ReadResult>>)
      reads this
      ensures r.Keys == streams.Keys
      ensures forall g :: g in streams && g != fd ==> r[g] == streams[g]
    {
      if fd in streams && streams[fd] != [] then streams[fd := streams[fd][1..]] else streams
    }

    /** read(fd, buf, READ_BUF_SIZE): the next result; its bytes land at the start of buf. */
    method Read(fd: int, buf: array<char>) returns (r: int)
      requires buf.Length == READ_BUF_SIZE
      modifies this, buf
      ensures var x := old(Next(fd));
              && r == (if x.ReadError? then -1 else |x.data|)
              && buf[..] == ReadInto(old(buf[..]), x)
      ensures streams == old(After(fd))
    {
      var x := Next(fd);
      if x.ReadError? {
        streams := After(fd);
        return -1;
      }
      ghost var b0 := buf[..];
      var k := 0;
      while k < |x.data|
        invariant 0 <= k <= |x.data| && streams == old(streams)
        invariant forall t :: 0 <= t < buf.Length ==> buf[t] == if t < k then x.data[t] else b0[t]
      {
        buf[k] := x.data[k];
        k := k + 1;
      }
      assert buf[..] == ReadInto(b0, x);
      streams := After(fd);
      return |x.data|;
    }
  }

  /**
   * The index just past the line _getline takes from m starting at i: one past the
   * first newline of the C string at m[i..], wherever that newline lies, or len when
   * that string holds none.
   */
  function LineEnd(m: seq<char>, i: nat, len: nat): (k: nat)
    requires i <= |m|
    ensures k == len || i < k <= |m|
  {
    match StrChr(m[i..], '\n')
    case Some(c) => i + c + 1
    case None => len
  }

  /** A newline at x, with neither a newline nor a NUL between i and x, ends the line. */
  lemma LineEndFound(m: seq<char>, i: nat, len: nat, x: nat)
    requires i <= x < |m| && m[x] == '\n'
    requires forall t :: i <= t < x ==> m[t] != '\n' && m[t] != NUL
    ensures LineEnd(m, i, len) == x + 1
  {
    var w := m[i..];
    var d := x - i;
    assert NoNul(w[..d]) by {
      forall t | 0 <= t < d ensures w[..d][t] != NUL {
        assert w[..d][t] == m[i + t];
      }
    }
    CLenAtLeast(w, d);
    assert CStr(w)[d] == '\n';
    var c := StrChr(w, '\n');
    assert forall t :: 0 <= t < d ==> w[t] != '\n';
    assert c.value < |w| && w[c.value] == '\n';
  }

  /**
   * The line end does not stop at len: after a 2-byte read of "xy" into a buffer that
   * still holds "cdef\n" from an earlier read, the line runs to that stale newline.
   */
  lemma LineEndPastRead(m: seq<char>)
    requires |m| == READ_BUF_SIZE && m[..7] == "abcdef\n"
    ensures var m' := ReadInto(m, Bytes("xy"));
            m'[..7] == "xycdef\n" && LineEnd(m', 0, 2) == 7
  {
    var m' := ReadInto(m, Bytes("xy"));
    assert m'[..7] == "xycdef\n" by {
      assert m'[..7] == "xy" + m[2..7];
    }
    assert forall t :: 0 <= t < 6 ==> m'[t] == m'[..7][t];
    LineEndFound(m', 0, 2, 6);
  }

  /** The n bytes _strncpy(dest, src, n) writes, for n >= 1: src's string cut, then NULs. */
  ghost function Copied(src: seq<char>, n: nat): seq<char>
    requires n >= 1
  {
    var k := Min(CLen(src), n - 1);
    src[..k] + seq(n - k, _ => NUL)
  }

  /**
   * The block _getline returns for a static buffer m read from i0 with fill len: its
   * length is the line end plus one, s is the number of line bytes (negative when the
   * line end lies before i0), and when s >= 0 its first s + 1 bytes are the copy.
   */
  ghost predicate GotLine(m: seq<char>, i0: nat, len: nat, s: int, b: seq<char>)
    requires i0 <= |m|
  {
    var k := LineEnd(m, i0, len);
    && s == k - i0 && |b| == k + 1
    && (k >= i0 ==> b[..k - i0 + 1] == Copied(m[i0..], k - i0 + 1))
  }

  /**
   * _realloc(NULL, 0, k + 1) and then _strncpy(block, m + i, k - i + 1): a new block
   * of k + 1 bytes, of which the first k - i + 1 are the copy (none for k < i).
   */
  method CopyOut(m: seq<char>, i: nat, k: nat) returns (p: array<char>)
    requires i <= |m| && k <= READ_BUF_SIZE
    ensures fresh(p) && p.Length == k + 1
    ensures k >= i ==> p[..k - i + 1] == Copied(m[i..], k - i + 1)
  {
    var q := Realloc(null, 0, k + 1);
    p := q;
    ghost var p0 := p[..];
    StrNCpy(p, m[i..], k - i + 1);
    if k >= i {
      assert p[..] == NCpyResult(p0, m[i..], k - i + 1);
    }
  }

  /** A block _getline returns holds a terminator just after its s bytes. */
  lemma GotLineEnds(m: seq<char>, i0: nat, len: nat, s: int, b: seq<char>)
    requires i0 <= |m| && GotLine(m, i0, len, s, b) && s >= 0
    ensures s < |b| && b[s] == NUL
  {
    assert b[s] == b[..s + 1][s];
  }

  /** A string ends no later than the first NUL. */
  lemma CLenAtMost(m: seq<char>, k: nat)
    requires k < |m| && m[k] == NUL
    ensures CLen(m) <= k
  {
    assert forall j :: 0 <= j < CLen(m) ==> m[j] == m[..CLen(m)][j];
  }

  /**
   * One _getline call, in terms of the static buffer m0, position ri0 and fill rlen0
   * before it, the next read result x, and what follows: m, ri, rlen, the count s and
   * the block (None for NULL). The buffer is refilled only when it is used up.
   */
  ghost predicate Fetched(m0: seq<char>, ri0: nat, rlen0: nat, x: ReadResult,
                          m: seq<char>, ri: nat, rlen: nat, s: int, got: Option<seq<char>>)
    requires |m0| == READ_BUF_SIZE
  {
    var refill := ri0 == rlen0;
    var i0 := if refill then 0 else ri0;
    && (!refill ==> m == m0 && rlen == rlen0)
    && (refill ==> m == ReadInto(m0, x) && rlen == (if x.ReadError? then 0 else |x.data|))
    && (rlen == 0 ==> s == -1 && got.None? && ri == 0)
    && (rlen != 0 ==> i0 <= |m| && got.Some? && GotLine(m, i0, rlen, s, got.value)
                      && ri == LineEnd(m, i0, rlen))
  }

  /** input_buf's newline strip: the byte before s is cleared when it is a newline. */
  function StripNewline(b: seq<char>, s: nat): (r: seq<char>)
    requires 0 < s <= |b|
    ensures |r| == |b|
  {
    if b[s - 1] == '\n' then b[s - 1 := NUL] else b
  }

  /** The line length after the strip. */
  function StrippedLen(b: seq<char>, s: nat): nat
    requires 0 < s <= |b|
  {
    if b[s - 1] == '\n' then s - 1 else s
  }

  /**
   * A line that ends in a newline inside the buffer comes out whole: _getline counts
   * its bytes with the newline, and after input_buf's strip the chain buffer holds
   * exactly the line's text and its length.
   */
  lemma LineTaken(m: seq<char>, i0: nat, len: nat, s: int, b: seq<char>, x: nat)
    requires i0 <= x < |m| && m[x] == '\n'
    requires forall t :: i0 <= t < x ==> m[t] != '\n' && m[t] != NUL
    requires GotLine(m, i0, len, s, b)
    ensures s == x + 1 - i0 && 0 < s < |b|
    ensures StrippedLen(b, s) == x - i0
    ensures CStr(StripNewline(b, s)) == m[i0..x]
  {
    LineEndFound(m, i0, len, x);
    var w := m[i0..];
    var n := x - i0;
    assert s == n + 1;
    assert NoNul(w[..n]) by {
      forall t | 0 <= t < n ensures w[..n][t] != NUL {
        assert w[..n][t] == m[i0 + t];
      }
    }
    CLenAtLeast(w, n);
    assert b[..n + 2] == w[..n + 1] + [NUL] by {
      var cp := Copied(w, n + 2);
      assert cp == w[..n + 1] + [NUL];
    }
    assert b[n] == '\n' by {
      assert b[n] == b[..n + 2][n];
    }
    var b' := StripNewline(b, s);
    assert b'[..n] == m[i0..x] by {
      assert b' == b[n := NUL];
      assert b'[..n] == b[..n + 2][..n];
      assert w[..n] == m[i0..x];
    }
    CStrTerminated(b', n);
  }

  /**
   * What get_input does with the chain buffer s, holding a line of len bytes, for the
   * command starting at i when the segment before it ended in chain type t and its
   * command left status: the memory left behind, where the next command starts (past
   * len when the line is done) and the chain type recorded.
   */
  datatype ChainStep = ChainStep(mem: seq<char>, next: nat, typ: int)

  function Chain(s: seq<char>, i: nat, len: nat, t: int, status: int): ChainStep
    requires i < len < |s|
  {
    if Skips(t, status) then ChainStep(s[i := NUL], len + 1, t)
    else
      var d := NextDelim(s, i, len);
      if d == len then ChainStep(s, len + 1, t)
      else
        var t' := DelimType(s, d);
        ChainStep(s[d := NUL], d + Advance(t') + 1, t')
  }

  /**
   * The command handed out is the text from i up to the first delimiter (or the end of
   * the string), and is empty when the segment is suppressed; it never spans a
   * delimiter; the next command starts after i; the line's terminator stays.
   */
  lemma ChainCommand(s: seq<char>, i: nat, len: nat, t: int, status: int)
    requires i < len < |s| && s[len] == NUL
    ensures var c := Chain(s, i, len, t, status);
            && |c.mem| == |s| && c.mem[len] == NUL && c.next > i
            && CStr(c.mem[i..]) == (if Skips(t, status) then [] else CStr(s[i..NextDelim(s, i, len)]))
            && forall k :: i <= k < i + CLen(c.mem[i..]) ==> DelimType(s, k) == CMD_NORM
  {
    var c := Chain(s, i, len, t, status);
    if Skips(t, status) {
      SuppressedSegmentEmpty(s, i);
    } else {
      var d := NextDelim(s, i, len);
      assert s[d := NUL] == s || d < len;
      CStrCutAt(s, i, d);
      assert CStr(c.mem[i..]) == CStr(s[i..d]) by {
        if d == len {
          assert s[d := NUL] == s;
        }
      }
      assert CLen(c.mem[i..]) <= d - i;
    }
  }

  /**
   * A comment does not end the chain: remove_comments only writes a NUL over the '#',
   * while get_input keeps scanning up to the line's length, so in "a #;b" the commented
   * text "b" after the ';' is handed out as the next command.
   */
  lemma CommentedCommandRuns()
    ensures var line := CommentsRemoved("a #;b" + [NUL]);
            var c1 := Chain(line, 0, 5, CMD_NORM, 0);
            var c2 := Chain(c1.mem, c1.next, 5, c1.typ, 0);
            && CStr(line) == "a "
            && c1.next == 4 && CStr(c1.mem[0..]) == "a "
            && c2.next == 6 && CStr(c2.mem[4..]) == "b"
  {
    CommentCut();
    var c1 := ChainFirst();
    ChainSecond(c1);
  }

  /** remove_comments on "a #;b": the '#' after the blank becomes the terminator. */
  lemma CommentCut()
    ensures CommentsRemoved("a #;b" + [NUL]) == "a " + [NUL] + ";b" + [NUL]
  {
    var m := "a #;b" + [NUL];
    CStrTerminated(m, 5);
    assert !CommentStart(m, 0) && !CommentStart(m, 1) && CommentStart(m, 2);
    FirstCommentIs(m, 0, 2);
  }

  /** The first chain step over the line remove_comments left: "a " up to the ';'. */
  lemma ChainFirst() returns (c1: ChainStep)
    ensures var line := "a " + [NUL] + ";b" + [NUL];
            && c1 == Chain(line, 0, 5, CMD_NORM, 0) && CStr(line) == "a "
            && c1.next == 4 && c1.typ == CMD_CHAIN && CStr(c1.mem[0..]) == "a "
            && c1.mem == "a " + [NUL] + [NUL] + "b" + [NUL]
  {
    var line := "a " + [NUL] + ";b" + [NUL];
    CStrTerminated(line, 2);
    assert DelimType(line, 0) == CMD_NORM && DelimType(line, 1) == CMD_NORM;
    assert DelimType(line, 2) == CMD_NORM && DelimType(line, 3) == CMD_CHAIN;
    NextDelimIs(line, 0, 5, 3);
    c1 := Chain(line, 0, 5, CMD_NORM, 0);
    assert c1.mem == "a " + [NUL] + [NUL] + "b" + [NUL];
    CStrTerminated(c1.mem, 2);
  }

  /** The second chain step: the text after the ';' is handed out whole. */
  lemma ChainSecond(c1: ChainStep)
    requires c1.next == 4 && c1.typ == CMD_CHAIN && c1.mem == "a " + [NUL] + [NUL] + "b" + [NUL]
    ensures var c2 := Chain(c1.mem, c1.next, 5, c1.typ, 0);
            c2.next == 6 && CStr(c2.mem[4..]) == "b"
  {
    assert !Skips(CMD_CHAIN, 0);
    assert DelimType(c1.mem, 4) == CMD_NORM;
    NextDelimIs(c1.mem, 4, 5, 5);
    assert c1.mem[4..] == "b" + [NUL];
    CStrTerminated(c1.mem[4..], 1);
  }

  /**
   * The line "a;exit": the first step hands out "a" and leaves the chain pending at 2,
   * so the next turn starts with a chain pending (with cmd_buf_type back at CMD_NORM)
   * and hands out "exit" from position 2 of the chain buffer, ending the chain.
   */
  lemma SemicolonExitResumes(status: int)
    ensures var line := "a;exit" + [NUL];
            var c1 := Chain(line, 0, 6, CMD_NORM, status);
            var c2 := Chain(c1.mem, c1.next, 6, CMD_NORM, status);
            && c1.next == 2 && CStr(c1.mem[0..]) == "a"
            && c2.next >= 6 && CStr(c2.mem[2..]) == "exit"
  {
    var line := "a;exit" + [NUL];
    assert DelimType(line, 0) == CMD_NORM && DelimType(line, 1) == CMD_CHAIN;
    NextDelimIs(line, 0, 6, 1);
    var c1 := Chain(line, 0, 6, CMD_NORM, status);
    assert c1.mem == "a" + [NUL] + "exit" + [NUL];
    CStrTerminated(c1.mem, 1);
    forall k | 2 <= k < 6
      ensures DelimType(c1.mem, k) == CMD_NORM
    {
    }
    NextDelimIs(c1.mem, 2, 6, 6);
    assert c1.mem[2..] == "exit" + [NUL];
    CStrTerminated(c1.mem[2..], 4);
  }

  /** Lexicographic descent of two measures. */
  predicate Below2(a: nat, b: nat, a0: nat, b0: nat) {
    a < a0 || (a == a0 && b < b0)
  }

  /** Lexicographic descent of three measures. */
  predicate Below3(a: nat, b: nat, c: nat, a0: nat, b0: nat, c0: nat) {
    a < a0 || (a == a0 && Below2(b, c, b0, c0))
  }

  /**
   * get_input's step as it leaves the chain buffer: the memory, the next command's
   * position and length (both 0 with the type reset to CMD_NORM once the line is
   * done), info->arg pointing at the command and the result its length.
   */
  ghost predicate Stepped(line: seq<char>, i: nat, len: nat, t: int, status: int,
                          mem: seq<char>, ci: nat, clen: nat, typ: int, arg: Option<Str>, r: int)
    requires i < len < |line|
  {
    var c := Chain(line, i, len, t, status);
    && mem == c.mem && arg == Some(c.mem[i..]) && r == CLen(c.mem[i..])
    && (if c.next >= len then ci == 0 && clen == 0 && typ == CMD_NORM
        else ci == c.next && clen == len && typ == c.typ)
  }

  /**
   * What get_input hands out after _getline returned the block got with s bytes
   * (s != -1): for s <= 0 the block itself; otherwise the stripped, comment-cut line
   * is appended to the history h0 under number hc, and is handed out whole when it
   * is empty, or else as the first command of its chain.
   */
  ghost predicate Handed(s: int, got: seq<char>, h0: seq<Node>, hc: int, t: int, status: int,
                         h: seq<Node>, mem: seq<char>, ci: nat, clen: nat, typ: int,
                         arg: Option<Str>, r: int)
  {
    if s <= 0 then r == s && arg == Some(got) && mem == got && clen == 0 && h == h0
    else
      && s < |got|
      && var line := CommentsRemoved(StripNewline(got, s));
         var n := StrippedLen(got, s);
         && |line| == |got|
         && h == h0 + [Node(hc, CStr(line))]
         && (n == 0 ==> arg == Some(line) && mem == line && r == 0 && clen == 0)
         && (n > 0 ==> Stepped(line, 0, n, t, status, mem, ci, clen, typ, arg, r))
  }

  /** The statics of _getline and get_input. */
  class LineReader {
    /** get_input's `buf`: the chain buffer, NULL before the first line. */
    var cbuf: array?<char>
    /** get_input's `i`: where the next command of the chain starts. */
    var ci: nat
    /** get_input's `len`: the length of the line in the chain buffer, 0 when it is done. */
    var clen: nat
    /** _getline's `buf`. */
    const rbuf: array<char>
    /** _getline's `i`: how far the static buffer has been handed out. */
    var ri: nat
    /** _getline's `len`: how many bytes the last read put into the static buffer. */
    var rlen: nat

    ghost predicate Valid()
      reads this, cbuf
    {
      && rbuf.Length == READ_BUF_SIZE && ri <= READ_BUF_SIZE && rlen <= READ_BUF_SIZE
      && (rlen == 0 ==> ri == 0)
      && (clen == 0 ==> ci == 0)
      && (clen != 0 ==> cbuf != null && ci < clen < cbuf.Length && cbuf[clen] == NUL)
      && cbuf != rbuf
    }

    /** Statics start out zero. */
    constructor ()
      ensures Valid() && fresh(rbuf) && cbuf == null
      ensures ci == 0 && clen == 0 && ri == 0 && rlen == 0
    {
      cbuf, ci, clen := null, 0, 0;
      rbuf := new char[READ_BUF_SIZE](_ => NUL);
      ri, rlen := 0, 0;
    }

    /** Decreases whenever _getline hands out bytes without reading. */
    ghost function ReadRank(): nat
      requires ri <= READ_BUF_SIZE
      reads this`ri, this`rlen
    {
      if ri == rlen then 0 else 2 * READ_BUF_SIZE + 1 - ri
    }

    /** Decreases whenever get_input hands out a command of the chain buffer. */
    ghost function ChainRank(): nat
      requires Valid()
      reads this, cbuf
    {
      if clen == 0 then 0 else clen - ci + 1
    }

    /** read_buf: reads only when the static buffer is empty; a failed read leaves len 0. */
    method ReadBuf(info: Info, src: Source) returns (r: int)
      requires Valid()
      modifies this`rlen, rbuf, src
      ensures Valid()
      ensures old(rlen) != 0 ==>
                r == 0 && rlen == old(rlen) && rbuf[..] == old(rbuf[..]) && src.streams == old(src.streams)
      ensures old(rlen) == 0 ==>
                var x := old(src.Next(info.readfd));
                && r == (if x.ReadError? then -1 else |x.data|)
                && rbuf[..] == ReadInto(old(rbuf[..]), x)
                && rlen == (if x.ReadError? then 0 else |x.data|)
                && src.streams == old(src.After(info.readfd))
    {
      if rlen != 0 {
        return 0;
      }
      r := src.Read(info.readfd, rbuf);
      if r >= 0 {
        rlen := r;
      }
    }

    /**
     * _getline called with *ptr NULL: refills the static buffer once it is used up,
     * returns -1 at end of file or on a read error, and otherwise a new block holding
     * the bytes up to the line end, with their count.
     */
    method GetLine(info: Info, src: Source) returns (s: int, block: array?<char>)
      requires Valid()
      modifies this`ri, this`rlen, rbuf, src
      ensures Valid()
      ensures Fetched(old(rbuf[..]), old(ri), old(rlen), old(src.Next(info.readfd)),
                      rbuf[..], ri, rlen, s, if block == null then None else Some(block[..]))
      ensures src.streams == if old(ri) == old(rlen) then old(src.After(info.readfd)) else old(src.streams)
      ensures block != null ==> fresh(block)
      ensures s != -1 ==> block != null
      ensures s != -1 ==> Below2(src.Remaining(info.readfd), ReadRank(),
                                 old(src.Remaining(info.readfd)), old(ReadRank()))
    {
      if ri == rlen {
        ri, rlen := 0, 0;
      }
      var r := ReadBuf(info, src);
      if r == -1 || (r == 0 && rlen == 0) {
        return -1, null;
      }
      s, block := TakeLine();
    }

    /** The copy half of _getline: the bytes from i up to the line end go to a new block. */
    method TakeLine() returns (s: int, block: array<char>)
      requires Valid() && rlen != 0
      modifies this`ri
      ensures ri <= READ_BUF_SIZE && fresh(block)
      ensures GotLine(rbuf[..], old(ri), rlen, s, block[..]) && ri == LineEnd(rbuf[..], old(ri), rlen)
      ensures ri == rlen || ri > old(ri)
    {
      var m := rbuf[..];
      var k := LineEnd(m, ri, rlen);
      block := CopyOut(m, ri, k);
      s := k - ri;
      ri := k;
    }

    /**
     * input_buf: when the chain buffer is done, reads a new line into it (the previous
     * block is released), strips its newline, cuts its comment, appends it to the
     * history and makes it the chain; otherwise changes nothing and returns 0.
     */
    method InputBuf(info: Info, src: Source) returns (r: int, ghost s: int, ghost got: Option<seq<char>>)
      requires Valid() && info.Valid()
      modifies this, rbuf, src, info`linecount_flag, info`histcount, info`cmd_buf, info.history
      ensures Valid()
      ensures cbuf == old(cbuf) || cbuf == null || fresh(cbuf)
      ensures old(clen) != 0 ==>
                && r == 0 && unchanged(this) && unchanged(rbuf) && unchanged(src)
                && unchanged(info) && unchanged(info.history)
      ensures old(clen) == 0 ==>
                && ci == 0
                && Fetched(old(rbuf[..]), old(ri), old(rlen), old(src.Next(info.readfd)),
                           rbuf[..], ri, rlen, s, got)
                && src.streams == (if old(ri) == old(rlen) then old(src.After(info.readfd)) else old(src.streams))
                && (s == -1 ==> r == -1 && clen == 0 && unchanged(info) && unchanged(info.history))
                && (s != -1 ==> got.Some? && s < |got.value| && cbuf != null && fresh(cbuf))
                && (s != -1 && s <= 0 ==>
                      r == s && clen == 0 && cbuf[..] == got.value
                      && unchanged(info) && unchanged(info.history))
                && (s > 0 ==>
                      var line := CommentsRemoved(StripNewline(got.value, s));
                      && cbuf[..] == line && r == StrippedLen(got.value, s) && clen == r
                      && info.history.nodes == old(info.history.nodes) + [Node(old(info.histcount), CStr(line))]
                      && info.histcount == old(info.histcount) + 1
                      && info.linecount_flag == 1 && info.cmd_buf)
      ensures old(clen) == 0 && r != -1 ==>
                Below2(src.Remaining(info.readfd), ReadRank(), old(src.Remaining(info.readfd)), old(ReadRank()))
    {
      r, s, got := 0, 0, None;
      if clen != 0 {
        return;
      }
      r, s, got := InputLine(info, src);
    }

    /** input_buf once the chain buffer is done: the block of a fresh _getline replaces it. */
    method InputLine(info: Info, src: Source) returns (r: int, ghost s: int, ghost got: Option<seq<char>>)
      requires Valid() && info.Valid() && clen == 0
      modifies this, rbuf, src, info`linecount_flag, info`histcount, info`cmd_buf, info.history
      ensures Valid()
      ensures cbuf == null || fresh(cbuf)
      ensures && ci == 0
              && Fetched(old(rbuf[..]), old(ri), old(rlen), old(src.Next(info.readfd)),
                         rbuf[..], ri, rlen, s, got)
              && src.streams == (if old(ri) == old(rlen) then old(src.After(info.readfd)) else old(src.streams))
              && (s == -1 ==> r == -1 && clen == 0 && unchanged(info) && unchanged(info.history))
              && (s != -1 ==> got.Some? && s < |got.value| && cbuf != null && fresh(cbuf))
              && (s != -1 && s <= 0 ==>
                    r == s && clen == 0 && cbuf[..] == got.value
                    && unchanged(info) && unchanged(info.history))
              && (s > 0 ==>
                    var line := CommentsRemoved(StripNewline(got.value, s));
                    && cbuf[..] == line && r == StrippedLen(got.value, s) && clen == r
                    && info.history.nodes == old(info.history.nodes) + [Node(old(info.histcount), CStr(line))]
                    && info.histcount == old(info.histcount) + 1
                    && info.linecount_flag == 1 && info.cmd_buf)
      ensures r != -1 ==>
                Below2(src.Remaining(info.readfd), ReadRank(), old(src.Remaining(info.readfd)), old(ReadRank()))
    {
      cbuf := null;
      var block;
      r, block := GetLine(info, src);
      s := r;
      got := if block == null then None else Some(block[..]);
      cbuf := block;
      if r > 0 {
        ghost var m1 := rbuf[..];
        GotLineEnds(m1, if old(ri) == old(rlen) then 0 else old(ri), rlen, s, got.value);
        r := AcceptLine(info, r);
        assert rbuf[..] == m1;
      }
    }

    /**
     * The rest of input_buf for a line of s > 0 bytes in the chain buffer: strip the
     * newline, cut the comment, record the line in the history, start the chain.
     */
    method AcceptLine(info: Info, s: int) returns (r: int)
      requires Valid() && clen == 0 && cbuf != null && 0 < s < cbuf.Length && cbuf[s] == NUL
      modifies this`clen, cbuf, info`linecount_flag, info`histcount, info`cmd_buf, info.history
      ensures Valid()
      ensures var line := CommentsRemoved(StripNewline(old(cbuf[..]), s));
              && cbuf[..] == line && r == StrippedLen(old(cbuf[..]), s) && clen == r
              && info.history.nodes == old(info.history.nodes) + [Node(old(info.histcount), CStr(line))]
              && info.histcount == old(info.histcount) + 1
              && info.linecount_flag == 1 && info.cmd_buf
    {
      var block := cbuf;
      r := s;
      if block[r - 1] == '\n' {
        block[r - 1] := NUL;
        r := r - 1;
      }
      ghost var stripped := block[..];
      assert stripped == StripNewline(old(cbuf[..]), s);
      info.linecount_flag := 1;
      CLenAtMost(block[..], s);
      RemoveComments(block);
      CommentsRemovedString(stripped);
      assert block[r] == NUL by {
        assert stripped[r] == NUL;
      }
      var _ := BuildHistoryList(info, block[..], info.histcount);
      info.histcount := info.histcount + 1;
      clen := r;
      info.cmd_buf := true;
    }

    /**
     * get_input with commands left in the chain buffer: check_chain may suppress the
     * rest of the line, then the scan stops at the first delimiter before len, and the
     * command from i is handed out in info->arg; once past len the chain is done.
     */
    method NextCommand(info: Info) returns (r: int)
      requires Valid() && clen != 0
      modifies this`ci, this`clen, cbuf, info`arg, info`arg_at, info`cmd_buf_type
      ensures Valid() && info.arg_at == old(ci)
      ensures Stepped(old(cbuf[..]), old(ci), old(clen), old(info.cmd_buf_type), info.status,
                      cbuf[..], ci, clen, info.cmd_buf_type, info.arg, r)
      ensures ChainRank() < old(ChainRank())
    {
      var buf := cbuf;
      var len := clen;
      var i := ci;
      ghost var s0 := buf[..];
      ghost var t0 := info.cmd_buf_type;
      ghost var skip := Skips(t0, info.status);
      ghost var d := NextDelim(s0, i, len);
      var j := CheckChain(info, buf, i, i, len);
      ghost var s1 := buf[..];
      while j < len
        invariant buf[..] == s1 && info.cmd_buf_type == t0 && clen == len && ci == i
        invariant skip ==> j == len
        invariant !skip ==> s1 == s0 && i <= j <= d
        decreases len - j
      {
        var isC, q := IsChain(info, buf, j);
        if isC == 1 {
          assert !skip && j == d;
          j := q;
          break;
        }
        j := j + 1;
      }
      ghost var c := Chain(s0, i, len, t0, info.status);
      assert buf[..] == c.mem && j + 1 == c.next && (c.next < len ==> info.cmd_buf_type == c.typ);
      ci := j + 1;
      if ci >= len {
        ci, clen := 0, 0;
        info.cmd_buf_type := CMD_NORM;
      }
      info.arg := Some(buf[i..]);
      info.arg_at := i;
      r := CLen(buf[i..]);
    }

    /**
     * get_input: flushes standard output, then reads and hands out the next command
     * (ReadCommand states which); -1 only at end of input, and every other call makes
     * progress.
     */
    method GetInput(info: Info, src: Source, con: Console) returns (r: int, ghost s: int, ghost got: Option<seq<char>>)
      requires Valid() && info.Valid() && con.Valid()
      requires rbuf != con.out.buf && cbuf != con.out.buf
      modifies this, rbuf, if cbuf == null then {} else {cbuf}, src
      modifies info`arg, info`arg_at, info`linecount_flag, info`histcount, info`cmd_buf, info`cmd_buf_type, info.history
      modifies con.out, con.out.buf
      ensures Valid() && info.Valid() && con.Valid() && cbuf != con.out.buf
      ensures cbuf == old(cbuf) || cbuf == null || fresh(cbuf)
      ensures con.out.Emitted() == old(con.out.Emitted()) && info.readfd == old(info.readfd)
      ensures r == -1 ==> old(clen) == 0 && clen == 0 && info.arg == old(info.arg)
      ensures r != -1 ==> info.arg_at == old(ci) && (old(ci) > 0 ==> info.cmd_buf == old(info.cmd_buf))
      ensures r != -1 ==>
                && info.arg.Some?
                && Below3(src.Remaining(info.readfd), ReadRank(), ChainRank(),
                          old(src.Remaining(info.readfd)), old(ReadRank()), old(ChainRank()))
    {
      ghost var left, rank, chain := src.Remaining(info.readfd), ReadRank(), ChainRank();
      var _ := PutChar(con, Flush);
      assert src.Remaining(info.readfd) == left && ReadRank() == rank && ChainRank() == chain;
      r, s, got := ReadNext(info, src);
    }

    /**
     * What get_input passes on from ReadCommand: the buffers stay consistent, -1 leaves
     * arg as it was with no chain pending, and any other result hands out a command and
     * makes progress.
     */
    method ReadNext(info: Info, src: Source) returns (r: int, ghost s: int, ghost got: Option<seq<char>>)
      requires Valid() && info.Valid()
      modifies this, rbuf, if cbuf == null then {} else {cbuf}, src
      modifies info`arg, info`arg_at, info`linecount_flag, info`histcount, info`cmd_buf, info`cmd_buf_type, info.history
      ensures Valid() && info.Valid()
      ensures cbuf == old(cbuf) || cbuf == null || fresh(cbuf)
      ensures r == -1 ==> old(clen) == 0 && clen == 0 && info.arg == old(info.arg)
      ensures r != -1 ==> info.arg_at == old(ci) && (old(ci) > 0 ==> info.cmd_buf == old(info.cmd_buf))
      ensures r != -1 ==>
                && info.arg.Some?
                && Below3(src.Remaining(info.readfd), ReadRank(), ChainRank(),
                          old(src.Remaining(info.readfd)), old(ReadRank()), old(ChainRank()))
    {
      r, s, got := ReadCommand(info, src);
    }

    /**
     * get_input after the flush: input_buf reads a line when the chain is done, and
     * the next command is handed out: from the chain buffer when it holds a line of
     * positive length, otherwise the block _getline returned, whole. -1 only when
     * _getline gives -1; every other call makes progress (it consumes a read, hands
     * out bytes of the static buffer, or moves along the chain).
     */
    method ReadCommand(info: Info, src: Source) returns (r: int, ghost s: int, ghost got: Option<seq<char>>)
      requires Valid() && info.Valid()
      modifies this, rbuf, if cbuf == null then {} else {cbuf}, src
      modifies info`arg, info`arg_at, info`linecount_flag, info`histcount, info`cmd_buf, info`cmd_buf_type, info.history
      ensures Valid() && info.Valid()
      ensures cbuf == old(cbuf) || cbuf == null || fresh(cbuf)
      ensures r == -1 ==> old(clen) == 0 && clen == 0 && info.arg == old(info.arg)
      ensures r != -1 ==>
                && info.arg.Some? && info.arg_at == old(ci)
                && Below3(src.Remaining(info.readfd), ReadRank(), ChainRank(),
                          old(src.Remaining(info.readfd)), old(ReadRank()), old(ChainRank()))
      ensures old(clen) != 0 ==>
                && cbuf == old(cbuf)
                && Stepped(old(cbuf[..]), old(ci), old(clen), old(info.cmd_buf_type), info.status,
                           cbuf[..], ci, clen, info.cmd_buf_type, info.arg, r)
                && ri == old(ri) && rlen == old(rlen) && unchanged(rbuf) && unchanged(src)
                && unchanged(info.history) && info.histcount == old(info.histcount) && info.cmd_buf == old(info.cmd_buf)
      ensures old(clen) == 0 ==>
                && Fetched(old(rbuf[..]), old(ri), old(rlen), old(src.Next(info.readfd)),
                           rbuf[..], ri, rlen, s, got)
                && src.streams == (if old(ri) == old(rlen) then old(src.After(info.readfd)) else old(src.streams))
                && (s != -1 ==>
                      got.Some? && cbuf != null
                      && Handed(s, got.value, old(info.history.nodes), old(info.histcount),
                                old(info.cmd_buf_type), info.status, info.history.nodes,
                                cbuf[..], ci, clen, info.cmd_buf_type, info.arg, r))
    {
      r, s, got := InputBuf(info, src);
      if r == -1 {
        return;
      }
      r := HandOut(info, r);
    }

    /**
     * The end of get_input once input_buf returned r0 (not -1): the next command of the
     * chain while the chain buffer holds a line, otherwise the whole block with r0.
     */
    method HandOut(info: Info, r0: int) returns (r: int)
      requires Valid() && (clen == 0 ==> cbuf != null)
      modifies this`ci, this`clen, cbuf, info`arg, info`arg_at, info`cmd_buf_type
      ensures Valid() && cbuf == old(cbuf) && info.cmd_buf == old(info.cmd_buf) && info.arg_at == old(ci)
      ensures old(clen) != 0 ==>
                && Stepped(old(cbuf[..]), old(ci), old(clen), old(info.cmd_buf_type), info.status,
                           cbuf[..], ci, clen, info.cmd_buf_type, info.arg, r)
                && ChainRank() < old(ChainRank())
      ensures old(clen) == 0 ==>
                && r == r0 && info.arg == Some(cbuf[..]) && cbuf[..] == old(cbuf[..])
                && ci == 0 && clen == 0 && info.cmd_buf_type == old(info.cmd_buf_type)
    {
      if clen != 0 {
        r := NextCommand(info);
        return;
      }
      info.arg := Some(cbuf[..]);
      info.arg_at := 0;
      r := r0;
    }
  }

  /** sigintHandler: a fresh prompt on a new line, flushed. */
  method SigintHandler(con: Console)
    requires con.Valid()
    modifies con.out, con.out.buf
    ensures con.Valid()
    ensures con.out.Emitted() == old(con.out.Emitted()) + "\n$ "
  {
    assert NUL !in "\n" && NUL !in "$ ";
    CStrNoNul("\n");
    CStrNoNul("$ ");
    Puts(con, Some("\n"));
    Puts(con, Some("$ "));
    var _ := PutChar(con, Flush);
  }
}
