// error_handling/error_reporter.c: printing to standard error and to an arbitrary
// descriptor through the buffered writers.
module ErrorReporter {
  import opened Base
  import opened StringManipulation1
  import opened OutputBuffers

  /**
   * _eputs: each character of a non-NULL string is passed to _eputchar in order;
   * nothing is done for NULL.
   */
  method EPuts(con: Console, str: Option<seq<char>>)
    requires con.Valid()
    modifies con.err, con.err.buf
    ensures con.Valid()
    ensures con.err.Emitted() == old(con.err.Emitted()) + (if str.None? then [] else CStr(str.value))
  {
    if str.None? {
      return;
    }
    var s := str.value;
    var i := 0;
    while At(s, i) != NUL
      invariant 0 <= i <= CLen(s) && con.Valid()
      invariant con.err.Emitted() == old(con.err.Emitted()) + s[..i]
      decreases CLen(s) - i
    {
      var _ := EPutChar(con, Ch(s[i]));
      assert s[..i + 1] == s[..i] + [s[i]];
      i := i + 1;
    }
  }

  /** _eputchar: the standard-error writer (descriptor 2). */
  method EPutChar(con: Console, c: OutChar) returns (r: int)
    requires con.Valid()
    modifies con.err, con.err.buf
    ensures con.Valid() && r == 1
    ensures con.err.Emitted() == old(con.err.Emitted()) + (if c.Ch? then [c.c] else [])
    ensures var flush := c.Flush? || old(con.err.i) >= WRITE_BUF_SIZE;
            con.err.log == old(con.err.log) + (if flush then [Write(2, old(con.err.Pending()))] else [])
  {
    r := con.err.Put(c, 2);
  }

  /**
   * _putfd: one buffer shared by every descriptor; a flush writes everything buffered,
   * whichever descriptors it was put for, to the descriptor of the flushing call.
   */
  method PutFd(con: Console, c: OutChar, fd: int) returns (r: int)
    requires con.Valid()
    modifies con.fdw, con.fdw.buf
    ensures con.Valid() && r == 1 && WritesTo(old(con.fdw.log), con.fdw.log, fd)
    ensures con.fdw.Emitted() == old(con.fdw.Emitted()) + (if c.Ch? then [c.c] else [])
    ensures var flush := c.Flush? || old(con.fdw.i) >= WRITE_BUF_SIZE;
            && con.fdw.log == old(con.fdw.log) + (if flush then [Write(fd, old(con.fdw.Pending()))] else [])
            && con.fdw.Pending() == (if flush then [] else old(con.fdw.Pending())) + (if c.Ch? then [c.c] else [])
  {
    r := con.fdw.Put(c, fd);
  }

  /** _putsfd: 0 for NULL; otherwise the string goes to _putfd and its length is returned. */
  method PutsFd(con: Console, str: Option<seq<char>>, fd: int) returns (n: int)
    requires con.Valid()
    modifies con.fdw, con.fdw.buf
    ensures con.Valid()
    ensures n == StrLen(str) && WritesTo(old(con.fdw.log), con.fdw.log, fd)
    ensures con.fdw.Emitted() == old(con.fdw.Emitted()) + (if str.None? then [] else CStr(str.value))
  {
    if str.None? {
      return 0;
    }
    var s := str.value;
    n := 0;
    while At(s, n) != NUL
      invariant 0 <= n <= CLen(s) && con.Valid()
      invariant con.fdw.Emitted() == old(con.fdw.Emitted()) + s[..n]
      invariant WritesTo(old(con.fdw.log), con.fdw.log, fd)
      decreases CLen(s) - n
    {
      ghost var log0 := con.fdw.log;
      var one := PutFd(con, Ch(s[n]), fd);
      WritesToTrans(old(con.fdw.log), log0, con.fdw.log, fd);
      assert s[..n + 1] == s[..n] + [s[n]];
      n := n + one;
    }
  }
}
