// The fixed-size buffered writers behind _putchar, _eputchar and _putfd
// (string_operations/string_manipulation2.c and error_handling/error_reporter.c).
// Each keeps a static buffer of WRITE_BUF_SIZE bytes and a static index; write()
// is recorded in a ghost log instead of being performed.
module OutputBuffers {
  import opened Base

  /** The argument of a buffered writer: a character, or BUF_FLUSH. */
  datatype OutChar = Flush | Ch(c: char)

  /** One write(fd, buf, n) call. */
  datatype Write = Write(fd: int, bytes: seq<char>)

  /** The bytes handed to write(), in order, whatever the descriptor. */
  function Written(log: seq<Write>): seq<char> {
    if log == [] then [] else Written(log[..|log| - 1]) + log[|log| - 1].bytes
  }

  /** after extends the log before with write() calls on fd only. */
  predicate WritesTo(before: seq<Write>, after: seq<Write>, fd: int) {
    && |before| <= |after| && after[..|before|] == before
    && forall j :: |before| <= j < |after| ==> after[j].fd == fd
  }

  /** Write calls on fd after write calls on fd are write calls on fd. */
  lemma WritesToTrans(a: seq<Write>, b: seq<Write>, c: seq<Write>, fd: int)
    requires WritesTo(a, b, fd) && WritesTo(b, c, fd)
    ensures WritesTo(a, c, fd)
  {
    assert c[..|a|] == c[..|b|][..|a|];
  }

  /** The static buffer and index of one buffered writer. */
  class Writer {
    const buf: array<char>
    var i: int
    /** The write() calls made so far. */
    ghost var log: seq<Write>

    ghost predicate Valid()
      reads this
    {
      buf.Length == WRITE_BUF_SIZE && 0 <= i <= WRITE_BUF_SIZE
    }

    /** The bytes buffered and not yet written. */
    ghost function Pending(): seq<char>
      reads this, buf
      requires Valid()
    {
      buf[..i]
    }

    /** Everything passed to the writer so far: what was written, then what is pending. */
    ghost function Emitted(): seq<char>
      reads this, buf
      requires Valid()
    {
      Written(log) + Pending()
    }

    /** The zero-initialised statics. */
    constructor ()
      ensures Valid() && fresh(buf) && i == 0 && log == []
    {
      buf := new char[WRITE_BUF_SIZE](_ => NUL);
      i := 0;
      log := [];
    }

    /**
     * One call of the writer: on BUF_FLUSH or a full buffer, write the i buffered bytes
     * to fd and reset the index; then store a character at the index. Always 1.
     */
    method Put(c: OutChar, fd: int) returns (r: int)
      requires Valid()
      modifies this`i, this`log, buf
      ensures Valid() && r == 1
      ensures var flush := c.Flush? || old(i) >= WRITE_BUF_SIZE;
              && log == old(log) + (if flush then [Write(fd, old(Pending()))] else [])
              && Pending() == (if flush then [] else old(Pending())) + (if c.Ch? then [c.c] else [])
      ensures Emitted() == old(Emitted()) + (if c.Ch? then [c.c] else [])
    {
      if c.Flush? || i >= WRITE_BUF_SIZE {
        log := log + [Write(fd, buf[..i])];
        assert Written(log) == old(Written(log)) + old(Pending());
        i := 0;
      }
      if c.Ch? {
        buf[i] := c.c;
        i := i + 1;
      }
      r := 1;
    }
  }

  /** The three writers' statics; they are distinct objects with distinct buffers. */
  class Console {
    /** The statics of _putchar (standard output). */
    const out: Writer
    /** The statics of _eputchar (standard error). */
    const err: Writer
    /** The statics of _putfd (one buffer for every descriptor). */
    const fdw: Writer

    ghost predicate Valid()
      reads this, out, err, fdw
    {
      && out.Valid() && err.Valid() && fdw.Valid()
      && out != err && err != fdw && out != fdw
      && out.buf != err.buf && err.buf != fdw.buf && out.buf != fdw.buf
    }

    constructor ()
      ensures Valid() && fresh(out) && fresh(err) && fresh(fdw)
      ensures fresh(out.buf) && fresh(err.buf) && fresh(fdw.buf)
      ensures out.Emitted() == [] && err.Emitted() == [] && fdw.Emitted() == []
    {
      out := new Writer();
      err := new Writer();
      fdw := new Writer();
    }
  }
}
