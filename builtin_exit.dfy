// builtins/builtin_exit.c: the exit built-in. It does not end the process itself: it
// leaves the exit code in err_num (-1 meaning "the last status") and returns -2, on
// which hsh stops.
module BuiltinExit {
  import opened Base
  import opened StringManipulation1
  import opened OutputBuffers
  import opened ErrorReporter
  import opened StringConverters
  import opened ErrorUtilities

  const ILLEGAL_MSG: Str := "Illegal number: "

  /** What `exit` makes of its arguments: an exit code for err_num, or a refusal. */
  datatype ExitRequest = ExitWith(code: int) | IllegalNumber

  /**
   * Without an argument the code is -1; an argument _erratoi accepts is the code;
   * anything else is an illegal number.
   */
  function ExitDecision(argv: seq<seq<char>>): (e: ExitRequest)
    ensures e.ExitWith? ==> e.code == -1 || 0 <= e.code <= INT_MAX
  {
    if |argv| <= 1 then ExitWith(-1)
    else if ErrAtoiSpec(argv[1]) == -1 then IllegalNumber
    else ExitWith(ErrAtoiSpec(argv[1]))
  }

  /** The message of a refused argument: the error line, the argument and a newline. */
  function IllegalLine(fname: Str, lineCount: u32, argv: seq<seq<char>>): Str
    requires |argv| > 1
  {
    ErrorLine(fname, lineCount, argv[0], Some(ILLEGAL_MSG)) + CStr(argv[1]) + "\n"
  }

  /**
   * _myexit: -2 with err_num set to the code, or, for an illegal number, status 2, the
   * message on standard error and 1, with err_num left alone.
   */
  method MyExit(info: Info, con: Console) returns (r: int)
    requires con.Valid()
    modifies info`status, info`err_num, con.out, con.out.buf, con.err, con.err.buf
    ensures con.Valid() && con.out.Emitted() == old(con.out.Emitted())
    ensures r == -2 || r == 1
    ensures ExitDecision(info.argv).ExitWith? ==>
              && r == -2 && info.err_num == ExitDecision(info.argv).code
              && info.status == old(info.status) && con.err.Emitted() == old(con.err.Emitted())
    ensures ExitDecision(info.argv).IllegalNumber? ==>
              && r == 1 && info.status == 2 && info.err_num == old(info.err_num)
              && con.err.Emitted() == old(con.err.Emitted()) + IllegalLine(info.fname, info.line_count, info.argv)
  {
    if |info.argv| > 1 {
      var exitcheck := ErrAtoi(info.argv[1]);
      if exitcheck == -1 {
        ReportIllegal(info, con);
        return 1;
      }
      info.err_num := exitcheck;
      return -2;
    }
    info.err_num := -1;
    return -2;
  }

  /** The refusal of _myexit: status 2 and the message on standard error. */
  method ReportIllegal(info: Info, con: Console)
    requires con.Valid() && |info.argv| > 1
    modifies info`status, con.out, con.out.buf, con.err, con.err.buf
    ensures con.Valid() && con.out.Emitted() == old(con.out.Emitted())
    ensures info.status == 2
    ensures con.err.Emitted() == old(con.err.Emitted()) + IllegalLine(info.fname, info.line_count, info.argv)
  {
    info.status := 2;
    ghost var e0 := con.err.Emitted();
    ghost var line := ErrorLine(info.fname, info.line_count, info.argv[0], Some(ILLEGAL_MSG));
    PrintError(con, info, Some(ILLEGAL_MSG));
    EPuts(con, Some(info.argv[1]));
    var _ := EPutChar(con, Ch('\n'));
    AppendAssoc(e0, line, CStr(info.argv[1]));
    AppendAssoc(e0, line + CStr(info.argv[1]), "\n");
  }

  /** `exit n` for the decimal text of any 0 <= n <= INT_MAX exits with n. */
  lemma ExitWithNumber(cmd: seq<char>, n: int, rest: seq<seq<char>>)
    requires 0 <= n <= INT_MAX
    ensures ExitDecision([cmd, NumberText(n, 10, 0)] + rest) == ExitWith(n)
  {
    ErrAtoiRoundTrip(n);
  }

  /** A negative argument is an illegal number. */
  lemma ExitRejectsNegative(cmd: seq<char>, digits: Str, rest: seq<seq<char>>)
    ensures ExitDecision([cmd, "-" + digits] + rest) == IllegalNumber
  {
    var a := "-" + digits;
    CStrCons(a);
    assert CStr(a)[0] == '-';
    assert !AllDigits(Unsigned(a));
  }

  /** An argument above INT_MAX is an illegal number. */
  lemma ExitRejectsOverflow(cmd: seq<char>, n: int, rest: seq<seq<char>>)
    requires INT_MAX < n < 0x8000_0000_0000_0000
    ensures ExitDecision([cmd, NumberText(n, 10, 0)] + rest) == IllegalNumber
  {
    var t := NumberText(n, 10, 0);
    DecValueOfDigits(n);
    assert t == Significant(n, 10, UPPER_DIGITS);
    assert AllDigits(t) && t[0] != '+';
    assert NoNul(t);
    CStrNoNul(t);
    assert Unsigned(t) == t;
  }
}
