// error_handling/error_utilities.c: the exit-code parser, decimal printing, the
// error-line format and comment stripping.
module ErrorUtilities {
  import opened Base
  import opened StringManipulation1
  import opened OutputBuffers
  import opened StringManipulation2
  import opened ErrorReporter
  import opened StringConverters

  predicate AllDigits(s: Str) {
    forall k :: 0 <= k < |s| ==> IsDigit(s[k])
  }

  /** The decimal value of a digit string. */
  function DecValue(s: Str): nat
    requires AllDigits(s)
  {
    if s == [] then 0 else DecValue(s[..|s| - 1]) * 10 + (s[|s| - 1] as int - '0' as int)
  }

  /** A longer digit string is worth at least as much as its prefix. */
  lemma {:induction false} DecValuePrefix(s: Str, i: nat)
    requires AllDigits(s) && i <= |s|
    ensures DecValue(s[..i]) <= DecValue(s)
  {
    if i < |s| {
      assert s[..|s| - 1][..i] == s[..i];
      DecValuePrefix(s[..|s| - 1], i);
    } else {
      assert s[..i] == s;
    }
  }

  /** The string _erratoi reads after an optional leading '+'. */
  function Unsigned(m: seq<char>): Str {
    var s := CStr(m);
    if s != [] && s[0] == '+' then s[1..] else s
  }

  /**
   * What _erratoi computes: after one optional '+', a string of digits whose value is
   * at most INT_MAX gives that value (0 for the empty string); anything else, a '-'
   * included, gives -1.
   */
  function ErrAtoiSpec(m: seq<char>): int {
    var s := Unsigned(m);
    if AllDigits(s) && DecValue(s) <= INT_MAX then DecValue(s) else -1
  }

  lemma DecValueSnoc(s: Str, i: nat)
    requires i < |s| && AllDigits(s[..i]) && IsDigit(s[i])
    ensures AllDigits(s[..i + 1])
    ensures DecValue(s[..i + 1]) == DecValue(s[..i]) * 10 + (s[i] as int - '0' as int)
  {
    assert s[..i + 1][..i] == s[..i];
  }

  /** Once a prefix is worth more than INT_MAX, the whole string is rejected. */
  lemma OverflowRejects(s: Str, i: nat)
    requires i <= |s| && AllDigits(s[..i]) && DecValue(s[..i]) > INT_MAX
    ensures !(AllDigits(s) && DecValue(s) <= INT_MAX)
  {
    if AllDigits(s) {
      DecValuePrefix(s, i);
    }
  }

  /** _erratoi: the digit loop with its overflow check after every digit. */
  method ErrAtoi(m: seq<char>) returns (r: int)
    ensures r == ErrAtoiSpec(m)
  {
    var s := m;
    if At(s, 0) == '+' {
      s := s[1..];
    }
    ghost var body := Unsigned(m);
    assert CStr(s) == body by {
      if At(m, 0) == '+' {
        CStrCons(m);
      }
    }
    var result := 0;
    var i := 0;
    while At(s, i) != NUL
      invariant 0 <= i <= |body| && body == s[..|body|] && At(s, |body|) == NUL
      invariant AllDigits(body[..i]) && result == DecValue(body[..i]) <= INT_MAX
      decreases |body| - i
    {
      assert s[i] == body[i];
      if '0' <= s[i] <= '9' {
        DecValueSnoc(body, i);
        result := result * 10;
        result := result + (s[i] as int - '0' as int);
        if result > INT_MAX {
          OverflowRejects(body, i + 1);
          return -1;
        }
      } else {
        return -1;
      }
      i := i + 1;
    }
    assert body[..i] == body;
    r := result;
  }

  /** The decimal text of a nonnegative number reads back as that number. */
  lemma {:induction false} DecValueOfDigits(n: nat)
    ensures AllDigits(Significant(n, 10, UPPER_DIGITS))
    ensures DecValue(Significant(n, 10, UPPER_DIGITS)) == n
  {
    if n != 0 {
      DecValueOfDigits(n / 10);
      var s := Significant(n, 10, UPPER_DIGITS);
      assert s[..|s| - 1] == Significant(n / 10, 10, UPPER_DIGITS);
    }
  }

  /** convert_number(num, 10, 0) read back by _erratoi gives num, for 0 <= num <= INT_MAX. */
  lemma ErrAtoiRoundTrip(num: int)
    requires 0 <= num <= INT_MAX
    ensures ErrAtoiSpec(NumberText(num, 10, 0)) == num
  {
    var t := NumberText(num, 10, 0);
    DecValueOfDigits(num);
    assert t == Digits(num, 10, UPPER_DIGITS);
    if num == 0 {
      assert t == "0";
    }
    assert AllDigits(t) && t[0] != '+';
    assert NoNul(t);
    CStrNoNul(t);
    assert Unsigned(t) == t;
  }

  /** Digits are written through _eputchar for descriptor 2, through _putchar otherwise. */
  method PutTo(con: Console, fd: int, c: char)
    requires con.Valid()
    modifies con.out, con.out.buf, con.err, con.err.buf
    ensures con.Valid()
    ensures fd == STDERR_FILENO ==> con.err.Emitted() == old(con.err.Emitted()) + [c]
                                    && con.out.Emitted() == old(con.out.Emitted())
    ensures fd != STDERR_FILENO ==> con.out.Emitted() == old(con.out.Emitted()) + [c]
                                    && con.err.Emitted() == old(con.err.Emitted())
  {
    if fd == STDERR_FILENO {
      var _ := EPutChar(con, Ch(c));
    } else {
      var _ := PutChar(con, Ch(c));
    }
  }

  /** The powers of ten print_d steps through. */
  predicate Pow10(i: int) {
    i == 1_000_000_000 || i == 100_000_000 || i == 10_000_000 || i == 1_000_000 || i == 100_000
    || i == 10_000 || i == 1_000 || i == 100 || i == 10 || i == 1
  }

  /** Division and remainder facts for a power of ten below 10^10. */
  lemma PowerStep(a: nat, i: int)
    requires Pow10(i)
    ensures a / i / 10 == a / (10 * i) && a % (10 * i) / i == a / i % 10 && a % (10 * i) % i == a % i
    ensures i > 1 ==> Pow10(i / 10) && 10 * (i / 10) == i
    ensures 0 <= a / (10 * i) && 0 <= a / i
  {
    if i == 1_000_000_000 {
    } else if i == 100_000_000 {
    } else if i == 10_000_000 {
    } else if i == 1_000_000 {
    } else if i == 100_000 {
    } else if i == 10_000 {
    } else if i == 1_000 {
    } else if i == 100 {
    } else if i == 10 {
    } else {
    }
  }

  /** The digit characters print_d writes are the decimal digits of convert_number. */
  lemma DigitChar(d: int)
    requires 0 <= d < 10
    ensures UPPER_DIGITS[d] == ('0' as int + d) as char
  {
  }

  /**
   * print_d: a '-' for a negative input, then the decimal digits of its magnitude with
   * no leading zeros, to standard error for descriptor 2 and to standard output
   * otherwise; the result is the number of characters printed. The magnitude of
   * INT_MIN is taken as the unsigned 2^31, as the conversion to unsigned int gives.
   */
  method PrintD(con: Console, input: int, fd: int) returns (count: int)
    requires INT_MIN <= input <= INT_MAX && con.Valid()
    modifies con.out, con.out.buf, con.err, con.err.buf
    ensures con.Valid()
    ensures count == |NumberText(input, 10, 0)|
    ensures fd == STDERR_FILENO ==> con.err.Emitted() == old(con.err.Emitted()) + NumberText(input, 10, 0)
                                    && con.out.Emitted() == old(con.out.Emitted())
    ensures fd != STDERR_FILENO ==> con.out.Emitted() == old(con.out.Emitted()) + NumberText(input, 10, 0)
                                    && con.err.Emitted() == old(con.err.Emitted())
  {
    ghost var out0, err0 := con.out.Emitted(), con.err.Emitted();
    ghost var sign: Str := [];
    count := 0;
    var abs: nat;
    if input < 0 {
      abs := -input;
      PutTo(con, fd, '-');
      sign := "-";
      count := count + 1;
    } else {
      abs := input;
    }
    var current, leading;
    ghost var digits;
    current, leading, digits := PutLeadingDigits(con, fd, abs, sign, out0, err0);
    count := count + leading;
    PutTo(con, fd, ('0' as int + current) as char);
    AppendOne(if fd == STDERR_FILENO then err0 else out0, sign, digits, ('0' as int + current) as char);
    PrintedIsText(input, abs, sign, digits, current);
    count := count + 1;
  }

  /**
   * The loop of print_d: every decimal digit of abs but the last, with no leading zeros,
   * from the billions down to the tens; the units digit is left in current.
   */
  method PutLeadingDigits(con: Console, fd: int, abs: nat, ghost sign: Str, ghost out0: Str, ghost err0: Str)
    returns (current: int, leading: nat, ghost digits: Str)
    requires abs <= 0x8000_0000 && con.Valid()
    requires fd == STDERR_FILENO ==> con.err.Emitted() == err0 + sign && con.out.Emitted() == out0
    requires fd != STDERR_FILENO ==> con.out.Emitted() == out0 + sign && con.err.Emitted() == err0
    modifies con.out, con.out.buf, con.err, con.err.buf
    ensures con.Valid() && current == abs % 10 && leading == |digits|
    ensures digits == Significant(abs / 10, 10, UPPER_DIGITS)
    ensures fd == STDERR_FILENO ==> con.err.Emitted() == err0 + (sign + digits) && con.out.Emitted() == out0
    ensures fd != STDERR_FILENO ==> con.out.Emitted() == out0 + (sign + digits) && con.err.Emitted() == err0
  {
    digits := [];
    leading := 0;
    current := abs;
    var i := 1_000_000_000;
    while i > 1
      invariant Pow10(i) && con.Valid()
      invariant current == abs % (10 * i)
      invariant digits == Significant(abs / (10 * i), 10, UPPER_DIGITS) && leading == |digits|
      invariant fd == STDERR_FILENO ==> con.err.Emitted() == err0 + (sign + digits) && con.out.Emitted() == out0
      invariant fd != STDERR_FILENO ==> con.out.Emitted() == out0 + (sign + digits) && con.err.Emitted() == err0
      decreases i
    {
      PowerStep(abs, i);
      if abs / i != 0 {
        var d := current / i;
        SignificantStep(abs / i, 10, UPPER_DIGITS);
        DigitChar(d);
        PutTo(con, fd, ('0' as int + d) as char);
        AppendOne(if fd == STDERR_FILENO then err0 else out0, sign, digits, ('0' as int + d) as char);
        digits := digits + [('0' as int + d) as char];
        leading := leading + 1;
      }
      current := current % i;
      i := i / 10;
    }
  }

  lemma AppendOne(before: Str, sign: Str, digits: Str, c: char)
    ensures before + (sign + digits) + [c] == before + (sign + (digits + [c]))
  {
  }

  /** The decimal text of an int: a '-' for a negative one, then the digits of its magnitude. */
  lemma DecimalText(num: int)
    requires INT_MIN <= num <= INT_MAX
    ensures NumberText(num, 10, 0) == (if num < 0 then "-" else "") + Digits(if num < 0 then -num else num, 10, UPPER_DIGITS)
  {
    assert !HasFlag(0, CONVERT_UNSIGNED) && !HasFlag(0, CONVERT_LOWERCASE);
  }

  /** What print_d has printed at its end is the decimal text of its input. */
  lemma PrintedIsText(input: int, abs: nat, sign: Str, digits: Str, last: int)
    requires INT_MIN <= input <= INT_MAX && abs == (if input < 0 then -input else input)
    requires sign == (if input < 0 then "-" else "")
    requires digits == Significant(abs / 10, 10, UPPER_DIGITS) && last == abs % 10
    ensures sign + (digits + [('0' as int + last) as char]) == NumberText(input, 10, 0)
  {
    DigitChar(last);
    DigitsLast(abs);
    DecimalText(input);
  }

  lemma DigitsLast(n: nat)
    ensures Digits(n, 10, UPPER_DIGITS) == Significant(n / 10, 10, UPPER_DIGITS) + [UPPER_DIGITS[n % 10]]
  {
    if n != 0 {
      SignificantStep(n, 10, UPPER_DIGITS);
    }
  }

  /** The line print_error writes: fname ": " line number ": " command ": " message. */
  function ErrorLine(fname: Str, lineCount: u32, cmd: seq<char>, estr: Option<seq<char>>): Str {
    CStr(fname) + ": " + NumberText(ToInt32(lineCount), 10, 0) + ": " + CStr(cmd) + ": "
    + (if estr.None? then [] else CStr(estr.value))
  }

  /**
   * print_error: writes the error line for the current command to standard error; the
   * line number is line_count converted to int, as print_d takes it.
   */
  method PrintError(con: Console, info: Info, estr: Option<seq<char>>)
    requires con.Valid() && |info.argv| > 0
    modifies con.out, con.out.buf, con.err, con.err.buf
    ensures con.Valid()
    ensures con.err.Emitted() == old(con.err.Emitted()) + ErrorLine(info.fname, info.line_count, info.argv[0], estr)
    ensures con.out.Emitted() == old(con.out.Emitted())
  {
    ghost var e0 := con.err.Emitted();
    CStrNoNul(": ");
    EPuts(con, Some(info.fname));
    ghost var acc := CStr(info.fname);
    EPuts(con, Some(": "));
    AppendAssoc(e0, acc, ": ");
    acc := acc + ": ";
    var _ := PrintD(con, ToInt32(info.line_count), STDERR_FILENO);
    AppendAssoc(e0, acc, NumberText(ToInt32(info.line_count), 10, 0));
    acc := acc + NumberText(ToInt32(info.line_count), 10, 0);
    EPuts(con, Some(": "));
    AppendAssoc(e0, acc, ": ");
    acc := acc + ": ";
    EPuts(con, Some(info.argv[0]));
    AppendAssoc(e0, acc, CStr(info.argv[0]));
    acc := acc + CStr(info.argv[0]);
    EPuts(con, Some(": "));
    AppendAssoc(e0, acc, ": ");
    acc := acc + ": ";
    EPuts(con, estr);
    AppendAssoc(e0, acc, if estr.None? then [] else CStr(estr.value));
  }

  /** k is where remove_comments cuts: a '#' at the start of the string or after a space. */
  predicate CommentStart(m: seq<char>, k: nat) {
    k < CLen(m) && m[k] == '#' && (k == 0 || m[k - 1] == ' ')
  }

  /** The first comment start at or after k. */
  function FirstCommentFrom(m: seq<char>, k: nat): (r: Option<nat>)
    requires k <= CLen(m)
    ensures r.Some? ==> k <= r.value && CommentStart(m, r.value)
                        && forall j :: k <= j < r.value ==> !CommentStart(m, j)
    ensures r.None? ==> forall j :: k <= j < CLen(m) ==> !CommentStart(m, j)
    decreases CLen(m) - k
  {
    if k == CLen(m) then None
    else if CommentStart(m, k) then Some(k)
    else FirstCommentFrom(m, k + 1)
  }

  /** The memory remove_comments leaves: a NUL over the first comment start, if any. */
  function CommentsRemoved(m: seq<char>): seq<char> {
    match FirstCommentFrom(m, 0)
    case None => m
    case Some(k) => m[k := NUL]
  }

  /** remove_comments cuts the string at its first comment start, and changes at most one byte. */
  lemma CommentsRemovedString(m: seq<char>)
    ensures |CommentsRemoved(m)| == |m|
    ensures forall j :: 0 <= j < |m| && CommentsRemoved(m)[j] != m[j] ==>
              CommentStart(m, j) && CommentsRemoved(m)[j] == NUL
    ensures FirstCommentFrom(m, 0).Some? ==>
              CStr(CommentsRemoved(m)) == CStr(m)[..FirstCommentFrom(m, 0).value]
    ensures FirstCommentFrom(m, 0).None? ==> CommentsRemoved(m) == m
  {
    match FirstCommentFrom(m, 0)
    case None =>
    case Some(k) =>
      var r := m[k := NUL];
      assert r[..k] == m[..k];
      CStrTerminated(r, k);
  }

  /** Removing comments twice removes no more than once. */
  lemma {:induction false} CommentsRemovedIdempotent(m: seq<char>)
    ensures CommentsRemoved(CommentsRemoved(m)) == CommentsRemoved(m)
  {
    match FirstCommentFrom(m, 0)
    case None =>
    case Some(k) =>
      var r := m[k := NUL];
      assert r[..k] == m[..k];
      CStrTerminated(r, k);
      assert forall j :: 0 <= j < CLen(r) ==> !CommentStart(r, j) by {
        forall j | 0 <= j < CLen(r) ensures !CommentStart(r, j) {
          assert !CommentStart(m, j);
        }
      }
      match FirstCommentFrom(r, 0)
      case None =>
      case Some(k2) =>
        assert false;
  }

  /**
   * remove_comments: scans the string and writes a NUL over the first '#' that starts
   * the string or follows a space; a '#' after a tab or any other character is kept.
   */
  method RemoveComments(buf: array<char>)
    requires CLen(buf[..]) < buf.Length
    modifies buf
    ensures buf[..] == CommentsRemoved(old(buf[..]))
  {
    ghost var m := buf[..];
    var i := 0;
    while buf[i] != NUL
      invariant 0 <= i <= CLen(m) && buf[..] == m && NoNul(m[..i])
      invariant forall j :: 0 <= j < i ==> !CommentStart(m, j)
      decreases CLen(m) - i
    {
      if buf[i] == '#' && (i == 0 || buf[i - 1] == ' ') {
        assert CommentStart(m, i) by {
          CLenAtLeast(m, i);
        }
        assert FirstCommentFrom(m, 0) == Some(i) by {
          FirstCommentIs(m, 0, i);
        }
        buf[i] := NUL;
        return;
      }
      CLenAtLeast(m, i);
      i := i + 1;
    }
    CStrTerminated(m, i);
    FirstCommentNone(m, 0);
  }

  /** A position holding no NUL, with none before it, lies inside the string. */
  lemma CLenAtLeast(m: seq<char>, i: nat)
    requires i < |m| && NoNul(m[..i]) && m[i] != NUL
    ensures i < CLen(m)
  {
    assert forall j :: 0 <= j < i ==> m[..i][j] == m[j];
  }

  lemma {:induction false} FirstCommentIs(m: seq<char>, k: nat, i: nat)
    requires k <= i && CommentStart(m, i) && forall j :: k <= j < i ==> !CommentStart(m, j)
    ensures FirstCommentFrom(m, k) == Some(i)
    decreases i - k
  {
    if k < i {
      FirstCommentIs(m, k + 1, i);
    }
  }

  lemma {:induction false} FirstCommentNone(m: seq<char>, k: nat)
    requires k <= CLen(m) && forall j :: k <= j < CLen(m) ==> !CommentStart(m, j)
    ensures FirstCommentFrom(m, k) == None
    decreases CLen(m) - k
  {
    if k < CLen(m) {
      FirstCommentNone(m, k + 1);
    }
  }
}
