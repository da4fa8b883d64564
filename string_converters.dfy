// memory_utils/string_converters.c: convert_number, the itoa of the shell.
module StringConverters {
  import opened Base

  const UPPER_DIGITS: Str := "0123456789ABCDEF"
  const LOWER_DIGITS: Str := "0123456789abcdef"

  /**
   * `flags & bit` for the single-bit flags 1 and 2, on the two's-complement bits of an
   * int (Dafny's division rounds down here, as an arithmetic shift does).
   */
  predicate HasFlag(flags: int, bit: int)
    requires bit == 1 || bit == 2
  {
    if bit == 1 then flags % 2 == 1 else flags / 2 % 2 == 1
  }

  function Alphabet(flags: int): (a: Str)
    ensures |a| == 16
  {
    if HasFlag(flags, CONVERT_LOWERCASE) then LOWER_DIGITS else UPPER_DIGITS
  }

  function Pow(b: nat, k: nat): nat {
    if k == 0 then 1 else b * Pow(b, k - 1)
  }

  /** The base-`base` digits of n, most significant first, with none for 0. */
  function Significant(n: nat, base: nat, alpha: Str): Str
    requires 2 <= base <= |alpha|
  {
    if n == 0 then [] else Significant(n / base, base, alpha) + [alpha[n % base]]
  }

  /** The base-`base` digits of n, most significant first; "0" for 0. */
  function Digits(n: nat, base: nat, alpha: Str): Str
    requires 2 <= base <= |alpha|
  {
    if n == 0 then [alpha[0]] else Significant(n, base, alpha)
  }

  /** The number a `long` num is converted as: its unsigned value under CONVERT_UNSIGNED,
      its magnitude otherwise. */
  function Magnitude(num: int, flags: int): nat
    requires -0x8000_0000_0000_0000 <= num < 0x8000_0000_0000_0000
  {
    if num >= 0 then num
    else if HasFlag(flags, CONVERT_UNSIGNED) then num + 0x1_0000_0000_0000_0000
    else -num
  }

  /** The text convert_number returns: a '-' for a signed negative num, then the digits. */
  function NumberText(num: int, base: nat, flags: int): Str
    requires -0x8000_0000_0000_0000 <= num < 0x8000_0000_0000_0000
    requires 2 <= base <= 16
  {
    (if !HasFlag(flags, CONVERT_UNSIGNED) && num < 0 then "-" else "")
    + Digits(Magnitude(num, flags), base, Alphabet(flags))
  }

  lemma DivShrinks(n: int, b: int)
    requires n >= 0 && b >= 2
    ensures 0 <= n / b && (n > 0 ==> n / b < n) && 0 <= n % b < b
  {
  }

  /** Fewer than k digits suffice below base^k. */
  lemma {:induction false} SignificantLength(n: nat, base: nat, alpha: Str, k: nat)
    requires 2 <= base <= |alpha| && n < Pow(base, k)
    ensures |Significant(n, base, alpha)| <= k
  {
    if n != 0 {
      assert k > 0 && Pow(base, k) == base * Pow(base, k - 1);
      DivBelow(n, base, Pow(base, k - 1));
      SignificantLength(n / base, base, alpha, k - 1);
    }
  }

  /** Below b * p, the quotient by b is below p. */
  lemma DivBelow(n: nat, b: nat, p: nat)
    requires 1 <= b && n < b * p
    ensures n / b < p
  {
    var q := n / b;
    assert n == b * q + n % b && n % b >= 0;
    MulMonotone(b, p, q);
  }

  lemma MulMonotone(b: nat, x: int, y: int)
    ensures x <= y ==> b * x <= b * y
  {
    assert b * y - b * x == b * (y - x);
  }

  /** The decimal text of any int fits in eleven characters. */
  lemma NumberTextIntLength(num: int)
    requires INT_MIN <= num <= INT_MAX
    ensures |NumberText(num, 10, 0)| <= 11
  {
    assert Pow(10, 10) == 10_000_000_000 by {
      assert Pow(10, 5) == 100_000;
    }
    SignificantLength(Magnitude(num, 0), 10, UPPER_DIGITS, 10);
  }

  /** Every character of a digit string comes from the alphabet. */
  lemma {:induction false} SignificantChars(n: nat, base: nat, alpha: Str)
    requires 2 <= base <= |alpha|
    ensures forall c :: c in Significant(n, base, alpha) ==> c in alpha[..base]
  {
    if n != 0 {
      SignificantChars(n / base, base, alpha);
      assert alpha[n % base] == alpha[..base][n % base];
    }
  }

  /** Peeling off the least significant digit. */
  lemma SignificantStep(m: int, base: int, table: Str)
    requires m > 0 && 2 <= base <= |table|
    ensures 0 <= m / base < m && 0 <= m % base < base
    ensures Significant(m, base, table) == Significant(m / base, base, table) + [table[m % base]]
  {
    DivShrinks(m, base);
  }

  lemma SliceStep(a: seq<char>, i: nat, j: nat)
    requires i < j <= |a|
    ensures a[i..j] == [a[i]] + a[i + 1..j]
  {
  }

  lemma PrependDigit(text: Str, rest: Str, d: char, done: Str)
    requires text == (rest + [d]) + done
    ensures text == rest + ([d] + done)
  {
  }

  /**
   * The do-while of convert_number: writes the digits of n right to left, ending just
   * before index `end`, and returns the index of the most significant one.
   */
  method FillDigits(buffer: array<char>, end: int, n: nat, base: int, table: Str) returns (ptr: int)
    requires 2 <= base <= |table| && end <= buffer.Length
    requires |Digits(n, base, table)| <= end
    modifies buffer
    ensures 0 <= ptr <= end && buffer[ptr..end] == Digits(n, base, table)
  {
    ghost var text := Digits(n, base, table);
    var m: int := n;
    DivShrinks(m, base);
    if m > 0 { SignificantStep(m, base, table); }
    ptr := end - 1;
    buffer[ptr] := table[m % base];
    m := m / base;
    while m != 0
      invariant 0 <= ptr <= end - 1 && 0 <= m
      invariant text == Significant(m, base, table) + buffer[ptr..end]
      decreases m
    {
      SignificantStep(m, base, table);
      var d := table[m % base];
      ghost var done := buffer[ptr..end];
      ptr := ptr - 1;
      buffer[ptr] := d;
      assert buffer[ptr + 1..end] == done;
      SliceStep(buffer[..], ptr, end);
      PrependDigit(text, Significant(m / base, base, table), d, done);
      m := m / base;
    }
  }

  /**
   * convert_number: fills a 50-byte buffer right to left, so that 0 yields "0", and
   * returns the text from the last character written to the terminator. The buffer
   * cannot hold more than 49 characters, and a base outside 2..16 reads past the digit
   * table or never stops; both are excluded.
   */
  method ConvertNumber(num: int, base: int, flags: int) returns (s: Str)
    requires -0x8000_0000_0000_0000 <= num < 0x8000_0000_0000_0000
    requires 2 <= base <= 16
    requires |NumberText(num, base, flags)| <= 49
    ensures s == NumberText(num, base, flags)
  {
    var buffer := new char[50](_ => NUL);
    var sign := NUL;
    var n: nat := if num < 0 then num + 0x1_0000_0000_0000_0000 else num;
    if !HasFlag(flags, CONVERT_UNSIGNED) && num < 0 {
      n := -num;
      sign := '-';
    }
    var table := if HasFlag(flags, CONVERT_LOWERCASE) then LOWER_DIGITS else UPPER_DIGITS;
    assert n == Magnitude(num, flags) && table == Alphabet(flags);
    var ptr := 49;
    buffer[ptr] := NUL;
    ptr := FillDigits(buffer, ptr, n, base, table);
    if sign != NUL {
      ghost var digits := buffer[ptr..49];
      ptr := ptr - 1;
      buffer[ptr] := sign;
      assert buffer[ptr..49] == "-" + digits;
    }
    s := buffer[ptr..49];
  }
}
