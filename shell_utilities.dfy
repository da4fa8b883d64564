// shell_core/shell_utilities.c, its character and number helpers (clear_info and
// set_info are in InfoSetup, which needs the tokenizer built on IsDelimiter).
module ShellUtilities {
  import opened Base
  import opened StringManipulation1
  import opened StringConverters
  import opened ErrorUtilities

  /** is_interactive, with isatty(STDIN_FILENO) given as a parameter. */
  predicate IsInteractive(info: Info, stdinIsTty: bool)
    reads info`readfd
  {
    stdinIsTty && info.readfd <= 2
  }

  /** is_delimiter: whether c is one of the characters of the string delim; never NUL. */
  function IsDelimiter(c: char, delim: seq<char>): (r: bool)
    ensures r <==> c != NUL && c in CStr(delim)
    decreases |delim|
  {
    if At(delim, 0) == NUL then
      false
    else
      CStrCons(delim);
      if delim[0] == c then true else IsDelimiter(c, delim[1..])
  }

  const UPPER_LETTERS: Str := "ABCDEFGHIJKLMNOPQRSTUVWXYZ"
  const LOWER_LETTERS: Str := "abcdefghijklmnopqrstuvwxyz"

  /** is_alpha_char: exactly the codes of the 52 ASCII letters. */
  function IsAlphaChar(c: int): (r: bool)
    ensures r <==> 0 <= c < 128 && ((c as char) in UPPER_LETTERS || (c as char) in LOWER_LETTERS)
  {
    if ('a' as int <= c <= 'z' as int) || ('A' as int <= c <= 'Z' as int) then
      true
    else
      if 0 <= c < 128 then
        OutsideUpper(c as char);
        OutsideLower(c as char);
        false
      else
        false
  }

  lemma OutsideUpper(c: char)
    requires !('A' <= c <= 'Z')
    ensures c !in UPPER_LETTERS
  {
    assert UPPER_LETTERS == ['A','B','C','D','E','F','G','H','I','J','K','L','M','N','O','P','Q','R','S','T','U','V','W','X','Y','Z'];
  }

  lemma OutsideLower(c: char)
    requires !('a' <= c <= 'z')
    ensures c !in LOWER_LETTERS
  {
    assert LOWER_LETTERS == ['a','b','c','d','e','f','g','h','i','j','k','l','m','n','o','p','q','r','s','t','u','v','w','x','y','z'];
  }

  const TWO32: int := 0x1_0000_0000

  /** The index of the first digit of s, |s| when there is none. */
  function FirstDigit(s: Str): (p: nat)
    ensures p <= |s| && (p < |s| ==> IsDigit(s[p]))
    ensures forall k :: 0 <= k < p ==> !IsDigit(s[k])
  {
    if s == [] then 0
    else if IsDigit(s[0]) then 0
    else 1 + FirstDigit(s[1..])
  }

  /** The end of the run of digits that starts at p. */
  function RunEnd(s: Str, p: nat): (q: nat)
    requires p <= |s|
    ensures p <= q <= |s| && AllDigits(s[p..q]) && (q < |s| ==> !IsDigit(s[q]))
    decreases |s| - p
  {
    if p < |s| && IsDigit(s[p]) then
      var q := RunEnd(s, p + 1);
      assert s[p..q] == [s[p]] + s[p + 1..q];
      q
    else p
  }

  /** The number of '-' characters in s. */
  function Minuses(s: Str): nat {
    if s == [] then 0 else (if s[0] == '-' then 1 else 0) + Minuses(s[1..])
  }

  /** The index just past the last character string_to_int reads: the one ending the run. */
  function Scanned(s: Str): nat {
    var q := RunEnd(s, FirstDigit(s));
    if q < |s| then q + 1 else q
  }

  /** The unsigned value string_to_int computes, converted to int in two's complement. */
  function Signed(neg: bool, v: u32): int {
    ToInt32(if neg then (TWO32 - v) % TWO32 else v)
  }

  /**
   * What string_to_int returns: the value, modulo 2^32, of the first run of digits,
   * negated (in unsigned arithmetic) when an odd number of '-' characters were read;
   * the scan reads up to and including the character that ends the run.
   */
  function StringToIntSpec(m: seq<char>): int {
    var s := CStr(m);
    var p := FirstDigit(s);
    Signed(Minuses(s[..Scanned(s)]) % 2 == 1, DecValue(s[p..RunEnd(s, p)]) % TWO32)
  }

  /**
   * The scan of string_to_int from index i with the state (neg, flag, acc): the sign is
   * odd, flag 0 before the digits, 1 inside them and 2 after them, and acc the unsigned
   * accumulator. The result is the final (neg, acc).
   */
  function Scan(s: Str, i: nat, neg: bool, flag: int, acc: u32): (bool, u32)
    requires i <= |s|
    decreases |s| - i
  {
    if i == |s| || flag == 2 then (neg, acc)
    else
      var neg' := if s[i] == '-' then !neg else neg;
      if IsDigit(s[i]) then Scan(s, i + 1, neg', 1, (acc * 10 + (s[i] as int - '0' as int)) % TWO32)
      else Scan(s, i + 1, neg', if flag == 1 then 2 else flag, acc)
  }

  lemma MinusesCons(s: Str, i: nat, k: nat)
    requires i < k <= |s|
    ensures Minuses(s[i..k]) == (if s[i] == '-' then 1 else 0) + Minuses(s[i + 1..k])
  {
    assert s[i..k][1..] == s[i + 1..k];
  }

  /** Accumulating modulo 2^32 one digit at a time agrees with reducing at the end. */
  lemma ModStep(a: nat, d: nat)
    ensures ((a % TWO32) * 10 + d) % TWO32 == (a * 10 + d) % TWO32
  {
    var q := a / TWO32;
    assert a == 0x1_0000_0000 * q + a % TWO32;
    ModShift((a % TWO32) * 10 + d, 10 * q);
  }

  /** Adding a multiple of 2^32 leaves the remainder modulo 2^32 unchanged. */
  lemma ModShift(x: int, k: int)
    ensures (x + 0x1_0000_0000 * k) % TWO32 == x % TWO32
  {
    var r := x % 0x1_0000_0000;
    assert x + 0x1_0000_0000 * k == 0x1_0000_0000 * (x / 0x1_0000_0000 + k) + r;
  }

  /** One more digit of the run, accumulated modulo 2^32. */
  lemma AccumulateStep(s: Str, p: nat, i: nat, acc: int)
    requires p <= i < |s| && AllDigits(s[p..i]) && IsDigit(s[i])
    requires acc == DecValue(s[p..i]) % TWO32
    ensures AllDigits(s[p..i + 1])
    ensures (acc * 10 + (s[i] as int - '0' as int)) % TWO32 == DecValue(s[p..i + 1]) % TWO32
  {
    assert s[p..][..i + 1 - p] == s[p..i + 1] && s[p..][..i - p] == s[p..i];
    DecValueSnoc(s[p..], i - p);
    ModStep(DecValue(s[p..i]), s[i] as int - '0' as int);
  }

  /**
   * Inside the first run of digits s[p..q], the scan ends with the run's value; the
   * sign flips for the '-' characters read up to index e.
   */
  lemma {:induction false} ScanInRun(s: Str, p: nat, q: nat, e: nat, i: nat, neg: bool, flag: int, acc: u32)
    requires p == FirstDigit(s) && q == RunEnd(s, p) && e == Scanned(s)
    requires p <= i <= q && (flag == 1 || (flag == 0 && i == p < q))
    requires AllDigits(s[p..i]) && acc == DecValue(s[p..i]) % TWO32
    ensures i <= e && Scan(s, i, neg, flag, acc) == (neg != (Minuses(s[i..e]) % 2 == 1), DecValue(s[p..q]) % TWO32)
    decreases |s| - i
  {
    if i == q {
      ScanAtRunEnd(s, p, q, e, neg, acc);
    } else {
      assert IsDigit(s[i]) by {
        assert s[p..q][i - p] == s[i];
      }
      var acc' := (acc * 10 + (s[i] as int - '0' as int)) % TWO32;
      AccumulateStep(s, p, i, acc);
      assert Scan(s, i, neg, flag, acc) == Scan(s, i + 1, neg, 1, acc');
      ScanInRun(s, p, q, e, i + 1, neg, 1, acc');
      MinusesCons(s, i, e);
    }
  }

  /** At the end of the run the scan stops, after reading the character that ends it. */
  lemma ScanAtRunEnd(s: Str, p: nat, q: nat, e: nat, neg: bool, acc: u32)
    requires p == FirstDigit(s) && q == RunEnd(s, p) && e == Scanned(s)
    requires acc == DecValue(s[p..q]) % TWO32
    ensures q <= e && Scan(s, q, neg, 1, acc) == (neg != (Minuses(s[q..e]) % 2 == 1), acc)
  {
    assert s[q..q] == [];
    if q < |s| {
      var neg' := if s[q] == '-' then !neg else neg;
      assert Scan(s, q, neg, 1, acc) == Scan(s, q + 1, neg', 2, acc) == (neg', acc);
      MinusesCons(s, q, q + 1);
      assert s[q + 1..q + 1] == [];
    }
  }

  /** Before the first digit, the scan only counts '-' characters. */
  lemma {:induction false} ScanBeforeRun(s: Str, p: nat, q: nat, e: nat, i: nat, neg: bool)
    requires p == FirstDigit(s) && q == RunEnd(s, p) && e == Scanned(s) && i <= p
    ensures i <= e && Scan(s, i, neg, 0, 0) == (neg != (Minuses(s[i..e]) % 2 == 1), DecValue(s[p..q]) % TWO32)
    decreases |s| - i
  {
    assert s[p..p] == [];
    if i == p {
      if p < |s| {
        assert q > p;
        ScanInRun(s, p, q, e, p, neg, 0, 0);
      }
    } else {
      var neg' := if s[i] == '-' then !neg else neg;
      assert Scan(s, i, neg, 0, 0) == Scan(s, i + 1, neg', 0, 0);
      ScanBeforeRun(s, p, q, e, i + 1, neg');
      MinusesCons(s, i, e);
    }
  }

  /** The scan from the start computes the value StringToIntSpec describes. */
  lemma ScanMeaning(s: Str)
    ensures Signed(Scan(s, 0, false, 0, 0).0, Scan(s, 0, false, 0, 0).1)
            == Signed(Minuses(s[..Scanned(s)]) % 2 == 1, DecValue(s[FirstDigit(s)..RunEnd(s, FirstDigit(s))]) % TWO32)
  {
    ScanBeforeRun(s, FirstDigit(s), RunEnd(s, FirstDigit(s)), Scanned(s), 0, false);
    assert s[0..Scanned(s)] == s[..Scanned(s)];
  }

  /**
   * string_to_int: one pass that flips the sign at every '-', accumulates the first
   * run of digits in an unsigned int and stops after the character that ends the run.
   */
  method StringToInt(m: seq<char>) returns (output: int)
    ensures output == StringToIntSpec(m)
  {
    ghost var s := CStr(m);
    var i := 0;
    var sign := 1;
    var flag := 0;
    var result: u32 := 0;
    while At(m, i) != NUL && flag != 2
      invariant 0 <= i <= |s| && s == m[..|s|] && At(m, |s|) == NUL
      invariant (sign == 1 || sign == -1) && 0 <= flag <= 2
      invariant Scan(s, i, sign == -1, flag, result) == Scan(s, 0, false, 0, 0)
      decreases |s| - i
    {
      var c := m[i];
      assert c == s[i];
      if c == '-' {
        sign := sign * -1;
      }
      if '0' <= c <= '9' {
        flag := 1;
        // unsigned arithmetic: result * 10 + digit, modulo 2^32
        result := (result * 10 + (c as int - '0' as int)) % TWO32;
      } else if flag == 1 {
        flag := 2;
      }
      i := i + 1;
    }
    ScanMeaning(s);
    output := Signed(sign == -1, result);
  }

  /**
   * An optional '-' followed by digits worth at most 2^31 (at most INT_MAX without
   * the '-') reads back as that signed value.
   */
  lemma StringToIntSigned(neg: bool, d: Str)
    requires d != [] && AllDigits(d)
    requires DecValue(d) <= if neg then -INT_MIN else INT_MAX
    ensures StringToIntSpec((if neg then "-" else "") + d) == if neg then -(DecValue(d) as int) else DecValue(d)
  {
    SignedText(neg, d);
    SignedSmall(neg, DecValue(d));
  }

  /** An optional '-' and digits: the sign and the digits' value modulo 2^32. */
  lemma SignedText(neg: bool, d: Str)
    requires d != [] && AllDigits(d)
    ensures StringToIntSpec((if neg then "-" else "") + d) == Signed(neg, DecValue(d) % TWO32)
  {
    var t := (if neg then "-" else "") + d;
    var p := if neg then 1 else 0;
    assert NoNul(t) by {
      assert forall k :: 0 <= k < |d| ==> d[k] != NUL;
    }
    CStrNoNul(t);
    assert t[p..] == d;
    assert FirstDigit(t) == p by {
      if neg {
        assert t[1..] == d;
      }
    }
    RunToEnd(t, p);
    assert Scanned(t) == |t| && t[..|t|] == t && t[p..|t|] == d;
    MinusesOfSigned(t, d, neg);
  }

  lemma SignedSmall(neg: bool, v: nat)
    requires v <= if neg then -INT_MIN else INT_MAX
    ensures Signed(neg, v % TWO32) == if neg then -(v as int) else v
  {
  }

  /** The decimal text of every int reads back through string_to_int as that int. */
  lemma StringToIntRoundTrip(num: int)
    requires INT_MIN <= num <= INT_MAX
    ensures StringToIntSpec(NumberText(num, 10, 0)) == num
  {
    var n := Magnitude(num, 0);
    var d := Digits(n, 10, UPPER_DIGITS);
    DecValueOfDigits(n);
    if n == 0 {
      assert d == "0";
    }
    assert AllDigits(d) && DecValue(d) == n;
    assert NumberText(num, 10, 0) == (if num < 0 then "-" else "") + d;
    StringToIntSigned(num < 0, d);
  }

  /** A run of digits that reaches the end of the string. */
  lemma RunToEnd(s: Str, p: nat)
    requires p <= |s| && AllDigits(s[p..])
    ensures RunEnd(s, p) == |s|
    decreases |s| - p
  {
    if p < |s| {
      assert s[p..][0] == s[p];
      assert s[p + 1..] == s[p..][1..];
      RunToEnd(s, p + 1);
    }
  }

  lemma {:induction false} MinusesOfDigits(d: Str)
    requires AllDigits(d)
    ensures Minuses(d) == 0
  {
    if d != [] {
      MinusesOfDigits(d[1..]);
    }
  }

  lemma MinusesOfSigned(t: Str, d: Str, neg: bool)
    requires AllDigits(d) && t == (if neg then "-" else "") + d
    ensures Minuses(t) == if neg then 1 else 0
  {
    MinusesOfDigits(d);
    if neg {
      assert t[0] == '-' && t[1..] == d;
    } else {
      assert t == d;
    }
  }
}
