// String primitives of string_operations/string_manipulation1.c.
// Read-only scans are functions over the memory a pointer designates (see Base.At);
// the functions that write into `dest` are methods on arrays.
module StringManipulation1 {
  import opened Base

  /** The length of the C string stored at the start of m: the characters before the first NUL. */
  function CLen(m: seq<char>): (n: nat)
    ensures n <= |m| && NoNul(m[..n]) && At(m, n) == NUL
  {
    if m == [] || m[0] == NUL then 0
    else
      var n := 1 + CLen(m[1..]);
      assert m[..n] == [m[0]] + m[1..][..n - 1];
      n
  }

  /** The C string stored at the start of m. */
  function CStr(m: seq<char>): Str {
    m[..CLen(m)]
  }

  /** The C string has length k exactly when k bytes without NUL are followed by a terminator. */
  lemma {:induction false} CLenIs(m: seq<char>, k: nat)
    requires k <= |m| && NoNul(m[..k]) && At(m, k) == NUL
    ensures CLen(m) == k && CStr(m) == m[..k]
  {
    if k > 0 {
      assert m[..k][0] == m[0];
      assert m[1..][..k - 1] == m[1..k];
      assert forall t :: 0 <= t < k - 1 ==> m[1..k][t] == m[..k][t + 1];
      CLenIs(m[1..], k - 1);
    }
  }

  lemma CStrNoNul(m: seq<char>)
    requires NoNul(m)
    ensures CStr(m) == m && CLen(m) == |m|
  {
    assert m[..|m|] == m;
    CLenIs(m, |m|);
  }

  lemma CStrCons(m: seq<char>)
    requires m != [] && m[0] != NUL
    ensures CLen(m) == 1 + CLen(m[1..]) && CStr(m) == [m[0]] + CStr(m[1..])
  {
  }

  /** The C string is fixed by the bytes up to and including its terminator. */
  lemma CStrPrefix(m: seq<char>, k: nat)
    requires CLen(m) < k <= |m|
    ensures CStr(m[..k]) == CStr(m)
  {
    var n := CLen(m);
    assert m[..k][..n] == m[..n];
    CLenIs(m[..k], n);
  }

  /** A slice of the string at the start of m is the same slice of m. */
  lemma CStrSlice(m: seq<char>, a: nat, b: nat)
    requires a <= b <= CLen(m)
    ensures CStr(m)[a..b] == m[a..b]
  {
  }

  /** The C string of memory whose first k bytes hold no NUL, followed by a NUL. */
  lemma CStrTerminated(m: seq<char>, k: nat)
    requires k < |m| && NoNul(m[..k]) && m[k] == NUL
    ensures CLen(m) == k && CStr(m) == m[..k]
  {
    CLenIs(m, k);
  }

  /**
   * Writing a NUL at index d cuts the string that starts at i there: it reads as the
   * characters from i to d, up to any NUL already among them.
   */
  lemma CStrCutAt(s: seq<char>, i: nat, d: nat)
    requires i <= d < |s|
    ensures CStr(s[d := NUL][i..]) == CStr(s[i..d])
  {
    var m := s[d := NUL][i..];
    var n := CLen(s[i..d]);
    assert m[..d - i] == s[i..d];
    assert m[..n] == CStr(s[i..d]);
    if n < d - i {
      assert m[n] == s[i..d][n] == NUL;
    }
    CStrTerminated(m, n);
  }

  /** The C string of the memory starting at index i. */
  function CStrAt(m: seq<char>, i: nat): Str {
    if i <= |m| then CStr(m[i..]) else []
  }

  /** _strlen: the characters before the terminator, and 0 for NULL. */
  function StrLen(s: Option<seq<char>>): (n: nat)
    ensures s.None? ==> n == 0
    ensures s.Some? ==> n <= |s.value| && NoNul(s.value[..n]) && At(s.value, n) == NUL
  {
    match s
    case None => 0
    case Some(m) => CLen(m)
  }

  predicate IsPrefix(a: seq<char>, b: seq<char>) {
    |a| <= |b| && b[..|a|] == a
  }

  /** x and y agree before index k and differ at k. */
  predicate FirstDiffAt(x: Str, y: Str, k: nat) {
    k < |x| && k < |y| && x[k] != y[k] && forall j :: 0 <= j < k ==> x[j] == y[j]
  }

  /**
   * What _strcmp promises of its result r for the strings x and y: 0 exactly when they
   * are equal, -1 / 1 when one is a proper prefix of the other, and otherwise the
   * difference of the first characters where they differ.
   */
  ghost predicate CompareResult(x: Str, y: Str, r: int) {
    && (r == 0 <==> x == y)
    && (IsPrefix(x, y) && x != y ==> r == -1)
    && (IsPrefix(y, x) && x != y ==> r == 1)
    && (forall k: nat :: FirstDiffAt(x, y, k) ==> r == x[k] as int - y[k] as int)
  }

  lemma CompareResultHead(x: Str, y: Str)
    requires x != [] && y != [] && x[0] != y[0]
    ensures CompareResult(x, y, x[0] as int - y[0] as int)
  {
    assert !IsPrefix(x, y) && !IsPrefix(y, x) by {
      assert x[..|x|][0] == x[0] && y[..|y|][0] == y[0];
    }
    forall k: nat | FirstDiffAt(x, y, k) ensures k == 0 {
    }
  }

  lemma CompareResultCons(x: Str, y: Str, r: int)
    requires x != [] && y != [] && x[0] == y[0]
    requires CompareResult(x[1..], y[1..], r)
    ensures CompareResult(x, y, r)
  {
    assert x == [x[0]] + x[1..] && y == [y[0]] + y[1..];
    forall k: nat | FirstDiffAt(x, y, k) ensures k >= 1 && FirstDiffAt(x[1..], y[1..], k - 1) {
    }
    if IsPrefix(x, y) {
      assert y[1..][..|x| - 1] == y[..|x|][1..];
    }
    if IsPrefix(y, x) {
      assert x[1..][..|y| - 1] == x[..|y|][1..];
    }
  }

  /** _strcmp on the C strings at a and b. */
  function StrCmp(a: seq<char>, b: seq<char>): (r: int)
    ensures CompareResult(CStr(a), CStr(b), r)
    decreases |a|
  {
    if At(a, 0) != NUL && At(b, 0) != NUL then
      CStrCons(a);
      CStrCons(b);
      if a[0] != b[0] then
        CompareResultHead(CStr(a), CStr(b));
        a[0] as int - b[0] as int
      else
        var r := StrCmp(a[1..], b[1..]);
        CompareResultCons(CStr(a), CStr(b), r);
        r
    else if At(a, 0) == At(b, 0) then
      0
    else if At(a, 0) == NUL then
      CStrCons(b);
      -1
    else
      CStrCons(a);
      1
  }

  /**
   * starts_with: when the needle's string is a prefix of the haystack's, the index in
   * the haystack just after it; NULL (None) otherwise. An empty needle gives index 0.
   */
  function StartsWith(h: seq<char>, n: seq<char>): (r: Option<nat>)
    ensures r.Some? <==> IsPrefix(CStr(n), CStr(h))
    ensures r.Some? ==> r.value == CLen(n)
    decreases |n|
  {
    if At(n, 0) == NUL then
      Some(0)
    else if At(n, 0) != At(h, 0) then
      CStrCons(n);
      None
    else
      CStrCons(n);
      CStrCons(h);
      PrefixCons(n[0], CStr(n[1..]), CStr(h[1..]));
      match StartsWith(h[1..], n[1..])
      case None => None
      case Some(k) => Some(k + 1)
  }

  lemma PrefixCons(c: char, x: Str, y: Str)
    ensures IsPrefix([c] + x, [c] + y) <==> IsPrefix(x, y)
  {
    if IsPrefix([c] + x, [c] + y) {
      assert y[..|x|] == ([c] + y)[..|x| + 1][1..];
    }
    if IsPrefix(x, y) {
      assert ([c] + y)[..|x| + 1] == [c] + y[..|x|];
    }
  }

  /**
   * _strchr: the index of the first occurrence of c, the terminator included,
   * so that searching for NUL yields the terminator; None when c does not occur.
   */
  function StrChr(m: seq<char>, c: char): (r: Option<nat>)
    ensures r.Some? ==> r.value <= CLen(m) && At(m, r.value) == c
                        && forall k :: 0 <= k < r.value ==> m[k] != c
    ensures r.None? <==> c != NUL && c !in CStr(m)
    decreases |m|
  {
    if At(m, 0) == c then
      Some(0)
    else if At(m, 0) == NUL then
      None
    else
      CStrCons(m);
      match StrChr(m[1..], c)
      case None => None
      case Some(k) => Some(k + 1)
  }

  /** c is found at p when it stands there and no earlier character is c or a NUL. */
  lemma {:induction false} StrChrIs(m: seq<char>, c: char, p: nat)
    requires p < |m| && m[p] == c
    requires forall k :: 0 <= k < p ==> m[k] != c && m[k] != NUL
    ensures StrChr(m, c) == Some(p)
  {
    if p > 0 {
      StrChrIs(m[1..], c, p - 1);
    }
  }

  /** The index of the last occurrence of c in s. */
  function LastIndexOf(s: seq<char>, c: char): (r: Option<nat>)
    ensures r.Some? ==> r.value < |s| && s[r.value] == c
                        && forall k :: r.value < k < |s| ==> s[k] != c
    ensures r.None? <==> c !in s
  {
    if s == [] then None
    else if s[|s| - 1] == c then Some(|s| - 1)
    else
      var r := LastIndexOf(s[..|s| - 1], c);
      assert s == s[..|s| - 1] + [s[|s| - 1]];
      r
  }

  /**
   * _strrchr: NULL for a NULL string; the terminator when c is NUL; otherwise the
   * last occurrence of c before the terminator, or None.
   */
  function StrRChr(s: Option<seq<char>>, c: char): (r: Option<nat>)
    ensures s.None? ==> r.None?
    ensures s.Some? && c == NUL ==> r == Some(CLen(s.value))
    ensures s.Some? && c != NUL && r.Some? ==>
              r.value < CLen(s.value) && s.value[r.value] == c
              && forall k :: r.value < k < CLen(s.value) ==> s.value[k] != c
    ensures s.Some? && c != NUL && r.None? ==> c !in CStr(s.value)
  {
    match s
    case None => None
    case Some(m) =>
      if c == NUL then Some(CLen(m)) else LastIndexOf(CStr(m), c)
  }

  /** The memory _strcat leaves: m's string, then src's string, a terminator, and the rest of m. */
  ghost function CatResult(m: seq<char>, src: seq<char>): seq<char>
    requires CLen(m) + CLen(src) < |m|
  {
    m[..CLen(m)] + CStr(src) + [NUL] + m[CLen(m) + CLen(src) + 1..]
  }

  /** The C string left by _strcat is the concatenation of the two strings. */
  lemma CatResultString(m: seq<char>, src: seq<char>)
    requires CLen(m) + CLen(src) < |m|
    ensures |CatResult(m, src)| == |m|
    ensures CStr(CatResult(m, src)) == CStr(m) + CStr(src)
  {
    var r := CatResult(m, src);
    var k := CLen(m) + CLen(src);
    assert r[..k] == CStr(m) + CStr(src);
    CStrTerminated(r, k);
  }

  /**
   * _strcat: dest holds its old string followed by src's string and a terminator;
   * the bytes after that terminator are untouched.
   */
  method StrCat(dest: array<char>, src: seq<char>)
    requires CLen(dest[..]) + CLen(src) < dest.Length
    modifies dest
    ensures dest[..] == CatResult(old(dest[..]), src)
  {
    ghost var old0 := dest[..];
    ghost var n := CLen(src);
    var d := 0;
    while dest[d] != NUL
      invariant 0 <= d <= CLen(old0) && NoNul(dest[..d])
      decreases CLen(old0) - d
    {
      d := d + 1;
    }
    CStrTerminated(old0, d);
    var j := 0;
    while At(src, j) != NUL
      invariant 0 <= j <= n
      invariant forall t :: 0 <= t < dest.Length ==>
                  dest[t] == if d <= t < d + j then src[t - d] else old0[t]
      decreases n - j
    {
      dest[d + j] := src[j];
      j := j + 1;
    }
    dest[d + j] := NUL;
    CatResultIs(old0, src, dest[..]);
  }

  /** The memory described index by index is the one CatResult gives. */
  lemma CatResultIs(m: seq<char>, src: seq<char>, r: seq<char>)
    requires CLen(m) + CLen(src) < |m| && |r| == |m|
    requires forall t :: 0 <= t < |r| ==>
               r[t] == if CLen(m) <= t < CLen(m) + CLen(src) then src[t - CLen(m)]
                       else if t == CLen(m) + CLen(src) then NUL else m[t]
    ensures r == CatResult(m, src)
  {
    var d, k := CLen(m), CLen(src);
    var c := CatResult(m, src);
    forall t | 0 <= t < |r|
      ensures r[t] == c[t]
    {
      if t < d {
        assert c[t] == m[..d][t];
      } else if t < d + k {
        assert c[t] == CStr(src)[t - d];
      } else if t > d + k {
        assert c[t] == m[d + k + 1..][t - d - k - 1];
      }
    }
  }

  /**
   * The memory _strncpy leaves: for n >= 1, the first min(|src|, n - 1) characters of
   * src's string, NUL up to index n - 1, then the rest of m; m itself for n <= 0.
   */
  ghost function NCpyResult(m: seq<char>, src: seq<char>, n: int): seq<char>
    requires n <= |m|
  {
    if n <= 0 then m
    else
      var k := Min(CLen(src), n - 1);
      src[..k] + seq(n - k, _ => NUL) + m[n..]
  }

  /** _strncpy copies at most n - 1 characters: the result is the source string cut there. */
  lemma NCpyResultString(m: seq<char>, src: seq<char>, n: int)
    requires 1 <= n <= |m|
    ensures |NCpyResult(m, src, n)| == |m|
    ensures CStr(NCpyResult(m, src, n)) == CStr(src)[..Min(CLen(src), n - 1)]
  {
    var k := Min(CLen(src), n - 1);
    var r := NCpyResult(m, src, n);
    assert r[..k] == src[..k];
    CStrTerminated(r, k);
  }

  /** _strncpy, with dest's allocation large enough for the n bytes it writes. */
  method StrNCpy(dest: array<char>, src: seq<char>, n: int)
    requires n <= dest.Length
    modifies dest
    ensures dest[..] == NCpyResult(old(dest[..]), src, n)
  {
    ghost var k := Min(CLen(src), Max(n - 1, 0));
    ghost var old0 := dest[..];
    var i := 0;
    while At(src, i) != NUL && i < n - 1
      invariant 0 <= i <= k
      invariant forall t :: 0 <= t < dest.Length ==> dest[t] == if t < i then src[t] else old0[t]
      decreases k - i
    {
      dest[i] := src[i];
      i := i + 1;
    }
    if i < n {
      var j := i;
      while j < n
        invariant i <= j <= n
        invariant forall t :: 0 <= t < dest.Length ==>
                    dest[t] == if t < i then src[t] else if t < j then NUL else old0[t]
      {
        dest[j] := NUL;
        j := j + 1;
      }
    }
    ghost var r := NCpyResult(old0, src, n);
    forall t | 0 <= t < dest.Length ensures dest[t] == r[t] {
      if 0 < n && t < n {
        assert i == k;
      }
    }
    assert dest[..] == r;
  }

  /**
   * The memory _strncat leaves: m's string, then the first k = min(|src|, n) characters
   * of src's string, then a terminator only when k < n, then the rest of m.
   */
  ghost function NCatResult(m: seq<char>, src: seq<char>, n: int): seq<char>
    requires CLen(m) + Min(CLen(src), Max(n, 0)) < |m|
  {
    var d, k := CLen(m), Min(CLen(src), Max(n, 0));
    m[..d] + src[..k] + (if k < n then [NUL] + m[d + k + 1..] else m[d + k..])
  }

  /** When fewer than n characters were copied, the result string is the concatenation. */
  lemma NCatResultString(m: seq<char>, src: seq<char>, n: int)
    requires CLen(m) + Min(CLen(src), Max(n, 0)) < |m|
    requires CLen(src) < n
    ensures |NCatResult(m, src, n)| == |m|
    ensures CStr(NCatResult(m, src, n)) == CStr(m) + CStr(src)
  {
    var r := NCatResult(m, src, n);
    var k := CLen(m) + CLen(src);
    assert r[..k] == CStr(m) + CStr(src);
    CStrTerminated(r, k);
  }

  /**
   * _strncat: appends at most n characters of src after dest's string, and writes a
   * terminator only when fewer than n were copied.
   */
  method StrNCat(dest: array<char>, src: seq<char>, n: int)
    requires CLen(dest[..]) + Min(CLen(src), Max(n, 0)) < dest.Length
    modifies dest
    ensures dest[..] == NCatResult(old(dest[..]), src, n)
  {
    ghost var old0 := dest[..];
    ghost var k := Min(CLen(src), Max(n, 0));
    var d := 0;
    while dest[d] != NUL
      invariant 0 <= d <= CLen(old0) && NoNul(dest[..d])
      decreases CLen(old0) - d
    {
      d := d + 1;
    }
    CStrTerminated(old0, d);
    var j := 0;
    while At(src, j) != NUL && j < n
      invariant 0 <= j <= k
      invariant forall t :: 0 <= t < dest.Length ==>
                  dest[t] == if d <= t < d + j then src[t - d] else old0[t]
      decreases k - j
    {
      dest[d + j] := src[j];
      j := j + 1;
    }
    if j < n {
      dest[d + j] := NUL;
    }
    NCatResultIs(old0, src, n, dest[..]);
  }

  /** The memory described index by index is the one NCatResult gives. */
  lemma NCatResultIs(m: seq<char>, src: seq<char>, n: int, r: seq<char>)
    requires CLen(m) + Min(CLen(src), Max(n, 0)) < |m| && |r| == |m|
    requires var d, k := CLen(m), Min(CLen(src), Max(n, 0));
             forall t :: 0 <= t < |r| ==>
               r[t] == if d <= t < d + k then src[t - d] else if t == d + k && k < n then NUL else m[t]
    ensures r == NCatResult(m, src, n)
  {
    var d, k := CLen(m), Min(CLen(src), Max(n, 0));
    var c := NCatResult(m, src, n);
    forall t | 0 <= t < |r|
      ensures r[t] == c[t]
    {
      if t < d {
        assert c[t] == m[..d][t];
      } else if t < d + k {
        assert c[t] == src[..k][t - d];
      } else if k < n {
        if t > d + k {
          assert c[t] == m[d + k + 1..][t - d - k - 1];
        }
      } else {
        assert c[t] == m[d + k..][t - d - k];
      }
    }
  }
}
