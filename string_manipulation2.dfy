// string_operations/string_manipulation2.c: copying, duplication and standard-output
// printing of C strings.
module StringManipulation2 {
  import opened Base
  import opened StringManipulation1
  import opened OutputBuffers

  /** The memory _strcpy leaves in dest: src's string and a terminator, then the rest of dest. */
  ghost function CpyResult(d: seq<char>, src: seq<char>): seq<char>
    requires CLen(src) < |d|
  {
    CStr(src) + [NUL] + d[CLen(src) + 1..]
  }

  lemma CpyResultString(d: seq<char>, src: seq<char>)
    requires CLen(src) < |d|
    ensures |CpyResult(d, src)| == |d|
    ensures CStr(CpyResult(d, src)) == CStr(src)
  {
    CStrTerminated(CpyResult(d, src), CLen(src));
  }

  /**
   * _strcpy: when dest and src are the same buffer, or src is NULL, dest is returned
   * untouched; otherwise dest holds src's string and a terminator.
   */
  method StrCpy(dest: array<char>, src: array?<char>)
    requires src != null && src != dest ==> CLen(src[..]) < dest.Length
    modifies dest
    ensures src == null || src == dest ==> dest[..] == old(dest[..])
    ensures src != null && src != dest ==> dest[..] == CpyResult(old(dest[..]), old(src[..]))
  {
    if src == dest || src == null {
      return;
    }
    ghost var d0, s0 := dest[..], src[..];
    var i := 0;
    while i < src.Length && src[i] != NUL
      invariant 0 <= i <= CLen(s0) && src[..] == s0 && NoNul(s0[..i])
      invariant forall t :: 0 <= t < dest.Length ==> dest[t] == if t < i then s0[t] else d0[t]
      decreases CLen(s0) - i
    {
      dest[i] := src[i];
      i := i + 1;
    }
    CLenIs(s0, i);
    dest[i] := NUL;
    assert dest[..] == CpyResult(d0, s0);
  }

  /**
   * _strdup: NULL for NULL; otherwise a new block of _strlen(str) + 1 bytes holding the
   * string and its terminator. The failure of malloc is not part of this model.
   */
  method StrDup(str: Option<seq<char>>) returns (r: array?<char>)
    ensures str.None? <==> r == null
    ensures r != null ==> fresh(r) && CStr(r[..]) == CStr(str.value) && r.Length == CLen(str.value) + 1
  {
    if str.None? {
      return null;
    }
    var length := StrLen(str);
    r := new char[length + 1](_ => NUL);
    // the string being duplicated, as the block _strcpy reads from
    var src := new char[length](k requires 0 <= k < length => str.value[k]);
    assert src[..] == CStr(str.value);
    CStrNoNul(src[..]);
    ghost var r0 := r[..];
    StrCpy(r, src);
    CpyResultString(r0, src[..]);
  }

  /**
   * _puts: each character of a non-NULL string is passed to _putchar in order;
   * nothing is done for NULL.
   */
  method Puts(con: Console, str: Option<seq<char>>)
    requires con.Valid()
    modifies con.out, con.out.buf
    ensures con.Valid()
    ensures con.out.Emitted() == old(con.out.Emitted()) + (if str.None? then [] else CStr(str.value))
  {
    if str.None? {
      return;
    }
    var s := str.value;
    var i := 0;
    while At(s, i) != NUL
      invariant 0 <= i <= CLen(s) && con.Valid()
      invariant con.out.Emitted() == old(con.out.Emitted()) + s[..i]
      decreases CLen(s) - i
    {
      var _ := PutChar(con, Ch(s[i]));
      assert s[..i + 1] == s[..i] + [s[i]];
      i := i + 1;
    }
  }

  /** _putchar: the standard-output writer (descriptor 1). */
  method PutChar(con: Console, c: OutChar) returns (r: int)
    requires con.Valid()
    modifies con.out, con.out.buf
    ensures con.Valid() && r == 1
    ensures con.out.Emitted() == old(con.out.Emitted()) + (if c.Ch? then [c.c] else [])
    ensures var flush := c.Flush? || old(con.out.i) >= WRITE_BUF_SIZE;
            con.out.log == old(con.out.log) + (if flush then [Write(1, old(con.out.Pending()))] else [])
    ensures c.Flush? ==> con.out.Pending() == []
  {
    r := con.out.Put(c, 1);
  }
}
