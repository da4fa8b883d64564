// variables/command_chaining.c: recognising the chain delimiters ';', '&&' and '||'
// in the line buffer, and suppressing the rest of the line after '&&' / '||'.
// The line buffer is the array get_input keeps; the position `*p` is passed in and
// its new value returned.
module CommandChaining {
  import opened Base
  import opened StringManipulation1

  /**
   * The chain type of the delimiter at index j of the buffer s: CMD_OR for "||",
   * CMD_AND for "&&", CMD_CHAIN for ';', and CMD_NORM when j holds no delimiter.
   * A lone '|' or '&' is not a delimiter.
   */
  function DelimType(s: seq<char>, j: nat): (t: int)
    ensures t == CMD_NORM || t == CMD_OR || t == CMD_AND || t == CMD_CHAIN
    ensures t != CMD_NORM ==> j < |s|
  {
    if j < |s| && s[j] == '|' && At(s, j + 1) == '|' then CMD_OR
    else if j < |s| && s[j] == '&' && At(s, j + 1) == '&' then CMD_AND
    else if j < |s| && s[j] == ';' then CMD_CHAIN
    else CMD_NORM
  }

  /** Which characters make a delimiter: exactly ";", "||" and "&&". */
  lemma DelimTypeChars(s: seq<char>, j: nat)
    requires j < |s|
    ensures DelimType(s, j) == CMD_CHAIN <==> s[j] == ';'
    ensures DelimType(s, j) == CMD_OR <==> s[j] == '|' && j + 1 < |s| && s[j + 1] == '|'
    ensures DelimType(s, j) == CMD_AND <==> s[j] == '&' && j + 1 < |s| && s[j + 1] == '&'
    ensures s[j] == '|' && At(s, j + 1) != '|' ==> DelimType(s, j) == CMD_NORM
    ensures s[j] == '&' && At(s, j + 1) != '&' ==> DelimType(s, j) == CMD_NORM
  {
  }

  /** The number of positions *p advances over a delimiter: 1 inside "||" and "&&", else 0. */
  function Advance(t: int): nat {
    if t == CMD_OR || t == CMD_AND then 1 else 0
  }

  /**
   * is_chain: at a delimiter, writes a NUL over its first character, moves *p to its
   * last character, records its type in cmd_buf_type and returns 1; anywhere else
   * returns 0 and changes nothing. buf[*p + 1] is read, so it must exist.
   */
  method IsChain(info: Info, buf: array<char>, p: nat) returns (r: int, q: nat)
    requires p + 1 < buf.Length
    modifies buf, info`cmd_buf_type
    ensures var t := DelimType(old(buf[..]), p);
            && (r == 1 <==> t != CMD_NORM) && (r == 0 <==> t == CMD_NORM)
            && buf[..] == (if t == CMD_NORM then old(buf[..]) else old(buf[..])[p := NUL])
            && q == p + Advance(t)
            && info.cmd_buf_type == (if t == CMD_NORM then old(info.cmd_buf_type) else t)
  {
    var j := p;
    if buf[j] == '|' && buf[j + 1] == '|' {
      buf[j] := NUL;
      j := j + 1;
      info.cmd_buf_type := CMD_OR;
    } else if buf[j] == '&' && buf[j + 1] == '&' {
      buf[j] := NUL;
      j := j + 1;
      info.cmd_buf_type := CMD_AND;
    } else if buf[j] == ';' {
      buf[j] := NUL;
      info.cmd_buf_type := CMD_CHAIN;
    } else {
      return 0, p;
    }
    return 1, j;
  }

  /**
   * Whether the segment after a delimiter of type chainType is suppressed, given the
   * status of the command before it: after "&&" when it failed, after "||" when it
   * succeeded.
   */
  predicate Skips(chainType: int, status: int) {
    (chainType == CMD_AND && status != 0) || (chainType == CMD_OR && status == 0)
  }

  /** '&&' runs the next segment exactly after success, '||' exactly after failure, ';' always. */
  lemma SkipsMeaning(status: int)
    ensures !Skips(CMD_AND, status) <==> status == 0
    ensures !Skips(CMD_OR, status) <==> status != 0
    ensures !Skips(CMD_CHAIN, status) && !Skips(CMD_NORM, status)
  {
  }

  /**
   * check_chain: when the segment starting at i is suppressed, writes a NUL at i and
   * moves *p to len, so that the whole rest of the line is dropped; otherwise changes
   * neither the buffer nor *p.
   */
  method CheckChain(info: Info, buf: array<char>, p: nat, i: nat, len: nat) returns (q: nat)
    requires Skips(info.cmd_buf_type, info.status) ==> i < buf.Length
    modifies buf
    ensures Skips(info.cmd_buf_type, info.status) ==> buf[..] == old(buf[..])[i := NUL] && q == len
    ensures !Skips(info.cmd_buf_type, info.status) ==> buf[..] == old(buf[..]) && q == p
  {
    var j := p;
    if info.cmd_buf_type == CMD_AND {
      if info.status != 0 {
        buf[i] := NUL;
        j := len;
      }
    }
    if info.cmd_buf_type == CMD_OR {
      if info.status == 0 {
        buf[i] := NUL;
        j := len;
      }
    }
    q := j;
  }

  /** The first delimiter at or after j and before len, or len when there is none. */
  function NextDelim(s: seq<char>, j: nat, len: nat): (d: nat)
    requires j <= len
    ensures j <= d <= len
    ensures forall k :: j <= k < d ==> DelimType(s, k) == CMD_NORM
    ensures d < len ==> DelimType(s, d) != CMD_NORM
    decreases len - j
  {
    if j == len then len
    else if DelimType(s, j) != CMD_NORM then j
    else NextDelim(s, j + 1, len)
  }

  /** Any index with the properties of NextDelim is NextDelim. */
  lemma {:induction false} NextDelimIs(s: seq<char>, j: nat, len: nat, d: nat)
    requires j <= d <= len
    requires forall k :: j <= k < d ==> DelimType(s, k) == CMD_NORM
    requires d < len ==> DelimType(s, d) != CMD_NORM
    ensures NextDelim(s, j, len) == d
    decreases d - j
  {
    if j < d {
      NextDelimIs(s, j + 1, len, d);
    }
  }

  /**
   * Suppressing a segment empties it: with a NUL at its start, the segment reads as
   * the empty string whatever followed.
   */
  lemma SuppressedSegmentEmpty(s: seq<char>, i: nat)
    requires i < |s|
    ensures CStr(s[i := NUL][i..]) == []
  {
    CStrTerminated(s[i := NUL][i..], 0);
  }
}
