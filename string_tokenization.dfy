// string_operations/string_tokenization.c: splitting a line into words.
// The NULL-terminated array of words is a sequence of strings; each word is built in a
// block of its own length plus one, as the source allocates it. The failure of malloc
// is not part of this model.
module StringTokenization {
  import opened Base
  import opened StringManipulation1
  import opened ShellUtilities

  /** A word: at least one character, none of them a delimiter. */
  predicate IsWord(w: Str, delims: Str) {
    w != [] && forall t :: 0 <= t < |w| ==> w[t] !in delims
  }

  /** The length of the run of non-delimiters that starts at index i. */
  function RunLen(s: Str, delims: Str, i: nat): (k: nat)
    requires i <= |s|
    ensures i + k <= |s| && (i + k < |s| ==> s[i + k] in delims)
    ensures forall t :: i <= t < i + k ==> s[t] !in delims
    decreases |s| - i
  {
    if i < |s| && s[i] !in delims then 1 + RunLen(s, delims, i + 1) else 0
  }

  /** The maximal runs of non-delimiters of s[i..], left to right. */
  function WordsFrom(s: Str, delims: Str, i: nat): (ws: seq<Str>)
    requires i <= |s|
    ensures forall j :: 0 <= j < |ws| ==> IsWord(ws[j], delims)
    decreases |s| - i
  {
    if i == |s| then []
    else if s[i] in delims then WordsFrom(s, delims, i + 1)
    else
      var k := RunLen(s, delims, i);
      [s[i..i + k]] + WordsFrom(s, delims, i + k)
  }

  /** Index i holds the last character of a word, as strtow's counting loop tests it. */
  predicate EndsWord(s: Str, delims: Str, i: nat)
    requires i < |s|
  {
    s[i] !in delims && (i + 1 == |s| || s[i + 1] in delims)
  }

  /** The number of word ends at or after index i. */
  function EndsFrom(s: Str, delims: Str, i: nat): nat
    requires i <= |s|
    decreases |s| - i
  {
    if i == |s| then 0 else (if EndsWord(s, delims, i) then 1 else 0) + EndsFrom(s, delims, i + 1)
  }

  /** A run of non-delimiters holds exactly one word end, its last character. */
  lemma {:induction false} EndsInRun(s: Str, delims: Str, i: nat)
    requires i < |s| && s[i] !in delims
    ensures EndsFrom(s, delims, i) == 1 + EndsFrom(s, delims, i + RunLen(s, delims, i))
    decreases |s| - i
  {
    if i + 1 < |s| && s[i + 1] !in delims {
      EndsInRun(s, delims, i + 1);
    }
  }

  /** There are as many words as word ends: the count strtow allocates for. */
  lemma {:induction false} WordCount(s: Str, delims: Str, i: nat)
    requires i <= |s|
    ensures |WordsFrom(s, delims, i)| == EndsFrom(s, delims, i)
    decreases |s| - i
  {
    if i < |s| {
      if s[i] in delims {
        WordCount(s, delims, i + 1);
      } else {
        EndsInRun(s, delims, i);
        WordCount(s, delims, i + RunLen(s, delims, i));
      }
    }
  }

  function Flatten(ws: seq<Str>): Str {
    if ws == [] then [] else ws[0] + Flatten(ws[1..])
  }

  /** The non-delimiter characters of s[i..], in order. */
  function Kept(s: Str, delims: Str, i: nat): Str
    requires i <= |s|
    decreases |s| - i
  {
    if i == |s| then [] else (if s[i] in delims then [] else [s[i]]) + Kept(s, delims, i + 1)
  }

  lemma {:induction false} KeptRun(s: Str, delims: Str, i: nat, k: nat)
    requires i + k <= |s| && forall t :: i <= t < i + k ==> s[t] !in delims
    ensures Kept(s, delims, i) == s[i..i + k] + Kept(s, delims, i + k)
    decreases k
  {
    if k > 0 {
      KeptRun(s, delims, i + 1, k - 1);
      var rest := Kept(s, delims, i + k);
      assert Kept(s, delims, i) == [s[i]] + Kept(s, delims, i + 1);
      assert Kept(s, delims, i + 1) == s[i + 1..i + k] + rest;
      assert s[i..i + k] == [s[i]] + s[i + 1..i + k];
      assert [s[i]] + (s[i + 1..i + k] + rest) == ([s[i]] + s[i + 1..i + k]) + rest;
    }
  }

  /** A word starts at a non-delimiter and is followed by the words after its run. */
  lemma WordsFromRun(s: Str, delims: Str, i: nat)
    requires i < |s| && s[i] !in delims
    ensures var k := RunLen(s, delims, i);
            WordsFrom(s, delims, i) == [s[i..i + k]] + WordsFrom(s, delims, i + k)
  {
  }

  lemma FlattenCons(w: Str, ws: seq<Str>)
    ensures Flatten([w] + ws) == w + Flatten(ws)
  {
    assert ([w] + ws)[1..] == ws;
  }

  /** No character is lost or invented: the words together are the non-delimiters. */
  lemma {:induction false} WordsKeepText(s: Str, delims: Str, i: nat)
    requires i <= |s|
    ensures Flatten(WordsFrom(s, delims, i)) == Kept(s, delims, i)
    decreases |s| - i
  {
    if i < |s| {
      if s[i] in delims {
        WordsKeepText(s, delims, i + 1);
        DelimSkipped(s, delims, i);
      } else {
        var k := RunLen(s, delims, i);
        WordsKeepText(s, delims, i + k);
        WordKeepsRun(s, delims, i, k);
      }
    }
  }

  /** A delimiter adds no word and no character. */
  lemma DelimSkipped(s: Str, delims: Str, i: nat)
    requires i < |s| && s[i] in delims
    ensures WordsFrom(s, delims, i) == WordsFrom(s, delims, i + 1)
    ensures Kept(s, delims, i) == Kept(s, delims, i + 1)
  {
  }

  /** The step of WordsKeepText over one word: its run joins the text after it. */
  lemma WordKeepsRun(s: Str, delims: Str, i: nat, k: nat)
    requires i < |s| && s[i] !in delims && k == RunLen(s, delims, i)
    requires Flatten(WordsFrom(s, delims, i + k)) == Kept(s, delims, i + k)
    ensures Flatten(WordsFrom(s, delims, i)) == Kept(s, delims, i)
  {
    var w, rest := s[i..i + k], WordsFrom(s, delims, i + k);
    KeptRun(s, delims, i, k);
    WordsFromRun(s, delims, i);
    FlattenCons(w, rest);
  }

  /** The delimiter set strtow uses: d, or " " for a NULL d. */
  function DelimMemory(d: Option<seq<char>>): seq<char> {
    if d.None? then " " else d.value
  }

  /**
   * What strtow returns: NULL (None) for a NULL or empty string and for a string
   * without words; otherwise its words.
   */
  function StrTowSpec(str: Option<seq<char>>, d: Option<seq<char>>): Option<seq<Str>> {
    if str.None? || CLen(str.value) == 0 then None
    else
      var ws := WordsFrom(CStr(str.value), CStr(DelimMemory(d)), 0);
      if ws == [] then None else Some(ws)
  }

  /** What a caller of strtow may rely on: nonempty words that reassemble the text. */
  lemma StrTowWords(str: Option<seq<char>>, d: Option<seq<char>>)
    ensures var r := StrTowSpec(str, d);
            && (str.None? || CLen(str.value) == 0 ==> r.None?)
            && (r.Some? ==>
                  && |r.value| >= 1
                  && (forall j :: 0 <= j < |r.value| ==> IsWord(r.value[j], CStr(DelimMemory(d))))
                  && Flatten(r.value) == Kept(CStr(str.value), CStr(DelimMemory(d)), 0))
            && (str.Some? && r.None? ==> Kept(CStr(str.value), CStr(DelimMemory(d)), 0) == [])
  {
    if str.Some? {
      WordsKeepText(CStr(str.value), CStr(DelimMemory(d)), 0);
    }
  }

  /** The text character at i is a delimiter, as is_delimiter sees it. */
  lemma DelimAt(m: seq<char>, s: Str, dm: seq<char>, i: nat)
    requires s == CStr(m) && i <= |s|
    ensures IsDelimiter(At(m, i), dm) <==> i < |s| && s[i] in CStr(dm)
    ensures At(m, i) == NUL <==> i == |s|
  {
    if i < |s| {
      assert At(m, i) == s[i];
    }
  }

  /** The counting loop of strtow: one for every character that ends a word. */
  method CountWords(m: seq<char>, dm: seq<char>) returns (numwords: nat)
    ensures numwords == |WordsFrom(CStr(m), CStr(dm), 0)|
  {
    ghost var s := CStr(m);
    ghost var delims := CStr(dm);
    numwords := 0;
    var i := 0;
    while At(m, i) != NUL
      invariant 0 <= i <= |s| && numwords + EndsFrom(s, delims, i) == EndsFrom(s, delims, 0)
      decreases |s| - i
    {
      DelimAt(m, s, dm, i);
      DelimAt(m, s, dm, i + 1);
      if !IsDelimiter(m[i], dm) && (IsDelimiter(At(m, i + 1), dm) || At(m, i + 1) == NUL) {
        numwords := numwords + 1;
      }
      i := i + 1;
    }
    WordCount(s, delims, 0);
  }

  /**
   * One round of strtow's filling loop from index i: skips delimiters, measures the
   * run that follows and copies it into a fresh block with a terminator. Returns the
   * word and the index just past it.
   */
  method NextWord(m: seq<char>, dm: seq<char>, i0: nat) returns (word: Str, i: nat)
    requires i0 <= |CStr(m)| && WordsFrom(CStr(m), CStr(dm), i0) != []
    ensures i <= |CStr(m)|
    ensures WordsFrom(CStr(m), CStr(dm), i0) == [word] + WordsFrom(CStr(m), CStr(dm), i)
  {
    ghost var s := CStr(m);
    ghost var delims := CStr(dm);
    i := SkipDelimiters(m, dm, i0);
    var k := RunLength(m, dm, i);
    WordsFromRun(s, delims, i);
    word := CopyWord(m, i, k);
    CStrSlice(m, i, i + k);
    i := i + k;
  }

  /** The skipping loop of strtow: the index of the next non-delimiter, or the end. */
  method SkipDelimiters(m: seq<char>, dm: seq<char>, i0: nat) returns (i: nat)
    requires i0 <= |CStr(m)|
    ensures i <= |CStr(m)| && WordsFrom(CStr(m), CStr(dm), i) == WordsFrom(CStr(m), CStr(dm), i0)
    ensures i < |CStr(m)| ==> CStr(m)[i] !in CStr(dm)
  {
    ghost var s := CStr(m);
    ghost var delims := CStr(dm);
    i := i0;
    DelimAt(m, s, dm, i);
    while IsDelimiter(At(m, i), dm)
      invariant i <= |s| && WordsFrom(s, delims, i) == WordsFrom(s, delims, i0)
      invariant IsDelimiter(At(m, i), dm) <==> i < |s| && s[i] in delims
      decreases |s| - i
    {
      i := i + 1;
      DelimAt(m, s, dm, i);
    }
  }

  /** The measuring loop of strtow: the length of the run of non-delimiters at i. */
  method RunLength(m: seq<char>, dm: seq<char>, i: nat) returns (k: nat)
    requires i <= |CStr(m)|
    ensures k == RunLen(CStr(m), CStr(dm), i)
  {
    ghost var s := CStr(m);
    ghost var delims := CStr(dm);
    k := 0;
    DelimAt(m, s, dm, i);
    while !IsDelimiter(At(m, i + k), dm) && At(m, i + k) != NUL
      invariant i + k <= |s| && forall t :: i <= t < i + k ==> s[t] !in delims
      invariant IsDelimiter(At(m, i + k), dm) <==> i + k < |s| && s[i + k] in delims
      invariant At(m, i + k) == NUL <==> i + k == |s|
      decreases |s| - i - k
    {
      k := k + 1;
      DelimAt(m, s, dm, i + k);
    }
    RunLenIs(s, delims, i, k);
  }

  /** The copy of strtow: k characters from index i into a block of k + 1 with a terminator. */
  method CopyWord(m: seq<char>, i0: nat, k: nat) returns (word: Str)
    requires i0 + k <= |m|
    ensures word == m[i0..i0 + k]
  {
    var block := new char[k + 1];
    var i := i0;
    var t := 0;
    while t < k
      invariant 0 <= t <= k && i == i0 + t
      invariant block[..t] == m[i0..i]
    {
      block[t] := m[i];
      assert block[..t + 1] == block[..t] + [m[i]];
      i := i + 1;
      t := t + 1;
    }
    block[t] := NUL;
    word := block[..k];
  }

  /**
   * strtow: counts the word ends, then copies each maximal run of non-delimiters into a
   * block of its own.
   */
  method StrTow(str: Option<seq<char>>, d: Option<seq<char>>) returns (r: Option<seq<Str>>)
    ensures r == StrTowSpec(str, d)
  {
    if str.None? || At(str.value, 0) == NUL {
      return None;
    }
    var m := str.value;
    var dm := DelimMemory(d);
    ghost var ws := WordsFrom(CStr(m), CStr(dm), 0);
    var numwords := CountWords(m, dm);
    if numwords == 0 {
      return None;
    }
    var words: seq<Str> := [];
    var i := 0;
    var j := 0;
    while j < numwords
      invariant 0 <= i <= |CStr(m)| && j == |words| && numwords == |ws|
      invariant words + WordsFrom(CStr(m), CStr(dm), i) == ws
      decreases numwords - j
    {
      assert |words + WordsFrom(CStr(m), CStr(dm), i)| > j;
      var word;
      word, i := NextWord(m, dm, i);
      AppendAssoc(words, [word], WordsFrom(CStr(m), CStr(dm), i));
      words := words + [word];
      j := j + 1;
    }
    assert |words + WordsFrom(CStr(m), CStr(dm), i)| == |words|;
    assert words + [] == words;
    r := Some(words);
  }

  /** A run of k non-delimiters ended by a delimiter or the end is the run at i. */
  lemma {:induction false} RunLenIs(s: Str, delims: Str, i: nat, k: nat)
    requires i + k <= |s| && (forall t :: i <= t < i + k ==> s[t] !in delims)
    requires i + k < |s| ==> s[i + k] in delims
    ensures RunLen(s, delims, i) == k
    decreases k
  {
    if k > 0 {
      RunLenIs(s, delims, i + 1, k - 1);
    }
  }

  /** The character after index i of a C string, its terminator included. */
  function Next(s: Str, i: nat): char {
    if i + 1 < |s| then s[i + 1] else NUL
  }

  /** The counting test of strtow2 at index i, as written. */
  predicate CountsField(s: Str, d: char, i: nat)
    requires i < |s|
  {
    (s[i] != d && Next(s, i) == d) || (s[i] != d && Next(s, i) == NUL) || Next(s, i) == d
  }

  function FieldsFrom(s: Str, d: char, i: nat): nat
    requires i <= |s|
    decreases |s| - i
  {
    if i == |s| then 0 else (if CountsField(s, d, i) then 1 else 0) + FieldsFrom(s, d, i + 1)
  }

  /** The index of the first d in s, or |s|. */
  function Cut(s: Str, d: char): (k: nat)
    ensures k <= |s| && (k < |s| ==> s[k] == d) && forall t :: 0 <= t < k ==> s[t] != d
  {
    if s == [] || s[0] == d then 0 else 1 + Cut(s[1..], d)
  }

  /**
   * What strtow2 returns: NULL for a NULL or empty string or a count of 0; otherwise
   * the text before the first d, followed by empty strings up to the count, because
   * its skipping loop never advances past a d.
   */
  function StrTow2Spec(str: Option<seq<char>>, d: char): Option<seq<Str>> {
    if str.None? || CLen(str.value) == 0 then None
    else
      var s := CStr(str.value);
      var n := FieldsFrom(s, d, 0);
      if n == 0 then None else Some([s[..Cut(s, d)]] + seq(n - 1, _ => []))
  }

  function Occurrences(s: Str, d: char): nat {
    if s == [] then 0 else (if s[0] == d then 1 else 0) + Occurrences(s[1..], d)
  }

  lemma {:induction false} FieldsCount(s: Str, d: char, i: nat)
    requires d != NUL && i < |s| && NoNul(s)
    ensures FieldsFrom(s, d, i) == Occurrences(s[i + 1..], d) + (if s[|s| - 1] != d then 1 else 0)
    decreases |s| - i
  {
    if i + 1 < |s| {
      FieldsCount(s, d, i + 1);
      assert s[i + 1..][1..] == s[i + 2..];
    } else {
      assert s[i + 1..] == [];
    }
  }

  /**
   * The token count of strtow2 for a delimiter other than NUL: one per d after the
   * first character, plus one when the string does not end in d. So only the string
   * made of one d yields NULL; every token but the first is empty.
   */
  lemma StrTow2Shape(str: Option<seq<char>>, d: char)
    requires d != NUL && str.Some? && CLen(str.value) > 0
    ensures var s := CStr(str.value);
            && FieldsFrom(s, d, 0) == Occurrences(s[1..], d) + (if s[|s| - 1] != d then 1 else 0)
            && (StrTow2Spec(str, d).None? <==> s == [d])
            && (StrTow2Spec(str, d).Some? ==>
                  && StrTow2Spec(str, d).value[0] == s[..Cut(s, d)]
                  && forall j :: 1 <= j < |StrTow2Spec(str, d).value| ==> StrTow2Spec(str, d).value[j] == [])
  {
    var s := CStr(str.value);
    FieldsCount(s, d, 0);
    if s == [d] {
      assert s[1..] == [];
    } else if |s| > 1 && s[|s| - 1] == d {
      assert Occurrences(s[1..], d) > 0 by {
        OccursAtEnd(s[1..], d);
      }
    }
  }

  lemma {:induction false} OccursAtEnd(s: Str, d: char)
    requires s != [] && s[|s| - 1] == d
    ensures Occurrences(s, d) > 0
  {
    if s[0] != d {
      OccursAtEnd(s[1..], d);
    }
  }

  lemma {:induction false} CutIs(s: Str, d: char, k: nat)
    requires k <= |s| && (k < |s| ==> s[k] == d) && forall t :: 0 <= t < k ==> s[t] != d
    ensures Cut(s, d) == k
  {
    if k > 0 {
      CutIs(s[1..], d, k - 1);
    }
  }

  /**
   * strtow2, as written: the counting loop, then a filling loop whose skipping
   * condition `str[i] == d && str[i] != d` never holds.
   */
  method StrTow2(str: Option<seq<char>>, d: char) returns (r: Option<seq<Str>>)
    ensures r == StrTow2Spec(str, d)
  {
    if str.None? || At(str.value, 0) == NUL {
      return None;
    }
    var m := str.value;
    ghost var s := CStr(m);
    var numwords := 0;
    var i := 0;
    while At(m, i) != NUL
      invariant 0 <= i <= |s| && numwords + FieldsFrom(s, d, i) == FieldsFrom(s, d, 0)
      decreases |s| - i
    {
      assert m[i] == s[i] && At(m, i + 1) == Next(s, i);
      if (m[i] != d && At(m, i + 1) == d) || (m[i] != d && At(m, i + 1) == NUL) || At(m, i + 1) == d {
        numwords := numwords + 1;
      }
      i := i + 1;
    }
    if numwords == 0 {
      return None;
    }
    var words: seq<Str> := [];
    i := 0;
    var j := 0;
    while j < numwords
      invariant 0 <= j <= numwords && |words| == j
      invariant j == 0 ==> i == 0
      invariant j > 0 ==> i == Cut(s, d) && words == [s[..i]] + seq(j - 1, _ => [])
      decreases numwords - j
    {
      // The skipping loop `while (str[i] == d && str[i] != d) i++;` never runs.
      var k := 0;
      while At(m, i + k) != d && At(m, i + k) != NUL && At(m, i + k) != d
        invariant i + k <= |s| && forall t :: i <= t < i + k ==> s[t] != d
        decreases |s| - i - k
      {
        assert At(m, i + k) == s[i + k];
        k := k + 1;
      }
      ghost var i0 := i;
      var word := CopyWord(m, i, k);
      i := i + k;
      if j == 0 {
        CutIs(s, d, k);
        assert word == s[..Cut(s, d)];
      } else {
        assert k == 0;
      }
      words := words + [word];
      j := j + 1;
    }
    r := Some(words);
  }
}
