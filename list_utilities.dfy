// linked_lists/list_utilities.c: length, conversion to an array of strings, printing
// and searching of the shell's lists. A node is identified by its position.
module ListUtilities {
  import opened Base
  import opened StringManipulation1
  import opened OutputBuffers
  import opened StringManipulation2
  import opened StringConverters

  /** list_len: the number of nodes, counted one by one. */
  function ListLen(l: seq<Node>): (n: nat)
    ensures n == |l|
  {
    if l == [] then 0 else 1 + ListLen(l[1..])
  }

  /** The strings of the nodes, in list order. */
  function Strings(l: seq<Node>): (r: seq<Str>)
    ensures |r| == |l| && forall j :: 0 <= j < |l| ==> r[j] == CStr(l[j].str)
  {
    if l == [] then [] else [CStr(l[0].str)] + Strings(l[1..])
  }

  /**
   * list_to_strings: NULL for an empty list; otherwise a copy of every node's string
   * in list order (the array's NULL terminator is the end of the sequence).
   */
  method ListToStrings(l: seq<Node>) returns (r: Option<seq<Str>>)
    ensures l == [] <==> r.None?
    ensures r.Some? ==> r.value == Strings(l)
  {
    var n := ListLen(l);
    if l == [] || n == 0 {
      return None;
    }
    var strs := new Str[n + 1];
    var i := 0;
    while i < n
      invariant 0 <= i <= n && forall j :: 0 <= j < i ==> strs[j] == CStr(l[j].str)
    {
      var copy := StrDup(Some(l[i].str));
      strs[i] := copy[..CLen(copy[..])];
      i := i + 1;
    }
    strs[n] := [];
    r := Some(strs[..n]);
  }

  /** The line print_list writes for one node: "num: str" and a newline. */
  function NodeLine(n: Node): Str
    requires INT_MIN <= n.num <= INT_MAX
  {
    NumberText(n.num, 10, 0) + ": " + CStr(n.str) + "\n"
  }

  predicate NumsAreInts(l: seq<Node>) {
    forall j :: 0 <= j < |l| ==> INT_MIN <= l[j].num <= INT_MAX
  }

  /** What print_list writes for the nodes of l. */
  function ListText(l: seq<Node>): Str
    requires NumsAreInts(l)
  {
    if l == [] then [] else ListText(l[..|l| - 1]) + NodeLine(l[|l| - 1])
  }

  /** What print_list_str writes for the nodes of l: each string and a newline. */
  function ListStrText(l: seq<Node>): Str {
    if l == [] then [] else ListStrText(l[..|l| - 1]) + CStr(l[|l| - 1].str) + "\n"
  }

  lemma NumsConcat(a: seq<Node>, b: seq<Node>)
    requires NumsAreInts(a) && NumsAreInts(b)
    ensures NumsAreInts(a + b)
  {
    forall j | 0 <= j < |a + b|
      ensures INT_MIN <= (a + b)[j].num <= INT_MAX
    {
      if j >= |a| {
        assert (a + b)[j] == b[j - |a|];
      }
    }
  }

  /** Printing one list after another writes the two texts one after the other. */
  lemma {:induction false} ListTextAppend(a: seq<Node>, b: seq<Node>)
    requires NumsAreInts(a) && NumsAreInts(b)
    ensures NumsAreInts(a + b) && ListText(a + b) == ListText(a) + ListText(b)
    decreases |b|
  {
    NumsConcat(a, b);
    if b == [] {
      assert a + b == a;
    } else {
      var b' := b[..|b| - 1];
      var last := b[|b| - 1];
      assert (a + b)[..|a + b| - 1] == a + b' && (a + b)[|a + b| - 1] == last;
      assert ListText(a + b) == ListText(a + b') + NodeLine(last);
      assert ListText(b) == ListText(b') + NodeLine(last);
      ListTextAppend(a, b');
      AppendAssoc(ListText(a), ListText(b'), NodeLine(last));
    }
  }

  lemma NumberTextNoNul(num: int)
    requires INT_MIN <= num <= INT_MAX
    ensures NoNul(NumberText(num, 10, 0))
  {
    SignificantChars(Magnitude(num, 0), 10, UPPER_DIGITS);
    var t := NumberText(num, 10, 0);
    forall k | 0 <= k < |t| ensures t[k] != NUL {
      assert t[k] in t;
    }
  }

  /** The body of print_list's loop for one node. */
  method PrintNode(con: Console, n: Node)
    requires con.Valid() && INT_MIN <= n.num <= INT_MAX
    modifies con.out, con.out.buf
    ensures con.Valid()
    ensures con.out.Emitted() == old(con.out.Emitted()) + NodeLine(n)
  {
    ghost var e0 := con.out.Emitted();
    NumberTextIntLength(n.num);
    var text := ConvertNumber(n.num, 10, 0);
    NumberTextNoNul(n.num);
    CStrNoNul(text);
    CStrNoNul("\n");
    Puts(con, Some(text));
    var _ := PutChar(con, Ch(':'));
    AppendAssoc(e0, text, [':']);
    var _ := PutChar(con, Ch(' '));
    AppendAssoc(e0, text + [':'], [' ']);
    assert text + [':'] + [' '] == text + ": ";
    Puts(con, Some(n.str));
    AppendAssoc(e0, text + ": ", CStr(n.str));
    Puts(con, Some("\n"));
    AppendAssoc(e0, text + ": " + CStr(n.str), "\n");
  }

  /** print_list: writes "num: str" for every node and returns the number of nodes. */
  method PrintList(con: Console, l: seq<Node>) returns (count: nat)
    requires con.Valid() && NumsAreInts(l)
    modifies con.out, con.out.buf
    ensures con.Valid() && count == |l|
    ensures con.out.Emitted() == old(con.out.Emitted()) + ListText(l)
  {
    count := 0;
    while count < |l|
      invariant count <= |l| && con.Valid()
      invariant con.out.Emitted() == old(con.out.Emitted()) + ListText(l[..count])
    {
      PrintNode(con, l[count]);
      assert l[..count + 1][..count] == l[..count];
      AppendAssoc(old(con.out.Emitted()), ListText(l[..count]), NodeLine(l[count]));
      count := count + 1;
    }
    assert l[..count] == l;
  }

  /** print_list_str: writes every node's string on a line and returns the number of nodes. */
  method PrintListStr(con: Console, l: seq<Node>) returns (count: nat)
    requires con.Valid()
    modifies con.out, con.out.buf
    ensures con.Valid() && count == |l|
    ensures con.out.Emitted() == old(con.out.Emitted()) + ListStrText(l)
  {
    CStrNoNul("\n");
    count := 0;
    while count < |l|
      invariant count <= |l| && con.Valid()
      invariant con.out.Emitted() == old(con.out.Emitted()) + ListStrText(l[..count])
    {
      ghost var before := con.out.Emitted();
      Puts(con, Some(l[count].str));
      Puts(con, Some("\n"));
      assert l[..count + 1][..count] == l[..count];
      AppendAssoc(old(con.out.Emitted()), ListStrText(l[..count]), CStr(l[count].str));
      AppendAssoc(old(con.out.Emitted()), ListStrText(l[..count]) + CStr(l[count].str), "\n");
      count := count + 1;
    }
    assert l[..count] == l;
  }

  /**
   * The test of node_starts_with: the node's string begins with prefix and, unless c
   * is -1, the character after the prefix is c.
   */
  predicate NodeMatches(n: Node, prefix: seq<char>, c: int) {
    match StartsWith(n.str, prefix)
    case None => false
    case Some(k) => c == -1 || At(n.str, k) as int == c
  }

  /** node_starts_with from position i: the first matching node, or NULL (None). */
  function NodeStartsWith(l: seq<Node>, prefix: seq<char>, c: int, i: nat): (r: Option<nat>)
    requires i <= |l|
    ensures r.Some? ==> i <= r.value < |l| && NodeMatches(l[r.value], prefix, c)
                        && forall j :: i <= j < r.value ==> !NodeMatches(l[j], prefix, c)
    ensures r.None? ==> forall j :: i <= j < |l| ==> !NodeMatches(l[j], prefix, c)
    decreases |l| - i
  {
    if i == |l| then None
    else if NodeMatches(l[i], prefix, c) then Some(i)
    else NodeStartsWith(l, prefix, c, i + 1)
  }

  /**
   * get_node_index: the position of the node, or -1 when it is NULL or not in the list.
   * Nodes are identified by their position, so a node of l is its own index.
   */
  function GetNodeIndex(l: seq<Node>, node: Option<nat>): (r: int)
    ensures -1 <= r < |l|
    ensures r >= 0 <==> node.Some? && node.value < |l|
    ensures r >= 0 ==> r == node.value
  {
    if node.Some? && node.value < |l| then node.value else -1
  }
}
