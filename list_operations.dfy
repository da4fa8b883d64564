// linked_lists/list_operations.c: inserting at either end, deleting by position and
// emptying the singly linked lists of the shell (environment, history, aliases).
// A list is the sequence of its nodes held by a ListHead; relinking `next` pointers is
// reassigning that sequence. The failure of malloc is not part of this model.
module ListOperations {
  import opened Base
  import opened StringManipulation1

  /** The string a new node holds: a copy of str, or "" for NULL. */
  function NodeText(str: Option<seq<char>>): Str {
    if str.None? then [] else CStr(str.value)
  }

  /**
   * The list left by deleting position k: every other node in its order; the same
   * list when k is not a position of it.
   */
  function RemoveAt(l: seq<Node>, k: int): (r: seq<Node>)
    ensures 0 <= k < |l| ==> |r| == |l| - 1
                             && (forall j :: 0 <= j < k ==> r[j] == l[j])
                             && (forall j :: k <= j < |r| ==> r[j] == l[j + 1])
    ensures !(0 <= k < |l|) ==> r == l
  {
    if 0 <= k < |l| then l[..k] + l[k + 1..] else l
  }

  /** Deleting the head undoes add_node; deleting the last node undoes add_node_end. */
  lemma RemoveUndoesAdd(l: seq<Node>, n: Node)
    ensures RemoveAt([n] + l, 0) == l
    ensures RemoveAt(l + [n], |l|) == l
  {
    assert ([n] + l)[1..] == l;
    assert (l + [n])[..|l|] == l;
  }

  /** Deleting leaves the node multiset without exactly that node. */
  lemma RemoveAtMultiset(l: seq<Node>, k: int)
    requires 0 <= k < |l|
    ensures multiset(RemoveAt(l, k)) + multiset{l[k]} == multiset(l)
  {
    assert l == l[..k] + [l[k]] + l[k + 1..];
  }

  /**
   * add_node: NULL for a NULL head pointer; otherwise a new head holding a copy of str
   * (or "") and num, followed by the old list.
   */
  method AddNode(head: ListHead?, str: Option<seq<char>>, num: int) returns (r: Option<Node>)
    modifies head
    ensures head == null ==> r.None?
    ensures head != null ==> r == Some(Node(num, NodeText(str)))
                             && head.nodes == [r.value] + old(head.nodes)
  {
    if head == null {
      return None;
    }
    var newHead := Node(num, NodeText(str));
    head.nodes := [newHead] + head.nodes;
    return Some(newHead);
  }

  /**
   * add_node_end: NULL for a NULL head pointer; otherwise the new node follows the old
   * last node, or becomes the head of an empty list.
   */
  method AddNodeEnd(head: ListHead?, str: Option<seq<char>>, num: int) returns (r: Option<Node>)
    modifies head
    ensures head == null ==> r.None?
    ensures head != null ==> r == Some(Node(num, NodeText(str)))
                             && head.nodes == old(head.nodes) + [r.value]
  {
    if head == null {
      return None;
    }
    var newNode := Node(num, NodeText(str));
    head.nodes := head.nodes + [newNode];
    return Some(newNode);
  }

  /**
   * delete_node_at_index: 0 for a NULL head pointer or an empty list; 1 when index is a
   * position of the list, which then loses exactly that node; 0 otherwise, with the
   * list unchanged.
   */
  method DeleteNodeAtIndex(head: ListHead?, index: u32) returns (r: int)
    modifies head
    ensures head == null ==> r == 0
    ensures head != null ==> (r == 1 <==> index < |old(head.nodes)|) && (r == 0 || r == 1)
                             && head.nodes == RemoveAt(old(head.nodes), index)
  {
    if head == null || head.nodes == [] {
      return 0;
    }
    if index == 0 {
      head.nodes := head.nodes[1..];
      return 1;
    }
    var i := 0;
    while i < |head.nodes|
      invariant 0 <= i <= |head.nodes| && i <= index && head.nodes == old(head.nodes)
    {
      if i == index {
        head.nodes := head.nodes[..i] + head.nodes[i + 1..];
        return 1;
      }
      i := i + 1;
    }
    return 0;
  }

  /** free_list: the head pointer becomes NULL, that is, the list is empty. */
  method FreeList(head: ListHead?)
    modifies head
    ensures head != null ==> head.nodes == []
  {
    if head == null || head.nodes == [] {
      return;
    }
    head.nodes := [];
  }
}
