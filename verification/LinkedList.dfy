/** The circular doubly linked list: a cycle of nodes through its head. */
module LinkedList {

  /** A node; a null pointer stands for the poison value of a node that is in no list. */
  class ListNode {
    var next: ListNode?
    var prev: ListNode?

    /** A node on its own, or an empty list. */
    constructor ()
      ensures Cycle([this])
    {
      next, prev := this, this;
    }
  }

  function Succ(i: nat, n: nat): nat {
    if i + 1 == n then 0 else i + 1
  }

  function Pred(i: nat, n: nat): nat
    requires i < n
  {
    if i == 0 then n - 1 else i - 1
  }

  /** The nodes are all different, and the pointers of each to the next one and of that one back
      are right; the last one is before the first. */
  ghost predicate Cycle(s: seq<ListNode>)
    reads s
  {
    && s != []
    && (forall i, j :: 0 <= i < j < |s| ==> s[i] != s[j])
    && (forall i {:trigger s[i].next} :: 0 <= i < |s| ==> s[i].next == s[Succ(i, |s|)])
    && (forall i {:trigger s[i].prev} :: 0 <= i < |s| ==> s[i].prev == s[Pred(i, |s|)])
  }

  /** A list with head `list`, whose elements are the rest of the cycle. */
  ghost predicate IsList(list: ListNode, elements: seq<ListNode>)
    reads {list}, elements
  {
    Cycle([list] + elements)
  }

  ghost function Inserted(s: seq<ListNode>, i: nat, x: ListNode): seq<ListNode>
    requires i < |s|
  {
    s[..i + 1] + [x] + s[i + 1..]
  }

  ghost function Removed(s: seq<ListNode>, i: nat): seq<ListNode>
    requires i < |s|
  {
    s[..i] + s[i + 1..]
  }

  lemma InsertedAt(s: seq<ListNode>, i: nat, x: ListNode, k: nat)
    requires i < |s| && k <= |s|
    ensures |Inserted(s, i, x)| == |s| + 1
    ensures Inserted(s, i, x)[k] == if k <= i then s[k] else if k == i + 1 then x else s[k - 1]
  {
  }

  lemma RemovedAt(s: seq<ListNode>, i: nat, k: nat)
    requires i < |s| && k + 1 < |s|
    ensures |Removed(s, i)| == |s| - 1
    ensures Removed(s, i)[k] == if k < i then s[k] else s[k + 1]
  {
  }

  method Init(list: ListNode)
    modifies list
    ensures Cycle([list])
  {
    list.next := list;
    list.prev := list;
  }

  /** Two nodes are neighbours in a cycle, and a third one is not in it. */
  ghost predicate Between(prev: ListNode, next: ListNode, novel: ListNode, s: seq<ListNode>, i: nat)
    reads s
  {
    Cycle(s) && i < |s| && prev == s[i] && next == s[Succ(i, |s|)] && novel !in s
  }

  /** Puts a node between two others: when they are neighbours in a cycle, the `i`-th and the next one,
      and the node is not in it, it is then. The pointers are said of any nodes. */
  method Add(novel: ListNode, prev: ListNode, next: ListNode, ghost s: seq<ListNode>, ghost i: nat)
    modifies novel, prev`next, next`prev
    ensures old(Between(prev, next, novel, s, i)) ==> Cycle(Inserted(s, i, novel))
    ensures prev.next == novel && novel.prev == prev
    ensures novel.next == (if prev == novel then novel else next) && next.prev == (if next == novel then prev else novel)
  {
    hide Inserted;
    next.prev := novel;
    novel.next := next;
    novel.prev := prev;
    prev.next := novel;
    if old(Between(prev, next, novel, s, i)) {
      ghost var t := Inserted(s, i, novel);
      InsertedAt(s, i, novel, 0);
      forall k | 0 <= k < |t| ensures t[k].next == t[Succ(k, |t|)] && t[k].prev == t[Pred(k, |t|)] {
        InsertedAt(s, i, novel, k);
        InsertedAt(s, i, novel, Succ(k, |t|));
        InsertedAt(s, i, novel, Pred(k, |t|));
      }
      forall k, m | 0 <= k < m < |t| ensures t[k] != t[m] {
        InsertedAt(s, i, novel, k);
        InsertedAt(s, i, novel, m);
      }
    }
  }

  method AddAfter(node: ListNode, novel: ListNode, ghost s: seq<ListNode>, ghost i: nat)
    requires node.next != null
    modifies novel, node`next, node.next`prev
    ensures old(Between(node, node.next, novel, s, i)) ==> Cycle(Inserted(s, i, novel))
    ensures var next := old(node.next);
      && node.next == novel && novel.prev == node
      && novel.next == (if node == novel then novel else next) && next.prev == (if next == novel then node else novel)
  {
    hide Inserted, Cycle;
    Add(novel, node, node.next, s, i);
  }

  /** Before the head of a list, the node becomes the last element. */
  method AddBefore(node: ListNode, novel: ListNode, ghost s: seq<ListNode>, ghost i: nat)
    requires node.prev != null
    modifies novel, node`prev, node.prev`next
    ensures old(Between(node.prev, node, novel, s, i)) ==> Cycle(Inserted(s, i, novel))
    ensures old(Between(node.prev, node, novel, s, i)) && i + 1 == |s| ==> Inserted(s, i, novel) == s + [novel]
    ensures var prev := old(node.prev);
      && prev.next == novel && novel.prev == prev
      && novel.next == (if prev == novel then novel else node) && node.prev == (if node == novel then prev else novel)
  {
    hide Cycle;
    Add(novel, node.prev, node, s, i);
  }

  /** Takes a node out by joining its neighbours; its own pointers stay. */
  method Detach(prev: ListNode, next: ListNode, ghost s: seq<ListNode>, ghost i: nat)
    requires Cycle(s) && i < |s| && prev == s[Pred(i, |s|)] && next == s[Succ(i, |s|)]
    modifies prev`next, next`prev
    ensures |s| > 1 ==> Cycle(Removed(s, i)) && s[i].next == old(s[i].next) && s[i].prev == old(s[i].prev)
    ensures |s| == 1 ==> Cycle(s)
  {
    hide Removed;
    next.prev := prev;
    prev.next := next;
    if |s| > 1 {
      ghost var t := Removed(s, i);
      RemovedAt(s, i, 0);
      forall k | 0 <= k < |t| ensures t[k].next == t[Succ(k, |t|)] && t[k].prev == t[Pred(k, |t|)] {
        RemovedAt(s, i, k);
        RemovedAt(s, i, Succ(k, |t|));
        RemovedAt(s, i, Pred(k, |t|));
      }
      forall k, m | 0 <= k < m < |t| ensures t[k] != t[m] {
        RemovedAt(s, i, k);
        RemovedAt(s, i, m);
      }
    }
  }

  method Del(node: ListNode, ghost s: seq<ListNode>, ghost i: nat)
    requires Cycle(s) && i < |s| && node == s[i]
    modifies s
    ensures node.next == null && node.prev == null
    ensures |s| > 1 ==> Cycle(Removed(s, i))
  {
    Detach(node.prev, node.next, s, i);
    node.next := null;
    node.prev := null;
  }

  method DelInit(node: ListNode, ghost s: seq<ListNode>, ghost i: nat)
    requires Cycle(s) && i < |s| && node == s[i]
    modifies s
    ensures Cycle([node])
    ensures |s| > 1 ==> Cycle(Removed(s, i))
  {
    Detach(node.prev, node.next, s, i);
    Init(node);
  }

  /** A node takes the place of another one; the first assignments make it right for a node that is
      alone, too. The old node keeps its pointers, except when it is alone. */
  method Replace(outgoing: ListNode, novel: ListNode, ghost s: seq<ListNode>, ghost i: nat)
    requires Cycle(s) && i < |s| && outgoing == s[i] && novel !in s
    modifies novel, s
    ensures Cycle(s[i := novel])
  {
    novel.next := outgoing.next;
    novel.next.prev := novel;
    novel.prev := outgoing.prev;
    novel.prev.next := novel;
    ghost var t := s[i := novel];
    ghost var n := |s|;
    assert forall k, m :: 0 <= k < m < n ==> t[k] != t[m];
    if n > 1 {
      forall k | 0 <= k < n ensures t[k].next == t[Succ(k, n)] {
        assert t[k].next == if k == i then s[Succ(i, n)] else if Succ(k, n) == i then novel else s[Succ(k, n)];
      }
      forall k | 0 <= k < n ensures t[k].prev == t[Pred(k, n)] {
        assert t[k].prev == if k == i then s[Pred(i, n)] else if Pred(k, n) == i then novel else s[Pred(k, n)];
      }
    }
  }

  method ReplaceInit(outgoing: ListNode, novel: ListNode, ghost s: seq<ListNode>, ghost i: nat)
    requires Cycle(s) && i < |s| && outgoing == s[i] && novel !in s
    modifies novel, s
    ensures Cycle(s[i := novel]) && Cycle([outgoing])
  {
    Replace(outgoing, novel, s, i);
    Init(outgoing);
  }

  /** The place of the `i`-th node after the removal of the `j`-th. */
  function Shift(i: nat, j: nat): nat {
    if j < i then i - 1 else i
  }

  lemma MoveOut(s: seq<ListNode>, i: nat, j: nat)
    requires Cycle(s) && i < |s| && j < |s|
    ensures s[j].prev == s[Pred(j, |s|)] && s[j].next == s[Succ(j, |s|)] && s[j] in s
    ensures i != j ==>
      && |Removed(s, j)| == |s| - 1 && Shift(i, j) < |s| - 1
      && Removed(s, j)[Shift(i, j)] == s[i] && s[j] !in Removed(s, j)
      && forall k :: 0 <= k < |s| - 1 ==> Removed(s, j)[k] in s
  {
  }

  /** The node is in no list any more, nor are the others: it points to itself, but a node that was its
      neighbour still points to it. */
  ghost predicate Broken(s: seq<ListNode>, j: nat)
    requires j < |s|
    reads s
  {
    !Cycle(s) && !Cycle(Removed(s, j))
  }

  lemma NextBreaks(s: seq<ListNode>, j: nat)
    requires j < |s| && |s| > 1 && (forall m, n :: 0 <= m < n < |s| ==> s[m] != s[n])
    requires s[j].next == s[j]
    requires s[Succ(j, |s|)].prev == s[j] || s[Pred(j, |s|)].next == s[j]
    ensures Broken(s, j)
  {
    var n, p := Succ(j, |s|), Pred(j, |s|);
    assert s[j].next != s[n];
    var k, m := if n < j then n else n - 1, if p < j then p else p - 1;
    RemovedAt(s, j, k);
    RemovedAt(s, j, m);
    RemovedAt(s, j, Pred(k, |s| - 1));
    RemovedAt(s, j, Succ(m, |s| - 1));
    assert Removed(s, j)[k] == s[n] && Removed(s, j)[m] == s[p];
  }

  lemma Neighbours(s: seq<ListNode>, i: nat, novel: ListNode)
    requires Cycle(s) && i < |s|
    ensures forall m, n :: 0 <= m < n < |s| ==> s[m] != s[n]
    ensures s[i].prev == s[Pred(i, |s|)] && s[i].next == s[Succ(i, |s|)]
    ensures novel !in s ==> Between(s[i].prev, s[i], novel, s, Pred(i, |s|)) && Between(s[i], s[i].next, novel, s, i)
  {
  }

  lemma Alone(s: seq<ListNode>)
    requires |s| == 1 && s[0].next == s[0] && s[0].prev == s[0]
    ensures Cycle(s)
  {
  }

  /** Moves a node after another one. After itself, it may be moved if and only if it is alone. */
  method MoveAfter(to: ListNode, from: ListNode, ghost s: seq<ListNode>, ghost i: nat, ghost j: nat)
    requires Cycle(s) && i < |s| && j < |s| && to == s[i] && from == s[j]
    modifies s
    ensures i != j ==> Cycle(Inserted(Removed(s, j), Shift(i, j), from))
    ensures i == j ==> if |s| == 1 then Cycle(s) else Broken(s, j)
  {
    hide Removed, Inserted, Broken, Cycle, Between;
    MoveOut(s, i, j);
    Neighbours(s, j, from);
    Detach(from.prev, from.next, s, j);
    if i != j {
      Neighbours(Removed(s, j), Shift(i, j), from);
    } else if |s| == 1 {
      Neighbours(s, 0, from);
    }
    AddAfter(to, from, Removed(s, j), Shift(i, j));
    if i == j && |s| > 1 {
      NextBreaks(s, j);
    } else if i == j {
      Alone(s);
    }
  }

  /** Moves a node before another one. Before itself, it may be moved if and only if it is alone. */
  method MoveBefore(to: ListNode, from: ListNode, ghost s: seq<ListNode>, ghost i: nat, ghost j: nat)
    requires Cycle(s) && i < |s| && j < |s| && to == s[i] && from == s[j]
    modifies s
    ensures i != j ==> Cycle(Inserted(Removed(s, j), Pred(Shift(i, j), |s| - 1), from))
    ensures i == j ==> if |s| == 1 then Cycle(s) else Broken(s, j)
  {
    hide Removed, Inserted, Broken, Cycle, Between;
    MoveOut(s, i, j);
    Neighbours(s, j, from);
    Detach(from.prev, from.next, s, j);
    if i != j {
      Neighbours(Removed(s, j), Shift(i, j), from);
    } else if |s| == 1 {
      Neighbours(s, 0, from);
    }
    AddBefore(to, from, Removed(s, j), if i == j then 0 else Pred(Shift(i, j), |s| - 1));
    if i == j && |s| > 1 {
      NextBreaks(s, j);
    } else if i == j {
      Alone(s);
    }
  }

  /** The element after an item of a list, if there is one. */
  function Next(list: ListNode, item: ListNode): ListNode?
    reads item
  {
    if item.next != list then item.next else null
  }

  lemma NextIsNext(list: ListNode, elements: seq<ListNode>, i: nat)
    requires IsList(list, elements) && i <= |elements|
    ensures Next(list, ([list] + elements)[i]) == if i < |elements| then elements[i] else null
  {
    var s := [list] + elements;
    assert s[i].next == s[Succ(i, |s|)];
    if i < |elements| {
      assert s[i + 1] == elements[i] && s[0] != s[i + 1];
    }
  }

  predicate IsEmpty(list: ListNode)
    reads list
  {
    list.next == list
  }

  predicate IsLast(list: ListNode, node: ListNode)
    reads list
  {
    list.prev == node
  }

  lemma EndsOfList(list: ListNode, elements: seq<ListNode>)
    requires IsList(list, elements)
    ensures IsEmpty(list) <==> elements == []
    ensures elements != [] ==> list.next == elements[0] && IsLast(list, elements[|elements| - 1])
  {
    var s := [list] + elements;
    assert s[0].next == s[Succ(0, |s|)] && s[0].prev == s[Pred(0, |s|)];
    if elements != [] {
      assert s[1] == elements[0] != s[0];
    }
  }

  /** Counts the elements by walking over them, with the next one found before each turn. */
  method Length(list: ListNode, ghost elements: seq<ListNode>) returns (length: nat)
    requires IsList(list, elements)
    ensures length == |elements|
  {
    ghost var s := [list] + elements;
    length := 0;
    assert s[0].next == s[Succ(0, |s|)];
    var current := list.next;
    var tmp := current.next;
    while current != list
      invariant length <= |elements|
      invariant current == s[Succ(length, |s|)] && tmp == current.next
      invariant s[0] == list
      decreases |elements| - length
    {
      length := length + 1;
      assert s[length].next == s[Succ(length, |s|)];
      current := tmp;
      tmp := current.next;
    }
  }
}
