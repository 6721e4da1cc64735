// The generic doubly linked list of adlist.c, refined against sequences.
module AdList {

  class Node<V> {
    var prev: Node?<V>
    var next: Node?<V>
    const value: V

    // listInitNode
    constructor (value: V)
      ensures this.value == value && prev == null && next == null
    {
      this.value := value;
      prev, next := null, null;
    }
  }

  // ---------------------------------------------------------------------------------------------
  // Chains of nodes
  // ---------------------------------------------------------------------------------------------

  ghost predicate NoRepeat<V>(s: seq<Node<V>>) {
    forall i, j :: 0 <= i < j < |s| ==> s[i] != s[j]
  }

  ghost function Last<V>(s: seq<Node<V>>): Node<V>
    requires s != []
  {
    s[|s| - 1]
  }

  ghost function FirstOf<V>(s: seq<Node<V>>): Node?<V> { if s == [] then null else s[0] }

  ghost function LastOf<V>(s: seq<Node<V>>): Node?<V> { if s == [] then null else Last(s) }

  // Neighbours point at each other, the first node back at before and the last one on to after.
  ghost predicate Chain<V>(before: Node?<V>, s: seq<Node<V>>, after: Node?<V>)
    reads s
  {
    && NoRepeat(s)
    && (forall i {:trigger s[i].prev} :: 0 <= i < |s| ==> s[i].prev == if i == 0 then before else s[i - 1])
    && (forall i {:trigger s[i].next} :: 0 <= i < |s| ==> s[i].next == if i == |s| - 1 then after else s[i + 1])
  }

  ghost predicate Apart<V>(a: seq<Node<V>>, b: seq<Node<V>>) {
    forall n :: n in a ==> n !in b
  }

  lemma ChainSplit<V>(before: Node?<V>, a: seq<Node<V>>, b: seq<Node<V>>, after: Node?<V>)
    requires Chain(before, a + b, after)
    ensures Chain(before, a, if b == [] then after else b[0])
    ensures Chain(if a == [] then before else Last(a), b, after)
    ensures Apart(a, b)
  {
    var s := a + b;
    forall i | 0 <= i < |a|
      ensures a[i].prev == if i == 0 then before else a[i - 1]
      ensures a[i].next == if i == |a| - 1 then (if b == [] then after else b[0]) else a[i + 1]
    {
      assert s[i].prev == if i == 0 then before else s[i - 1];
      assert s[i].next == if i == |s| - 1 then after else s[i + 1];
    }
    forall i | 0 <= i < |b|
      ensures b[i].prev == if i == 0 then (if a == [] then before else Last(a)) else b[i - 1]
      ensures b[i].next == if i == |b| - 1 then after else b[i + 1]
    {
      var k := |a| + i;
      assert s[k].prev == if k == 0 then before else s[k - 1];
      assert s[k].next == if k == |s| - 1 then after else s[k + 1];
    }
    NoRepeatSplit(a, b);
  }

  lemma ChainJoin<V>(before: Node?<V>, a: seq<Node<V>>, b: seq<Node<V>>, after: Node?<V>)
    requires Chain(before, a, if b == [] then after else b[0])
    requires Chain(if a == [] then before else Last(a), b, after)
    requires Apart(a, b)
    ensures Chain(before, a + b, after)
  {
    NoRepeatJoin(a, b);
  }

  lemma NoRepeatSplit<V>(a: seq<Node<V>>, b: seq<Node<V>>)
    requires NoRepeat(a + b)
    ensures NoRepeat(a) && NoRepeat(b) && Apart(a, b)
  {
    var s := a + b;
    forall i, j | 0 <= i < j < |a| ensures a[i] != a[j] { assert s[i] != s[j]; }
    forall i, j | 0 <= i < j < |b| ensures b[i] != b[j] { assert s[|a| + i] != s[|a| + j]; }
    forall n | n in a ensures n !in b {
      var i :| 0 <= i < |a| && a[i] == n;
      forall j | 0 <= j < |b| ensures b[j] != n { assert s[i] != s[|a| + j]; }
    }
  }

  lemma NoRepeatJoin<V>(a: seq<Node<V>>, b: seq<Node<V>>)
    requires NoRepeat(a) && NoRepeat(b) && Apart(a, b)
    ensures NoRepeat(a + b)
  {
    forall i, j | 0 <= i < j < |a + b| ensures (a + b)[i] != (a + b)[j] {
      assert i < |a| ==> a[i] in a;
      assert j >= |a| ==> b[j - |a|] in b;
    }
  }

  lemma ChainOfOne<V>(node: Node<V>)
    ensures Chain(node.prev, [node], node.next)
  {}

  lemma ChainOfNone<V>(before: Node?<V>, after: Node?<V>)
    ensures Chain(before, [], after)
  {}

  lemma ChainEnds<V>(before: Node?<V>, s: seq<Node<V>>, after: Node?<V>)
    requires Chain(before, s, after)
    ensures s != [] ==> s[0].prev == before && Last(s).next == after
  {}

  lemma SplitAt<V>(before: Node?<V>, a: seq<Node<V>>, node: Node<V>, b: seq<Node<V>>, after: Node?<V>)
    requires Chain(before, a + [node] + b, after)
    ensures Chain(before, a, node) && Chain(node, b, after)
    ensures node.prev == if a == [] then before else Last(a)
    ensures node.next == if b == [] then after else b[0]
    ensures Apart(a, b) && node !in a && node !in b
  {
    hide Chain;
    ChainSplit(before, a + [node], b, after);
    ChainSplit(before, a, [node], if b == [] then after else b[0]);
    ChainEnds(if a == [] then before else Last(a), [node], if b == [] then after else b[0]);
    assert Last(a + [node]) == node;
    assert node in [node] && node in a + [node];
    assert forall n :: n in a ==> n in a + [node];
  }

  // node->prev = p, for the first node of a chain.
  method SetPrev<V>(node: Node<V>, p: Node?<V>, ghost before: Node?<V>, ghost s: seq<Node<V>>, ghost after: Node?<V>)
    requires s != [] && s[0] == node && Chain(before, s, after)
    modifies node`prev
    ensures node.prev == p && Chain(p, s, after)
  {
    node.prev := p;
  }

  // node->next = n, for the last node of a chain.
  method SetNext<V>(node: Node<V>, n: Node?<V>, ghost before: Node?<V>, ghost s: seq<Node<V>>, ghost after: Node?<V>)
    requires s != [] && Last(s) == node && Chain(before, s, after)
    modifies node`next
    ensures node.next == n && Chain(before, s, n)
  {
    node.next := n;
  }

  // The end of listInsertNode: the neighbours of a new node point at it.
  method Splice<V>(node: Node<V>, ghost l: seq<Node<V>>, ghost r: seq<Node<V>>)
    requires node.prev == LastOf(l) && node.next == FirstOf(r)
    requires Chain(null, l, FirstOf(r)) && Chain(LastOf(l), r, null)
    requires Apart(l, r) && node !in l && node !in r
    modifies (if l == [] then {} else {Last(l)}), (if r == [] then {} else {r[0]})
    ensures Chain(null, l + [node] + r, null)
  {
    hide Chain;
    assert l != [] ==> Last(l) in l;
    assert r != [] ==> r[0] in r;
    if node.prev != null {
      SetNext(node.prev, node, null, l, FirstOf(r));
    } else {
      ChainOfNone(null, node);
    }
    if node.next != null {
      SetPrev(node.next, node, LastOf(l), r, null);
    } else {
      ChainOfNone(node, null);
    }
    ChainOfOne(node);
    ChainJoin(null, l, [node], FirstOf(r));
    assert Last(l + [node]) == node;
    ChainJoin(null, l + [node], r, null);
  }

  lemma TailIs<V>(a: seq<Node<V>>, node: Node<V>, b: seq<Node<V>>)
    requires node !in b
    ensures Last(a + [node] + b) == node <==> b == []
  {
    if b != [] { assert Last(a + [node] + b) == Last(b) && Last(b) in b; }
  }

  lemma HeadIs<V>(a: seq<Node<V>>, node: Node<V>, b: seq<Node<V>>)
    requires node !in a
    ensures (a + [node] + b)[0] == node <==> a == []
  {
    if a != [] { assert (a + [node] + b)[0] == a[0] && a[0] in a; }
  }

  ghost function ValuesOf<V>(nodes: seq<Node<V>>): seq<V> {
    seq(|nodes|, i requires 0 <= i < |nodes| => nodes[i].value)
  }

  // ---------------------------------------------------------------------------------------------
  // Lists
  // ---------------------------------------------------------------------------------------------

  class List<V> {
    var head: Node?<V>
    var tail: Node?<V>
    var len: nat

    // The nodes of the list from head to tail.
    ghost var nodes: seq<Node<V>>

    ghost predicate Valid()
      reads this, nodes
    {
      len == |nodes| && head == FirstOf(nodes) && tail == LastOf(nodes) && Chain(null, nodes, null)
    }

    ghost function Values(): seq<V>
      reads this
    {
      ValuesOf(nodes)
    }

    // listCreate
    constructor ()
      ensures Valid() && nodes == [] && Values() == []
    {
      head, tail, len := null, null, 0;
      nodes := [];
    }

    // listLinkNodeHead
    method LinkNodeHead(node: Node<V>)
      requires Valid() && node !in nodes
      modifies this, node, (if nodes == [] then {} else {nodes[0]})
      ensures Valid() && nodes == [node] + old(nodes)
    {
      hide Chain;
      if len == 0 {
        head, tail := node, node;
        node.prev, node.next := null, null;
        ChainOfOne(node);
        assert [node] + nodes == [node];
      } else {
        node.prev := null;
        node.next := head;
        SetPrev(head, node, null, nodes, null);
        head := node;
        ChainOfOne(node);
        ChainJoin(null, [node], nodes, null);
      }
      len := len + 1;
      nodes := [node] + nodes;
    }

    // listLinkNodeTail
    method LinkNodeTail(node: Node<V>)
      requires Valid() && node !in nodes
      modifies this, node, (if nodes == [] then {} else {Last(nodes)})
      ensures Valid() && nodes == old(nodes) + [node]
    {
      hide Chain;
      if len == 0 {
        head, tail := node, node;
        node.prev, node.next := null, null;
        ChainOfOne(node);
        assert nodes + [node] == [node];
      } else {
        node.prev := tail;
        node.next := null;
        SetNext(tail, node, null, nodes, null);
        tail := node;
        ChainOfOne(node);
        ChainJoin(null, nodes, [node], null);
      }
      len := len + 1;
      nodes := nodes + [node];
    }

    // listUnlinkNode
    method UnlinkNode(node: Node<V>, ghost a: seq<Node<V>>, ghost b: seq<Node<V>>)
      requires Valid() && nodes == a + [node] + b
      modifies this, node, (if a == [] then {} else {Last(a)}), (if b == [] then {} else {b[0]})
      ensures Valid() && nodes == a + b
      ensures node.prev == null && node.next == null
    {
      hide Chain;
      SplitAt(null, a, node, b, null);
      assert a != [] ==> Last(a) in a && Last(a) == nodes[|a| - 1];
      assert b != [] ==> b[0] in b && b[0] == nodes[|a| + 1];
      assert node == nodes[|a|];
      ghost var before, after := LastOf(a), FirstOf(b);
      if a == [] { ChainOfNone(null, after); }
      if b == [] { ChainOfNone(before, null); }
      if node.prev != null {
        SetNext(node.prev, node.next, null, a, node);
      } else {
        head := node.next;
      }
      assert Chain(null, a, after);
      if node.next != null {
        SetPrev(node.next, node.prev, node, b, null);
      } else {
        tail := node.prev;
      }
      assert Chain(before, b, null);
      node.next := null;
      node.prev := null;
      len := len - 1;
      ChainJoin(null, a, b, null);
      nodes := a + b;
    }

    // listAddNodeHead
    method AddNodeHead(value: V)
      requires Valid()
      modifies this, (if nodes == [] then {} else {nodes[0]})
      ensures Valid() && |nodes| == |old(nodes)| + 1 && nodes[1..] == old(nodes) && fresh(nodes[0])
      ensures Values() == [value] + old(Values())
    {
      var node := new Node(value);
      LinkNodeHead(node);
      assert nodes[1..] == old(nodes);
    }

    // listAddNodeTail
    method AddNodeTail(value: V)
      requires Valid()
      modifies this, (if nodes == [] then {} else {Last(nodes)})
      ensures Valid() && |nodes| == |old(nodes)| + 1 && nodes[..|nodes| - 1] == old(nodes) && fresh(Last(nodes))
      ensures Values() == old(Values()) + [value]
    {
      var node := new Node(value);
      LinkNodeTail(node);
      assert nodes[..|nodes| - 1] == old(nodes);
    }

    // listInsertNode with after set
    method InsertAfter(oldNode: Node<V>, value: V, ghost a: seq<Node<V>>, ghost b: seq<Node<V>>)
      requires Valid() && nodes == a + [oldNode] + b
      modifies this, nodes
      ensures Valid() && |nodes| == |old(nodes)| + 1
      ensures fresh(nodes[|a| + 1]) && nodes[|a| + 1].value == value
      ensures nodes[..|a| + 1] + nodes[|a| + 2..] == old(nodes)
    {
      hide Chain;
      ghost var l := a + [oldNode];
      assert Last(l) == nodes[|a|] && (b != [] ==> b[0] == nodes[|a| + 1]);
      SplitAt(null, a, oldNode, b, null);
      ChainSplit(null, l, b, null);
      TailIs(a, oldNode, b);
      var node := new Node(value);
      node.prev := oldNode;
      node.next := oldNode.next;
      if tail == oldNode {
        tail := node;
      }
      Splice(node, l, b);
      len := len + 1;
      nodes := l + [node] + b;
      assert nodes[..|l|] == l && nodes[|l| + 1..] == b;
    }

    // listInsertNode with after clear
    method InsertBefore(oldNode: Node<V>, value: V, ghost a: seq<Node<V>>, ghost b: seq<Node<V>>)
      requires Valid() && nodes == a + [oldNode] + b
      modifies this, nodes
      ensures Valid() && |nodes| == |old(nodes)| + 1
      ensures fresh(nodes[|a|]) && nodes[|a|].value == value
      ensures nodes[..|a|] + nodes[|a| + 1..] == old(nodes)
    {
      hide Chain;
      ghost var r := [oldNode] + b;
      assert nodes == a + r;
      assert r[0] == nodes[|a|] && (a != [] ==> Last(a) == nodes[|a| - 1]);
      SplitAt(null, a, oldNode, b, null);
      ChainSplit(null, a, r, null);
      HeadIs(a, oldNode, b);
      var node := new Node(value);
      node.next := oldNode;
      node.prev := oldNode.prev;
      if head == oldNode {
        head := node;
      }
      Splice(node, a, r);
      len := len + 1;
      nodes := a + [node] + r;
      assert nodes[..|a|] == a && nodes[|a| + 1..] == r;
    }

    // listDelNode, for a list whose values need no freeing
    method DelNode(node: Node<V>, ghost a: seq<Node<V>>, ghost b: seq<Node<V>>)
      requires Valid() && nodes == a + [node] + b
      modifies this, node, (if a == [] then {} else {Last(a)}), (if b == [] then {} else {b[0]})
      ensures Valid() && nodes == a + b
    {
      UnlinkNode(node, a, b);
    }

    // listEmpty
    method Empty()
      requires Valid()
      modifies this
      ensures Valid() && nodes == []
    {
      var current := head;
      var left := len;
      while left > 0
        invariant 0 <= left <= |nodes|
        invariant current == FirstOf(nodes[|nodes| - left..])
      {
        var next := current.next;
        current := next;
        left := left - 1;
      }
      head, tail := null, null;
      len := 0;
      nodes := [];
    }

    // listIndex: negative positions count from the tail.
    method Index(index: int) returns (n: Node?<V>)
      requires Valid()
      ensures var k := if index < 0 then |nodes| + index else index;
        n == if 0 <= k < |nodes| then nodes[k] else null
    {
      var i := index;
      if i < 0 {
        i := -i - 1;
        n := tail;
        while i > 0 && n != null
          invariant 0 <= i <= -index - 1
          invariant var k := |nodes| + index + i; n == if 0 <= k < |nodes| then nodes[k] else null
        {
          n := n.prev;
          i := i - 1;
        }
      } else {
        n := head;
        while i > 0 && n != null
          invariant 0 <= i <= index
          invariant var k := index - i; n == if 0 <= k < |nodes| then nodes[k] else null
        {
          n := n.next;
          i := i - 1;
        }
      }
    }

    // listRotateTailToHead
    method RotateTailToHead()
      requires Valid()
      modifies this, nodes
      ensures Valid()
      ensures nodes == if |old(nodes)| <= 1 then old(nodes) else [Last(old(nodes))] + old(nodes)[..|old(nodes)| - 1]
    {
      hide Chain;
      if len <= 1 { return; }
      ghost var a := nodes[..|nodes| - 1];
      assert nodes == a + [tail] + [];
      SplitAt(null, a, tail, [], null);
      assert a[0] == nodes[0] && Last(a) == nodes[|a| - 1] && a[0] in a && Last(a) in a;
      var moved := tail;
      tail := moved.prev;
      SetNext(tail, null, null, a, moved);
      SetPrev(head, moved, null, a, null);
      moved.prev := null;
      moved.next := head;
      head := moved;
      ChainOfOne(moved);
      ChainJoin(null, [moved], a, null);
      nodes := [moved] + a;
    }

    // listRotateHeadToTail
    method RotateHeadToTail()
      requires Valid()
      modifies this, nodes
      ensures Valid()
      ensures nodes == if |old(nodes)| <= 1 then old(nodes) else old(nodes)[1..] + [old(nodes)[0]]
    {
      hide Chain;
      if len <= 1 { return; }
      ghost var b := nodes[1..];
      assert nodes == [] + [head] + b;
      SplitAt(null, [], head, b, null);
      assert b[0] == nodes[1] && Last(b) == Last(nodes) && b[0] in b && Last(b) in b;
      var moved := head;
      head := moved.next;
      SetPrev(head, null, moved, b, null);
      SetNext(tail, moved, null, b, null);
      moved.next := null;
      moved.prev := tail;
      tail := moved;
      ChainOfOne(moved);
      ChainJoin(null, b, [moved], null);
      nodes := b + [moved];
    }

    // listJoin
    method Join(o: List<V>)
      requires o != this && Valid() && o.Valid() && Apart(nodes, o.nodes)
      modifies this, nodes, o, o.nodes
      ensures Valid() && nodes == old(nodes) + old(o.nodes)
      ensures o.Valid() && o.nodes == []
    {
      hide Chain;
      if o.len == 0 {
        assert nodes + o.nodes == nodes;
        return;
      }
      assert o.nodes[0] in o.nodes;
      assert nodes != [] ==> Last(nodes) in nodes;
      SetPrev(o.head, tail, null, o.nodes, null);
      if tail != null {
        SetNext(tail, o.head, null, nodes, null);
      } else {
        head := o.head;
        ChainOfNone(null, o.head);
      }
      tail := o.tail;
      len := len + o.len;
      ChainJoin(null, nodes, o.nodes, null);
      nodes := nodes + o.nodes;
      o.head, o.tail := null, null;
      o.len := 0;
      o.nodes := [];
      ChainOfNone<V>(null, null);
    }
  }

  // ---------------------------------------------------------------------------------------------
  // Iterators
  // ---------------------------------------------------------------------------------------------

  datatype Direction = FromHead | FromTail

  class Iter<V> {
    var next: Node?<V>
    var direction: Direction

    // listGetIterator, listRewind and listRewindTail
    constructor (list: List<V>, direction: Direction)
      ensures this.direction == direction
      ensures next == if direction.FromHead? then list.head else list.tail
    {
      this.direction := direction;
      next := if direction.FromHead? then list.head else list.tail;
    }

    // listNext
    method Next() returns (current: Node?<V>)
      modifies this
      ensures current == old(next) && direction == old(direction)
      ensures current != null ==> next == if direction.FromHead? then current.next else current.prev
      ensures current == null ==> next == null
    {
      current := next;
      if current != null {
        if direction.FromHead? {
          next := current.next;
        } else {
          next := current.prev;
        }
      }
    }
  }

  function Filter<T>(s: seq<T>, drop: T -> bool): seq<T> {
    if s == [] then []
    else Filter(s[..|s| - 1], drop) + if drop(s[|s| - 1]) then [] else [s[|s| - 1]]
  }

  lemma FilterSnoc<T>(s: seq<T>, x: T, drop: T -> bool)
    ensures Filter(s + [x], drop) == Filter(s, drop) + if drop(x) then [] else [x]
  {
    assert (s + [x])[..|s + [x]| - 1] == s;
  }

  lemma ValuesSnoc<V>(s: seq<Node<V>>, n: Node<V>)
    ensures ValuesOf(s + [n]) == ValuesOf(s) + [n.value]
  {}

  // The loop that the comment on listNext allows: the node just returned may be deleted. It visits
  // every element of the list once, in order, and leaves those that were not deleted.
  method Sweep<V>(list: List<V>, drop: V -> bool) returns (visited: seq<V>)
    requires list.Valid()
    modifies list, list.nodes
    ensures list.Valid()
    ensures visited == old(list.Values())
    ensures list.Values() == Filter(old(list.Values()), drop)
  {
    hide Chain, Filter, ValuesOf;
    var li := new Iter(list, FromHead);
    visited := [];
    ghost var all := list.nodes;
    ghost var kept: seq<Node<V>> := [];
    ghost var done: seq<Node<V>> := [];
    ghost var rest := all;
    assert kept + all == all;
    NothingYet<V>(drop);
    while li.next != null
      invariant fresh(li) && li.direction == FromHead
      invariant list.Valid() && list.nodes == kept + rest && done + rest == all
      invariant li.next == FirstOf(rest)
      invariant visited == ValuesOf(done)
      invariant ValuesOf(kept) == Filter(visited, drop)
      invariant forall n :: n in list.nodes ==> n in old(list.nodes)
      decreases |rest|
    {
      var ln := li.Next();
      ghost var b := rest[1..];
      ConsRest(kept, rest, ln, b);
      ConsRest(done, rest, ln, b);
      SplitAt(null, kept, ln, b, null);
      assert ln == list.nodes[|kept|] && ln in old(list.nodes);
      assert kept != [] ==> Last(kept) == list.nodes[|kept| - 1] && Last(kept) in old(list.nodes);
      assert b != [] ==> b[0] == list.nodes[|kept| + 1] && b[0] in old(list.nodes);
      ValuesSnoc(done, ln);
      ValuesSnoc(kept, ln);
      FilterSnoc(visited, ln.value, drop);
      visited := visited + [ln.value];
      done, rest := done + [ln], b;
      if drop(ln.value) {
        list.DelNode(ln, kept, b);
      } else {
        kept := kept + [ln];
      }
    }
    assert done + rest == done && kept + rest == kept;
  }

  lemma ConsRest<T>(kept: seq<T>, rest: seq<T>, x: T, b: seq<T>)
    requires rest != [] && rest[0] == x && rest[1..] == b
    ensures kept + rest == kept + [x] + b
  {}

  lemma NothingYet<V>(drop: V -> bool)
    ensures ValuesOf<V>([]) == [] && Filter<V>([], drop) == []
  {}
}
