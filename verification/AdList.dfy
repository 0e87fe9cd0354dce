/** The generic doubly linked list: nodes with links both ways, a head, a tail and a length.
    A list is specified by the sequence of its nodes. */
module AdList {

  class ListNode<T> {
    var prev: ListNode?<T>
    var next: ListNode?<T>
    const value: T

    constructor (value: T)
      ensures this.value == value && prev == null && next == null
    {
      this.value := value;
      prev, next := null, null;
    }
  }

  /** The node at place k, or none. */
  function At<T>(ns: seq<ListNode<T>>, k: int): ListNode?<T> { if 0 <= k < |ns| then ns[k] else null }

  ghost predicate Distinct<T>(ns: seq<ListNode<T>>) { forall i, j :: 0 <= i < j < |ns| ==> ns[i] != ns[j] }

  ghost predicate Links<T>(ns: seq<ListNode<T>>, k: nat)
    requires k < |ns|
    reads ns[k]
  {
    ns[k].prev == At(ns, k - 1) && ns[k].next == At(ns, k + 1)
  }

  /** The nodes are linked in this order, forwards and backwards. */
  ghost predicate Linked<T>(ns: seq<ListNode<T>>)
    reads ns
  {
    Distinct(ns) && forall k :: 0 <= k < |ns| ==> Links(ns, k)
  }

  lemma SameNode<T>(ns: seq<ListNode<T>>, i: nat, j: nat)
    requires Distinct(ns) && i < |ns| && j < |ns|
    ensures ns[i] == ns[j] <==> i == j
  {
  }

  ghost predicate Apart<T>(ns: seq<ListNode<T>>, ms: seq<ListNode<T>>)
  {
    forall i, j :: 0 <= i < |ns| && 0 <= j < |ms| ==> ns[i] != ms[j]
  }

  lemma JoinLinked<T>(ns: seq<ListNode<T>>, ms: seq<ListNode<T>>)
    requires Distinct(ns) && Distinct(ms) && Apart(ns, ms)
    requires forall k :: 0 <= k < |ns| ==> ns[k].prev == At(ns, k - 1) && ns[k].next == At(ns + ms, k + 1)
    requires forall j :: 0 <= j < |ms| ==> ms[j].prev == At(ns + ms, |ns| + j - 1) && ms[j].next == At(ms, j + 1)
    ensures Linked(ns + ms)
  {
    JoinDistinct(ns, ms);
    var all := ns + ms;
    forall k | 0 <= k < |all| ensures Links(all, k) {
      if k < |ns| { assert all[k] == ns[k]; } else { assert all[k] == ms[k - |ns|]; }
    }
  }

  lemma JoinEnds<T>(ns: seq<ListNode<T>>, ms: seq<ListNode<T>>)
    ensures At(ns + ms, 0) == if At(ns, |ns| - 1) == null then At(ms, 0) else At(ns, 0)
    ensures At(ns + ms, |ns + ms| - 1) == if At(ms, |ms| - 1) == null then At(ns, |ns| - 1) else At(ms, |ms| - 1)
  {
  }

  lemma NoNodes<T>()
    ensures Linked<T>([]) && At<T>([], 0) == null && At<T>([], -1) == null
  {
  }

  /** Copying one more node. */
  lemma ValuesMore<T>(ms: seq<ListNode<T>>, ns: seq<ListNode<T>>, i: nat)
    requires i <= |ns|
    ensures At(ns, i) == if i < |ns| then ns[i] else null
    ensures i == 0 && ms == [] ==> Values(ms) == Values(ns)[..i]
    ensures i == |ns| && Values(ms) == Values(ns)[..i] ==> Values(ms) == Values(ns)
    ensures i < |ns| && Values(ms) == Values(ns)[..i] ==> forall n: ListNode<T> :: n.value == ns[i].value ==>
            Values(ms + [n]) == Values(ns)[..i + 1]
  {
  }

  lemma JoinDistinct<T>(ns: seq<ListNode<T>>, ms: seq<ListNode<T>>)
    requires Distinct(ns) && Distinct(ms) && Apart(ns, ms)
    ensures Distinct(ns + ms)
  {
  }

  function Values<T>(ns: seq<ListNode<T>>): (vs: seq<T>)
    ensures |vs| == |ns| && forall i :: 0 <= i < |ns| ==> vs[i] == ns[i].value
  {
    seq(|ns|, i requires 0 <= i < |ns| => ns[i].value)
  }

  class List<T> {
    var head: ListNode?<T>
    var tail: ListNode?<T>
    var len: nat
    ghost var nodes: seq<ListNode<T>>

    ghost predicate Valid()
      reads this, nodes
    {
      && Linked(nodes) && len == |nodes|
      && head == At(nodes, 0) && tail == At(nodes, |nodes| - 1)
    }

    constructor ()
      ensures Valid() && nodes == []
    {
      head, tail, len, nodes := null, null, 0, [];
    }

    /** listAddNodeHead */
    method AddNodeHead(value: T) returns (node: ListNode<T>)
      requires Valid()
      modifies this, nodes
      ensures Valid() && fresh(node) && node.value == value && nodes == [node] + old(nodes)
    {
      node := new ListNode(value);
      if len == 0 {
        head, tail := node, node;
      } else {
        node.next := head;
        head.prev := node;
        head := node;
      }
      len := len + 1;
      ghost var ns := nodes;
      nodes := [node] + nodes;
      forall k | 0 <= k < |nodes| ensures Links(nodes, k) {
        if k > 0 { assert nodes[k] == ns[k - 1] && old(Links(ns, k - 1)); SameNode(ns, 0, k - 1); }
      }
    }

    /** listAddNodeTail */
    method AddNodeTail(value: T) returns (node: ListNode<T>)
      requires Valid()
      modifies this, nodes
      ensures Valid() && fresh(node) && node.value == value && nodes == old(nodes) + [node]
    {
      node := new ListNode(value);
      if len == 0 {
        head, tail := node, node;
      } else {
        node.prev := tail;
        tail.next := node;
        tail := node;
      }
      len := len + 1;
      ghost var ns := nodes;
      nodes := nodes + [node];
      forall k | 0 <= k < |nodes| ensures Links(nodes, k) {
        if k < |ns| { assert nodes[k] == ns[k] && old(Links(ns, k)); SameNode(ns, |ns| - 1, k); }
      }
    }

    /** listInsertNode, before or after the node at place i */
    method InsertNode(oldNode: ListNode<T>, value: T, after: bool, ghost i: nat) returns (node: ListNode<T>)
      requires Valid() && i < |nodes| && nodes[i] == oldNode
      modifies this, nodes
      ensures Valid() && fresh(node) && node.value == value
      ensures var k := if after then i + 1 else i; nodes == old(nodes)[..k] + [node] + old(nodes)[k..]
    {
      node := new ListNode(value);
      ghost var ns, k := nodes, if after then i + 1 else i;
      assert Links(ns, i);
      SameNode(ns, i, |ns| - 1);
      SameNode(ns, 0, i);
      if after {
        node.prev := oldNode;
        node.next := oldNode.next;
        if tail == oldNode { tail := node; }
      } else {
        node.next := oldNode;
        node.prev := oldNode.prev;
        if head == oldNode { head := node; }
      }
      Splice(node, k);
    }

    /** The end of listInsertNode: the neighbours' links and the length. */
    method Splice(node: ListNode<T>, ghost k: nat)
      requires Linked(nodes) && len == |nodes| && k <= |nodes| && node !in nodes
      requires node.prev == At(nodes, k - 1) && node.next == At(nodes, k)
      requires head == (if k == 0 then node else At(nodes, 0))
      requires tail == if k == |nodes| then node else At(nodes, |nodes| - 1)
      modifies this`len, this`nodes, nodes
      ensures Valid() && nodes == old(nodes)[..k] + [node] + old(nodes)[k..]
    {
      ghost var ns := nodes;
      if node.prev != null { node.prev.next := node; }
      if node.next != null { node.next.prev := node; }
      len := len + 1;
      nodes := nodes[..k] + [node] + nodes[k..];
      forall m | 0 <= m < |nodes| ensures Links(nodes, m) {
        if m != k {
          var j := if m < k then m else m - 1;
          assert nodes[m] == ns[j] && old(Links(ns, j));
          if k > 0 { SameNode(ns, k - 1, j); }
          if k < |ns| { SameNode(ns, k, j); }
        }
      }
    }

    /** listDelNode, of the node at place i; the others keep their identity and order. */
    method DelNode(node: ListNode<T>, ghost i: nat)
      requires Valid() && i < |nodes| && nodes[i] == node
      modifies this, nodes
      ensures Valid() && nodes == old(nodes)[..i] + old(nodes)[i + 1..]
      ensures node.next == old(node.next) && node.prev == old(node.prev)
    {
      ghost var ns := nodes;
      assert Links(ns, i);
      if node.prev != null { node.prev.next := node.next; } else { head := node.next; }
      if node.next != null { node.next.prev := node.prev; } else { tail := node.prev; }
      len := len - 1;
      nodes := nodes[..i] + nodes[i + 1..];
      forall k | 0 <= k < |nodes| ensures Links(nodes, k) {
        var j := if k < i then k else k + 1;
        assert nodes[k] == ns[j] && old(Links(ns, j));
        if i > 0 { SameNode(ns, i - 1, j); }
        if i + 1 < |ns| { SameNode(ns, i + 1, j); }
      }
    }

    /** listRotateTailToHead */
    method RotateTailToHead()
      requires Valid()
      modifies this, nodes
      ensures Valid()
      ensures nodes == if |old(nodes)| <= 1 then old(nodes)
              else [old(nodes)[|old(nodes)| - 1]] + old(nodes)[..|old(nodes)| - 1]
    {
      if len <= 1 { return; }
      ghost var ns, n := nodes, |nodes|;
      assert Links(ns, n - 1);
      var last := tail;
      tail := last.prev;
      tail.next := null;
      head.prev := last;
      last.prev := null;
      last.next := head;
      head := last;
      nodes := [nodes[|nodes| - 1]] + nodes[..|nodes| - 1];
      forall k | 0 <= k < |nodes| ensures Links(nodes, k) {
        if k > 0 {
          assert nodes[k] == ns[k - 1] && old(Links(ns, k - 1));
          SameNode(ns, 0, k - 1);
          SameNode(ns, n - 2, k - 1);
          SameNode(ns, n - 1, k - 1);
        }
      }
    }

    /** listRotateHeadToTail */
    method RotateHeadToTail()
      requires Valid()
      modifies this, nodes
      ensures Valid()
      ensures nodes == if |old(nodes)| <= 1 then old(nodes) else old(nodes)[1..] + [old(nodes)[0]]
    {
      if len <= 1 { return; }
      ghost var ns, n := nodes, |nodes|;
      assert Links(ns, 0);
      var first := head;
      head := first.next;
      head.prev := null;
      tail.next := first;
      first.next := null;
      first.prev := tail;
      tail := first;
      nodes := nodes[1..] + [nodes[0]];
      forall k | 0 <= k < |nodes| ensures Links(nodes, k) {
        if k < n - 1 {
          assert nodes[k] == ns[k + 1] && old(Links(ns, k + 1));
          SameNode(ns, 0, k + 1);
          SameNode(ns, 1, k + 1);
          SameNode(ns, n - 1, k + 1);
        }
      }
    }

    /** listJoin: the other list's nodes move to the end of this one. */
    method Join(o: List<T>)
      requires Valid() && o.Valid() && o != this && Apart(nodes, o.nodes)
      modifies this, nodes, o, o.nodes
      ensures Valid() && nodes == old(nodes) + old(o.nodes)
      ensures o.Valid() && o.nodes == []
    {
      hide *;
      ghost var ns, ms := nodes, o.nodes;
      Parts();
      o.Parts();
      Hook(o);
      JoinLinked(ns, ms);
      JoinEnds(ns, ms);
      if tail == null { head := o.head; }
      if o.tail != null { tail := o.tail; }
      len := len + o.len;
      nodes := ns + ms;
      o.head, o.tail, o.len, o.nodes := null, null, 0, [];
      Whole();
      NoNodes<T>();
      o.Whole();
    }

    lemma Parts()
      requires Valid()
      ensures Linked(nodes) && Distinct(nodes) && len == |nodes| && head == At(nodes, 0)
      ensures tail == At(nodes, |nodes| - 1)
    {
    }

    lemma Whole()
      requires Linked(nodes) && len == |nodes| && head == At(nodes, 0) && tail == At(nodes, |nodes| - 1)
      ensures Valid()
    {
    }

    /** The links of listJoin: the other head points back, this tail points on. */
    method Hook(o: List<T>)
      requires Valid() && o.Valid() && o != this && Apart(nodes, o.nodes)
      modifies nodes, o.nodes
      ensures forall k :: 0 <= k < |nodes| ==>
              nodes[k].prev == At(nodes, k - 1) && nodes[k].next == At(nodes + o.nodes, k + 1)
      ensures forall j :: 0 <= j < |o.nodes| ==>
              o.nodes[j].prev == At(nodes + o.nodes, |nodes| + j - 1) && o.nodes[j].next == At(o.nodes, j + 1)
    {
      ghost var ns, ms := nodes, o.nodes;
      if o.head != null { o.head.prev := tail; }
      if tail != null { tail.next := o.head; }
      forall k | 0 <= k < |ns| ensures ns[k].prev == At(ns, k - 1) && ns[k].next == At(ns + ms, k + 1) {
        assert old(Links(ns, k));
        SameNode(ns, |ns| - 1, k);
        if ms != [] { assert ns[k] != ms[0]; }
      }
      forall j | 0 <= j < |ms| ensures ms[j].prev == At(ns + ms, |ns| + j - 1) && ms[j].next == At(ms, j + 1) {
        assert old(Links(ms, j));
        SameNode(ms, 0, j);
        if ns != [] { assert ns[|ns| - 1] != ms[j]; }
      }
    }

    /** listIndex: from the head, or from the tail for negative indexes */
    method Index(index: int) returns (n: ListNode?<T>)
      requires Valid()
      ensures n == if 0 <= index < |nodes| then nodes[index] else if -|nodes| <= index < 0 then nodes[|nodes| + index]
              else null
    {
      var k := index;
      if k < 0 {
        k := -k - 1;
        n := tail;
        while k > 0 && n != null
          invariant 0 <= k <= -index - 1
          invariant n == if -index - 1 - k < |nodes| then nodes[|nodes| - 1 - (-index - 1 - k)] else null
        {
          assert Links(nodes, |nodes| - 1 - (-index - 1 - k));
          n := n.prev;
          k := k - 1;
        }
      } else {
        n := head;
        while k > 0 && n != null
          invariant 0 <= k <= index
          invariant n == if index - k < |nodes| then nodes[index - k] else null
        {
          assert Links(nodes, index - k);
          n := n.next;
          k := k - 1;
        }
      }
    }

    /** listDup, without a dup method: new nodes with the same values. */
    method Dup() returns (copy: List<T>)
      requires Valid()
      ensures Valid() && nodes == old(nodes)
      ensures fresh(copy) && copy.Valid() && fresh(copy.nodes) && Values(copy.nodes) == Values(nodes)
    {
      hide *;
      LinksAt(this, 0);
      copy := new List<T>();
      ValuesMore(copy.nodes, nodes, 0);
      var iter := new Iter<T>();
      iter.Rewind(this);
      ghost var i := 0;
      while true
        invariant i <= |nodes| && iter.forward && iter.next == At(nodes, i)
        invariant Valid() && copy.Valid() && fresh(copy) && fresh(iter) && fresh(copy.nodes)
        invariant Values(copy.nodes) == Values(nodes)[..i]
        decreases |nodes| - i
      {
        LinksAt(this, i);
        ValuesMore(copy.nodes, nodes, i);
        var node := iter.Next();
        if node == null { break; }
        var n := copy.AddNodeTail(node.value);
        i := i + 1;
      }
    }
  }

  /** A list iterator: it holds the node to return next. */
  class Iter<T> {
    var next: ListNode?<T>
    var forward: bool

    constructor () { next, forward := null, true; }

    /** listRewind */
    method Rewind(list: List<T>)
      modifies this
      ensures next == list.head && forward
    {
      next, forward := list.head, true;
    }

    /** listRewindTail */
    method RewindTail(list: List<T>)
      modifies this
      ensures next == list.tail && !forward
    {
      next, forward := list.tail, false;
    }

    /** listNext */
    method Next() returns (current: ListNode?<T>)
      modifies this`next
      ensures current == old(next)
      ensures next == if current == null then null else if forward then current.next else current.prev
    {
      current := next;
      if current != null {
        next := if forward then current.next else current.prev;
      }
    }
  }

  /** The nodes that stay. */
  function Kept<T>(ns: seq<ListNode<T>>, drop: T -> bool): seq<ListNode<T>>
  {
    if ns == [] then [] else
    Kept(ns[..|ns| - 1], drop) + if drop(ns[|ns| - 1].value) then [] else [ns[|ns| - 1]]
  }

  lemma KeptNext<T>(ns: seq<ListNode<T>>, i: nat, drop: T -> bool)
    requires i < |ns|
    ensures Kept(ns[..i + 1], drop) == Kept(ns[..i], drop) + if drop(ns[i].value) then [] else [ns[i]]
  {
    assert ns[..i + 1][..i] == ns[..i];
  }

  /** The list after the first i of the nodes ns were visited. */
  ghost predicate Visited<T>(nodes: seq<ListNode<T>>, ns: seq<ListNode<T>>, i: nat, drop: T -> bool)
  {
    i <= |ns| && nodes == Kept(ns[..i], drop) + ns[i..]
  }

  lemma VisitNext<T>(nodes: seq<ListNode<T>>, ns: seq<ListNode<T>>, i: nat, drop: T -> bool) returns (j: nat)
    requires Visited(nodes, ns, i, drop) && i < |ns|
    ensures j < |nodes| && nodes[j] == ns[i] && At(nodes, j + 1) == At(ns, i + 1)
    ensures Visited(if drop(ns[i].value) then nodes[..j] + nodes[j + 1..] else nodes, ns, i + 1, drop)
  {
    j := |Kept(ns[..i], drop)|;
    KeptNext(ns, i, drop);
    assert ns[i..] == [ns[i]] + ns[i + 1..];
    assert nodes[..j] == Kept(ns[..i], drop) && nodes[j + 1..] == ns[i + 1..];
    assert Kept(ns[..i], drop) + [ns[i]] + ns[i + 1..] == nodes;
  }

  /** One turn of the usual loop with listNext, which deletes the returned node when its
      value says so. */
  method VisitOne<T>(list: List<T>, iter: Iter<T>, drop: T -> bool, ghost ns: seq<ListNode<T>>, ghost i: nat)
    returns (node: ListNode?<T>)
    requires list.Valid() && Visited(list.nodes, ns, i, drop) && iter.forward && iter.next == At(ns, i)
    modifies list, ns, iter`next
    ensures node == At(ns, i) && iter.next == At(ns, i + 1)
    ensures list.Valid() && Visited(list.nodes, ns, if i < |ns| then i + 1 else i, drop)
  {
    hide *;
    Bounds(list.nodes, ns, i, drop);
    if iter.next == null {
      node := iter.Next();
      return;
    }
    ghost var nodes := list.nodes;
    ghost var j := VisitNext(nodes, ns, i, drop);
    LinksAt(list, j);
    VisitedIn(nodes, ns, i, drop);
    var current := iter.next;
    node := iter.Next();
    if drop(current.value) {
      list.DelNode(current, j);
    }
  }

  lemma Bounds<T>(nodes: seq<ListNode<T>>, ns: seq<ListNode<T>>, i: nat, drop: T -> bool)
    requires Visited(nodes, ns, i, drop)
    ensures i <= |ns| && (At(ns, i) == if i < |ns| then ns[i] else null) && (i == |ns| ==> At(ns, i + 1) == null)
  {
  }

  lemma VisitedIn<T>(nodes: seq<ListNode<T>>, ns: seq<ListNode<T>>, i: nat, drop: T -> bool)
    requires Visited(nodes, ns, i, drop)
    ensures forall k :: 0 <= k < |nodes| ==> nodes[k] in ns
  {
    KeptIn(ns[..i], drop);
    var kept := Kept(ns[..i], drop);
    forall k | 0 <= k < |nodes| ensures nodes[k] in ns {
      if k < |kept| { assert nodes[k] == kept[k]; }
    }
  }

  lemma {:induction false} KeptIn<T>(ns: seq<ListNode<T>>, drop: T -> bool)
    ensures forall k :: 0 <= k < |Kept(ns, drop)| ==> Kept(ns, drop)[k] in ns
    decreases |ns|
  {
    if ns != [] { KeptIn(ns[..|ns| - 1], drop); }
  }

  /** The whole loop: every original node is visited exactly once, in order, and exactly the
      nodes that are not dropped stay. */
  method ForEach<T>(list: List<T>, drop: T -> bool) returns (visited: seq<ListNode<T>>)
    requires list.Valid()
    modifies list, list.nodes
    ensures list.Valid() && visited == old(list.nodes) && list.nodes == Kept(visited, drop)
  {
    hide *;
    ghost var ns := list.nodes;
    LinksAt(list, 0);
    visited := [];
    var iter := new Iter<T>();
    iter.Rewind(list);
    ghost var i := 0;
    NothingVisited(ns, drop);
    while true
      invariant i <= |ns| && visited == ns[..i] && iter.forward && iter.next == At(ns, i) && fresh(iter)
      invariant list.Valid() && Visited(list.nodes, ns, i, drop)
      decreases |ns| - i
    {
      Bounds(list.nodes, ns, i, drop);
      var node := VisitOne(list, iter, drop, ns, i);
      if node == null { break; }
      visited := visited + [node];
      i := i + 1;
    }
    AllVisited(list.nodes, ns, drop);
  }

  lemma LinksAt<T>(list: List<T>, k: nat)
    requires list.Valid() && k <= |list.nodes|
    ensures list.head == At(list.nodes, 0)
    ensures k < |list.nodes| ==>
            list.nodes[k].next == At(list.nodes, k + 1) && list.nodes[k].prev == At(list.nodes, k - 1)
  {
    if k < |list.nodes| { assert Links(list.nodes, k); }
  }

  lemma NothingVisited<T>(ns: seq<ListNode<T>>, drop: T -> bool)
    ensures Visited(ns, ns, 0, drop)
  {
    assert ns[..0] == [] && [] + ns[0..] == ns;
  }

  lemma AllVisited<T>(nodes: seq<ListNode<T>>, ns: seq<ListNode<T>>, drop: T -> bool)
    requires Visited(nodes, ns, |ns|, drop)
    ensures nodes == Kept(ns, drop) && ns[..|ns|] == ns
  {
    assert ns[..|ns|] == ns;
  }
}
