/**
  The doubly linked list of hiredis-vip-master/adlist.c: nodes relinked on the heap behave as
  one sequence.
  */
module AdList {
  class Node {
    const value: int
    var prev: Node?
    var next: Node?

    constructor (value: int)
      ensures this.value == value
    {
      this.value := value;
    }
  }

  /** The node at position i, null outside. */
  function At(nodes: seq<Node>, i: int): Node? {
    if 0 <= i < |nodes| then nodes[i] else null
  }

  ghost predicate Distinct(nodes: seq<Node>) {
    forall i, j | 0 <= i < j < |nodes| :: nodes[i] != nodes[j]
  }

  ghost predicate Linked(nodes: seq<Node>, i: int)
    requires 0 <= i < |nodes|
    reads nodes
  {
    nodes[i].prev == At(nodes, i - 1) && nodes[i].next == At(nodes, i + 1)
  }

  /** The indexes of a sequence without its k-th element. */
  lemma WithoutAt(s: seq<Node>, k: nat)
    requires k < |s|
    ensures
      var t := s[..k] + s[k + 1..];
      |t| == |s| - 1 && forall i | 0 <= i < |t| :: t[i] == s[if i < k then i else i + 1]
  {}

  class List {
    var head: Node?
    var tail: Node?
    var len: nat
    ghost var nodes: seq<Node>

    ghost predicate Valid()
      reads this, nodes
    {
      && len == |nodes| && head == At(nodes, 0) && tail == At(nodes, |nodes| - 1)
      && Distinct(nodes)
      && forall i | 0 <= i < |nodes| :: Linked(nodes, i)
    }

    constructor ()
      ensures Valid() && nodes == []
    {
      head, tail, len, nodes := null, null, 0, [];
    }

    /** listAddNodeHead. */
    method AddNodeHead(value: int)
      requires Valid()
      modifies this, nodes
      ensures Valid() && |nodes| == |old(nodes)| + 1 && fresh(nodes[0]) && nodes[0].value == value
      ensures nodes[1..] == old(nodes)
    {
      ghost var s := nodes;
      assert forall j | 0 <= j < |s| :: Linked(s, j);
      var node := new Node(value);
      if len == 0 {
        head, tail := node, node;
        node.prev, node.next := null, null;
      } else {
        node.prev := null;
        node.next := head;
        head.prev := node;
        head := node;
      }
      len := len + 1;
      nodes := [node] + nodes;
      forall i | 0 <= i < |nodes| ensures Linked(nodes, i) {
        if i > 0 { assert nodes[i] == s[i - 1] && old(Linked(s, i - 1)); }
      }
    }

    /** listAddNodeTail. */
    method AddNodeTail(value: int)
      requires Valid()
      modifies this, nodes
      ensures Valid() && |nodes| == |old(nodes)| + 1 && nodes[..|old(nodes)|] == old(nodes)
      ensures fresh(nodes[|old(nodes)|]) && nodes[|old(nodes)|].value == value
    {
      ghost var s := nodes;
      var node := new Node(value);
      if len == 0 {
        head, tail := node, node;
        node.prev, node.next := null, null;
      } else {
        node.prev := tail;
        node.next := null;
        tail.next := node;
        tail := node;
      }
      len := len + 1;
      nodes := nodes + [node];
      forall i | 0 <= i < |nodes| ensures Linked(nodes, i) {
        if i < |s| { assert nodes[i] == s[i] && old(Linked(s, i)); }
      }
    }

    /** The last part of listInsertNode: the neighbours turn to the new node. */
    method Splice(node: Node, ghost p: nat)
      requires len == |nodes| && p <= |nodes| && Distinct(nodes) && node !in nodes
      requires forall i | 0 <= i < |nodes| :: Linked(nodes, i)
      requires node.prev == At(nodes, p - 1) && node.next == At(nodes, p)
      requires head == (if p == 0 then node else At(nodes, 0))
      requires tail == (if p == |nodes| then node else At(nodes, |nodes| - 1))
      modifies this, nodes
      ensures Valid() && nodes == old(nodes)[..p] + [node] + old(nodes)[p..]
    {
      ghost var s := nodes;
      if node.prev != null { node.prev.next := node; }
      if node.next != null { node.next.prev := node; }
      len := len + 1;
      nodes := s[..p] + [node] + s[p..];
      forall i | 0 <= i < |nodes| ensures Linked(nodes, i) {
        if i < p {
          assert nodes[i] == s[i] && old(Linked(s, i));
        } else if i > p {
          assert nodes[i] == s[i - 1] && old(Linked(s, i - 1));
        }
      }
    }

    /** listInsertNode beside a node of the list, here the k-th. */
    method InsertNode(oldNode: Node, value: int, after: bool, ghost k: nat) returns (ghost node: Node)
      requires Valid() && k < |nodes| && nodes[k] == oldNode
      modifies this, nodes
      ensures Valid() && fresh(node) && node.value == value
      ensures var p := if after then k + 1 else k; nodes == old(nodes)[..p] + [node] + old(nodes)[p..]
    {
      assert Linked(nodes, k);
      var n := new Node(value);
      if after {
        n.prev := oldNode;
        n.next := oldNode.next;
        if tail == oldNode { tail := n; }
      } else {
        n.next := oldNode;
        n.prev := oldNode.prev;
        if head == oldNode { head := n; }
      }
      assert forall i | 0 <= i < |nodes| :: old(Linked(nodes, i)) && Linked(nodes, i);
      Splice(n, if after then k + 1 else k);
      node := n;
    }

    /** listDelNode of a node of the list, here the k-th. */
    method DelNode(node: Node, ghost k: nat)
      requires Valid() && k < |nodes| && nodes[k] == node
      modifies this, nodes
      ensures Valid() && nodes == old(nodes)[..k] + old(nodes)[k + 1..]
    {
      ghost var s := nodes;
      assert Linked(s, k);
      if node.prev != null {
        node.prev.next := node.next;
      } else {
        head := node.next;
      }
      if node.next != null {
        node.next.prev := node.prev;
      } else {
        tail := node.prev;
      }
      len := len - 1;
      nodes := s[..k] + s[k + 1..];
      WithoutAt(s, k);
      forall i | 0 <= i < |nodes| ensures Linked(nodes, i) {
        assert old(Linked(s, if i < k then i else i + 1));
      }
    }

    /** listRotate. */
    method Rotate()
      requires Valid()
      modifies this, nodes
      ensures Valid()
      ensures nodes ==
        if |old(nodes)| <= 1 then old(nodes) else [old(nodes)[|old(nodes)| - 1]] + old(nodes)[..|old(nodes)| - 1]
    {
      ghost var s := nodes;
      var last := tail;
      if len <= 1 { return; }
      ghost var n := |s| - 1;
      assert Linked(s, n);
      tail := last.prev;
      tail.next := null;
      head.prev := last;
      last.prev := null;
      last.next := head;
      head := last;
      nodes := [s[n]] + s[..n];
      forall i | 0 <= i < |nodes| ensures Linked(nodes, i) {
        if i > 0 { assert nodes[i] == s[i - 1] && old(Linked(s, i - 1)); }
      }
    }

    /** listIndex: negative indexes count from the tail. */
    method Index(index: int) returns (n: Node?)
      requires Valid()
      ensures n == if index >= 0 then At(nodes, index) else At(nodes, |nodes| + index)
    {
      if index < 0 {
        var i := -index - 1;
        n := tail;
        ghost var p := |nodes| - 1;
        while i > 0 && n != null
          invariant i >= 0 && -1 <= p < |nodes| && n == At(nodes, p) && (n != null ==> p - i == |nodes| + index)
          invariant n == null ==> |nodes| + index < 0
        {
          assert Linked(nodes, p);
          n, p, i := n.prev, p - 1, i - 1;
        }
      } else {
        var i := index;
        n := head;
        ghost var p := 0;
        while i > 0 && n != null
          invariant i >= 0 && 0 <= p <= |nodes| && n == At(nodes, p) && (n != null ==> p + i == index)
          invariant n == null ==> index >= |nodes|
        {
          assert Linked(nodes, p);
          n, p, i := n.next, p + 1, i - 1;
        }
      }
    }
  }

  /** The nodes as an iterator meets them. */
  function Facing(nodes: seq<Node>, fromHead: bool): (met: seq<Node>)
    ensures |met| == |nodes|
  {
    if fromHead then nodes else seq(|nodes|, i requires 0 <= i < |nodes| => nodes[|nodes| - 1 - i])
  }

  lemma FacingAt(nodes: seq<Node>, fromHead: bool, i: int)
    ensures At(Facing(nodes, fromHead), i) == At(nodes, if fromHead then i else |nodes| - 1 - i)
  {}

  /** A listIter. */
  class ListIter {
    var next: Node?
    const fromHead: bool

    /** listGetIterator. */
    constructor (list: List, fromHead: bool)
      requires list.Valid()
      ensures this.fromHead == fromHead && next == At(Facing(list.nodes, fromHead), 0)
    {
      this.fromHead := fromHead;
      next := if fromHead then list.head else list.tail;
    }

    /** listNext: the i-th node of the walk, null after the last. */
    method Next(ghost list: List, ghost i: nat) returns (current: Node?)
      requires list.Valid() && next == At(Facing(list.nodes, fromHead), i)
      modifies this
      ensures current == At(Facing(list.nodes, fromHead), i) && next == At(Facing(list.nodes, fromHead), i + 1)
    {
      hide Facing;
      FacingAt(list.nodes, fromHead, i);
      FacingAt(list.nodes, fromHead, i + 1);
      current := next;
      if current != null {
        assert Linked(list.nodes, if fromHead then i else |list.nodes| - 1 - i);
        next := if fromHead then current.next else current.prev;
      }
    }
  }

  function Kept(nodes: seq<Node>, drop: int -> bool): seq<Node>
  {
    if nodes == [] then []
    else Kept(nodes[..|nodes| - 1], drop) + KeptOne(nodes[|nodes| - 1], drop)
  }

  function KeptOne(node: Node, drop: int -> bool): seq<Node> {
    if drop(node.value) then [] else [node]
  }

  lemma KeptSnoc(nodes: seq<Node>, drop: int -> bool)
    requires nodes != []
    ensures Kept(nodes, drop) == Kept(nodes[..|nodes| - 1], drop) + KeptOne(nodes[|nodes| - 1], drop)
  {
    hide KeptOne;
  }

  lemma KeptNone(drop: int -> bool)
    ensures Kept([], drop) == []
  {}

  lemma {:induction false} KeptCons(nodes: seq<Node>, drop: int -> bool)
    requires nodes != []
    ensures Kept(nodes, drop) == KeptOne(nodes[0], drop) + Kept(nodes[1..], drop)
    decreases |nodes|
  {
    hide Kept, KeptOne;
    var n := |nodes| - 1;
    KeptSnoc(nodes, drop);
    KeptNone(drop);
    if n == 0 {
      assert nodes[..0] == [] && nodes[1..] == [];
    } else {
      KeptCons(nodes[..n], drop);
      KeptSnoc(nodes[1..], drop);
      assert nodes[..n][0] == nodes[0] && nodes[..n][1..] == nodes[1..][..n - 1] && nodes[1..][n - 1] == nodes[n];
      var a, b, c := KeptOne(nodes[0], drop), Kept(nodes[1..][..n - 1], drop), KeptOne(nodes[n], drop);
      assert (a + b) + c == a + (b + c);
    }
  }

  /** Keeping and turning round commute. */
  lemma {:induction false} KeptFacing(nodes: seq<Node>, drop: int -> bool, fromHead: bool)
    ensures Kept(Facing(nodes, fromHead), drop) == Facing(Kept(nodes, drop), fromHead)
    decreases |nodes|
  {
    hide Kept, KeptOne, Facing;
    if fromHead {
      FacingHead(nodes);
      FacingHead(Kept(nodes, drop));
    } else if nodes == [] {
      KeptNone(drop);
      FacingNone();
    } else {
      var n := |nodes| - 1;
      KeptFacing(nodes[..n], drop, false);
      KeptSnoc(nodes, drop);
      FacingTail(nodes[..n], [nodes[n]]);
      assert nodes == nodes[..n] + [nodes[n]];
      var met := Facing(nodes, false);
      KeptCons(met, drop);
      FacingOne(nodes[n], drop);
      assert met[0] == nodes[n] && met[1..] == Facing(nodes[..n], false);
      FacingTail(Kept(nodes[..n], drop), KeptOne(nodes[n], drop));
    }
  }

  lemma FacingHead(nodes: seq<Node>)
    ensures Facing(nodes, true) == nodes
  {}

  lemma FacingNone()
    ensures Facing([], false) == []
  {}

  lemma FacingTail(a: seq<Node>, b: seq<Node>)
    ensures Facing(a + b, false) == Facing(b, false) + Facing(a, false)
  {
    hide Facing;
    var l, r := Facing(a + b, false), Facing(b, false) + Facing(a, false);
    forall i | 0 <= i < |l| ensures l[i] == r[i] {
      MirrorAt(a + b, i);
      if i < |b| { MirrorAt(b, i); } else { MirrorAt(a, i - |b|); }
    }
  }

  lemma MirrorAt(nodes: seq<Node>, i: nat)
    requires i < |nodes|
    ensures Facing(nodes, false)[i] == nodes[|nodes| - 1 - i]
  {}

  lemma FacingOne(node: Node, drop: int -> bool)
    ensures Facing([node], false) == [node] && Facing(KeptOne(node, drop), false) == KeptOne(node, drop)
  {}

  lemma FacingBack(nodes: seq<Node>, fromHead: bool)
    ensures Facing(Facing(nodes, fromHead), fromHead) == nodes
  {}

  /** Dropping a node drops it from the walk. */
  lemma FacingDrop(nodes: seq<Node>, fromHead: bool, kept: seq<Node>, node: Node, rest: seq<Node>) returns (k: nat)
    requires Facing(nodes, fromHead) == kept + [node] + rest
    ensures k < |nodes| && nodes[k] == node && Facing(nodes[..k] + nodes[k + 1..], fromHead) == kept + rest
  {
    var met := Facing(nodes, fromHead);
    k := if fromHead then |kept| else |nodes| - 1 - |kept|;
    assert met[|kept|] == node && met[..|kept|] == kept && met[|kept| + 1..] == rest;
  }

  /** Deleting the node just returned. */
  method Visit(list: List, fromHead: bool, node: Node, drop: int -> bool, ghost kept: seq<Node>, ghost rest: seq<Node>)
    requires list.Valid() && Facing(list.nodes, fromHead) == kept + [node] + rest
    modifies list, list.nodes
    ensures list.Valid() && Facing(list.nodes, fromHead) == kept + (if drop(node.value) then [] else [node]) + rest
    ensures forall k | 0 <= k < |list.nodes| :: list.nodes[k] in old(list.nodes)
  {
    hide Distinct, Linked, Facing;
    if drop(node.value) {
      ghost var k := FacingDrop(list.nodes, fromHead, kept, node, rest);
      list.DelNode(node, k);
      assert kept + [] + rest == kept + rest;
    }
  }

  /** The walk in the middle of a pass: what was kept of the first i nodes, then the others. */
  ghost predicate Midway(nodes: seq<Node>, s: seq<Node>, i: nat, drop: int -> bool) {
    i <= |s| && nodes == Kept(s[..i], drop) + s[i..]
  }

  lemma MidwayHere(nodes: seq<Node>, s: seq<Node>, i: nat, drop: int -> bool) returns (kept: seq<Node>)
    requires Midway(nodes, s, i, drop) && i < |s|
    ensures nodes == kept + [s[i]] + s[i + 1..] && At(nodes, |kept|) == At(s, i)
    ensures At(nodes, |kept| + 1) == At(s, i + 1)
    ensures Midway(kept + (if drop(s[i].value) then [] else [s[i]]) + s[i + 1..], s, i + 1, drop)
  {
    kept := Kept(s[..i], drop);
    assert s[i..] == [s[i]] + s[i + 1..];
    assert s[..i + 1][..i] == s[..i];
  }

  lemma MidwayStart(s: seq<Node>, drop: int -> bool)
    ensures Midway(s, s, 0, drop)
  {
    assert s[..0] == [] && s[0..] == s;
  }

  lemma MidwayLast(nodes: seq<Node>, s: seq<Node>, drop: int -> bool)
    requires Midway(nodes, s, |s|, drop)
    ensures nodes == Kept(s, drop)
  {
    hide Kept;
    assert s[..|s|] == s && s[|s|..] == [];
  }

  lemma MidwayEnd(nodes: seq<Node>, s: seq<Node>, drop: int -> bool, fromHead: bool)
    requires Midway(Facing(nodes, fromHead), Facing(s, fromHead), |s|, drop)
    ensures nodes == Kept(s, drop)
  {
    hide Facing, Kept, Midway;
    MidwayLast(Facing(nodes, fromHead), Facing(s, fromHead), drop);
    KeptFacing(s, drop, fromHead);
    FacingBack(nodes, fromHead);
    FacingBack(Kept(s, drop), fromHead);
  }

  /** One turn of such a pass. */
  method SweepStep(list: List, iter: ListIter, drop: int -> bool, ghost s: seq<Node>, ghost met: seq<Node>,
                   ghost i: nat) returns (node: Node)
    requires list.Valid() && i < |met| && Midway(Facing(list.nodes, iter.fromHead), met, i, drop)
    requires iter.next == At(met, i)
    requires forall k | 0 <= k < |list.nodes| :: list.nodes[k] in s
    modifies list, s, iter
    ensures list.Valid() && Midway(Facing(list.nodes, iter.fromHead), met, i + 1, drop) && iter.next == At(met, i + 1)
    ensures node == met[i]
    ensures forall k | 0 <= k < |list.nodes| :: list.nodes[k] in s
  {
    hide Distinct, Linked, Midway, At, Facing;
    ghost var kept := MidwayHere(Facing(list.nodes, iter.fromHead), met, i, drop);
    AtHere(met, i);
    node := iter.Next(list, |kept|);
    Visit(list, iter.fromHead, node, drop, kept, met[i + 1..]);
  }

  lemma AtInside(s: seq<Node>, i: nat)
    requires i <= |s|
    ensures At(s, i) != null <==> i < |s|
  {}

  lemma AtHere(s: seq<Node>, i: nat)
    requires i < |s|
    ensures At(s, i) == s[i]
  {}

  /**
    A pass, either way, that may delete each node as it is returned visits all nodes, in order, and
    keeps the others.
    */
  method Sweep(list: List, fromHead: bool, drop: int -> bool) returns (out: seq<Node>)
    requires list.Valid()
    modifies list, list.nodes
    ensures list.Valid() && out == Facing(old(list.nodes), fromHead) && list.nodes == Kept(old(list.nodes), drop)
  {
    hide Distinct, Linked, Kept, Midway, At, Facing;
    ghost var s, met, i := list.nodes, Facing(list.nodes, fromHead), 0;
    var iter := new ListIter(list, fromHead);
    out := [];
    MidwayStart(met, drop);
    while iter.next != null
      invariant fresh(iter) && list.Valid() && iter.fromHead == fromHead && i <= |met|
      invariant out == met[..i] && Midway(Facing(list.nodes, fromHead), met, i, drop)
      invariant iter.next == At(met, i) && forall k | 0 <= k < |list.nodes| :: list.nodes[k] in s
      decreases |met| - i
    {
      AtInside(met, i);
      var node := SweepStep(list, iter, drop, s, met, i);
      out := out + [node];
      i := i + 1;
    }
    AtInside(met, i);
    assert met[..i] == met;
    MidwayEnd(list.nodes, s, drop, fromHead);
  }

  /** The copy holds the images of the first i values. */
  ghost predicate CopyOf(copy: seq<Node>, orig: seq<Node>, i: nat, dup: int -> (bool, int)) {
    && |copy| == i <= |orig|
    && forall j | 0 <= j < i :: dup(orig[j].value).0 && copy[j].value == dup(orig[j].value).1
  }

  lemma CopyNext(copy: seq<Node>, orig: seq<Node>, i: nat, dup: int -> (bool, int), more: seq<Node>)
    requires CopyOf(copy, orig, i, dup) && i < |orig| && |more| == |copy| + 1 && more[..|copy|] == copy
    requires dup(orig[i].value).0 && more[|copy|].value == dup(orig[i].value).1
    ensures CopyOf(more, orig, i + 1, dup)
  {
    assert forall j | 0 <= j < i :: more[j] == copy[j];
  }

  /** listDup; the copy fails when a value cannot be duplicated. */
  method Dup(orig: List, dup: int -> (bool, int)) returns (ok: bool, copy: List)
    requires orig.Valid()
    ensures fresh(copy) && copy.Valid() && fresh(copy.nodes)
    ensures ok <==> forall i | 0 <= i < |orig.nodes| :: dup(orig.nodes[i].value).0
    ensures ok ==> CopyOf(copy.nodes, orig.nodes, |orig.nodes|, dup)
  {
    hide Distinct, Linked, CopyOf;
    copy := new List();
    var iter := new ListIter(orig, true);
    ghost var i := 0;
    CopyStarts(orig.nodes, dup);
    while iter.next != null
      invariant fresh(copy) && fresh(copy.nodes) && copy.Valid() && fresh(iter) && iter.fromHead
      invariant i <= |orig.nodes| && iter.next == At(orig.nodes, i) && CopyOf(copy.nodes, orig.nodes, i, dup)
      decreases |orig.nodes| - i
    {
      var node := iter.Next(orig, i);
      var (good, value) := dup(node.value);
      if !good { return false, copy; }
      ghost var before := copy.nodes;
      copy.AddNodeTail(value);
      CopyNext(before, orig.nodes, i, dup, copy.nodes);
      i := i + 1;
    }
    CopyWhole(copy.nodes, orig.nodes, dup);
    ok := true;
  }

  lemma CopyStarts(orig: seq<Node>, dup: int -> (bool, int))
    ensures CopyOf([], orig, 0, dup)
  {}

  lemma CopyWhole(copy: seq<Node>, orig: seq<Node>, dup: int -> (bool, int))
    requires CopyOf(copy, orig, |orig|, dup)
    ensures forall i | 0 <= i < |orig| :: dup(orig[i].value).0
  {}
}
