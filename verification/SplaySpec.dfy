/**
 Interval nodes and the recursive meaning of the top-down splay.

 The node's `start`, `end` and `ctxt` never change once a node is made, so they are
 constants and the shape of a tree is a plain value: a `Tree` of node references.
 Everything in this module is about such values; module `SplayTree` does the pointer work.
 */
module SplaySpec {

  type Addr = nat

  /** One intrusive tree node; `prev` is the left child and `next` the right child. */
  class Node {
    const start: Addr
    const end: Addr
    const ctxt: nat
    var prev: Node?
    var next: Node?

    /** node_make: a detached node. */
    constructor Make(start: Addr, end: Addr, ctxt: nat)
      ensures this.start == start && this.end == end && this.ctxt == ctxt
      ensures prev == null && next == null
    {
      this.start := start;
      this.end := end;
      this.ctxt := ctxt;
      prev := null;
      next := null;
    }

    /** A stack-allocated header: nothing is known about any of its fields. */
    constructor Uninitialised() {
    }
  }

  datatype Tree = Leaf | Branch(left: Tree, node: Node, right: Tree)

  function InOrder(t: Tree): (s: seq<Node>)
  {
    match t
    case Leaf => []
    case Branch(l, n, r) => InOrder(l) + [n] + InOrder(r)
  }

  function Nodes(t: Tree): (s: set<Node>)
  {
    match t
    case Leaf => {}
    case Branch(l, n, r) => Nodes(l) + {n} + Nodes(r)
  }

  predicate Contains(n: Node, addr: Addr) {
    n.start <= addr < n.end
  }

  /** The two half-open intervals share no address (both taken as non-empty). */
  predicate Apart(m: Node, n: Node) {
    m.end <= n.start || n.end <= m.start
  }

  /** No node occurs twice. */
  ghost predicate Unshared(t: Tree) {
    match t
    case Leaf => true
    case Branch(l, n, r) =>
      Unshared(l) && Unshared(r) && n !in Nodes(l) && n !in Nodes(r) && Nodes(l) !! Nodes(r)
  }

  ghost predicate EndBy(s: set<Node>, addr: Addr) {
    forall m :: m in s ==> m.end <= addr
  }

  ghost predicate StartFrom(s: set<Node>, addr: Addr) {
    forall m :: m in s ==> addr <= m.start
  }

  /** A search tree of non-empty, pairwise disjoint intervals. */
  ghost predicate Ordered(t: Tree) {
    match t
    case Leaf => true
    case Branch(l, n, r) =>
      && Ordered(l) && Ordered(r) && n.start < n.end
      && EndBy(Nodes(l), n.start) && StartFrom(Nodes(r), n.end)
  }

  /** The same, read off the in-order sequence. */
  ghost predicate Sorted(s: seq<Node>) {
    && (forall i :: 0 <= i < |s| ==> s[i].start < s[i].end)
    && (forall i, j :: 0 <= i < j < |s| ==> s[i].end <= s[j].start)
  }

  lemma {:induction false} InOrderNodes(t: Tree)
    ensures Nodes(t) == set n | n in InOrder(t)
  {
    if t.Branch? {
      InOrderNodes(t.left);
      InOrderNodes(t.right);
    }
  }

  /** Being an ordered tree depends on the in-order sequence only. */
  lemma {:induction false} OrderedIffSorted(t: Tree)
    ensures Ordered(t) <==> Sorted(InOrder(t))
  {
    match t
    case Leaf =>
    case Branch(l, n, r) =>
      OrderedIffSorted(l);
      OrderedIffSorted(r);
      SortedJoin(InOrder(l), n, InOrder(r));
      InOrderNodes(l);
      InOrderNodes(r);
      assert Ordered(t) <==>
             && Ordered(l) && Ordered(r) && n.start < n.end
             && EndBy(Nodes(l), n.start) && StartFrom(Nodes(r), n.end);
  }

  lemma SortedJoin(a: seq<Node>, n: Node, b: seq<Node>)
    ensures Sorted(a + [n] + b) <==>
            && Sorted(a) && Sorted(b) && n.start < n.end
            && EndBy((set m | m in a), n.start) && StartFrom((set m | m in b), n.end)
  {
    var s := a + [n] + b;
    assert s[|a|] == n;
    assert s[..|a|] == a && s[|a| + 1..] == b;
    if Sorted(s) {
      assert Sorted(s[..|a|]) && Sorted(s[|a| + 1..]);
      assert forall m :: m in s[|a| + 1..] ==> n.end <= m.start;
    } else {
      assert forall i :: 0 <= i < |s| ==> s[i] == if i < |a| then a[i] else if i == |a| then n else b[i - |a| - 1];
    }
  }

  lemma {:induction false} OrderedIsUnshared(t: Tree)
    requires Ordered(t)
    ensures Unshared(t)
  {
    if t.Branch? {
      OrderedIsUnshared(t.left);
      OrderedIsUnshared(t.right);
      OrderedIsNonEmpty(t.left);
      OrderedIsNonEmpty(t.right);
    }
  }

  ghost predicate AllNonEmpty(s: set<Node>) {
    forall m :: m in s ==> m.start < m.end
  }

  lemma {:induction false} OrderedIsNonEmpty(t: Tree)
    requires Ordered(t)
    ensures AllNonEmpty(Nodes(t))
  {
    if t.Branch? {
      OrderedIsNonEmpty(t.left);
      OrderedIsNonEmpty(t.right);
    }
  }

  /** `n` and its right subtree `r`, hung on the outside of a splayed tree to their left. */
  function HangRight(s: Tree, n: Node, r: Tree): Tree
    requires s.Branch?
  {
    Branch(s.left, s.node, Branch(s.right, n, r))
  }

  function HangLeft(l: Tree, n: Node, s: Tree): Tree
    requires s.Branch?
  {
    Branch(Branch(l, n, s.left), s.node, s.right)
  }

  /**
   What the top-down loop computes, said recursively and without a header: splay the
   subtree the search goes into, then hang what was passed on the outside of its root.
   */
  function Splay(t: Tree, addr: Addr): (s: Tree)
    ensures s.Leaf? <==> t.Leaf?
  {
    match t
    case Leaf => Leaf
    case Branch(l, n, r) =>
      if addr < n.start then
        if l.Leaf? then t
        else if addr < l.node.start then
          var rotated := Branch(l.right, n, r);
          if l.left.Leaf? then Branch(Leaf, l.node, rotated)
          else HangRight(Splay(l.left, addr), l.node, rotated)
        else HangRight(Splay(l, addr), n, r)
      else if addr >= n.end then
        if r.Leaf? then t
        else if addr >= r.node.end then
          var rotated := Branch(l, n, r.left);
          if r.right.Leaf? then Branch(rotated, r.node, Leaf)
          else HangLeft(rotated, r.node, Splay(r.right, addr))
        else HangLeft(l, n, Splay(r, addr))
      else t
  }

  /** The root of `s` contains `addr` or is an in-order neighbour of it. */
  ghost predicate Splayed(s: Tree, addr: Addr) {
    s.Branch? ==>
      && (addr < s.node.start ==> EndBy(Nodes(s.left), addr))
      && (addr >= s.node.end ==> StartFrom(Nodes(s.right), addr + 1))
  }

  lemma HangRightKeeps(s: Tree, n: Node, r: Tree)
    requires s.Branch?
    ensures InOrder(HangRight(s, n, r)) == InOrder(s) + [n] + InOrder(r)
  {
  }

  lemma HangLeftKeeps(l: Tree, n: Node, s: Tree)
    requires s.Branch?
    ensures InOrder(HangLeft(l, n, s)) == InOrder(l) + [n] + InOrder(s)
  {
  }

  lemma {:induction false} SplayKeepsInOrder(t: Tree, addr: Addr)
    ensures InOrder(Splay(t, addr)) == InOrder(t)
  {
    match t
    case Leaf =>
    case Branch(l, n, r) =>
      if addr < n.start && l.Branch? {
        if addr < l.node.start {
          var rotated := Branch(l.right, n, r);
          assert InOrder(t) == InOrder(l.left) + [l.node] + InOrder(rotated);
          if l.left.Branch? {
            SplayKeepsInOrder(l.left, addr);
            HangRightKeeps(Splay(l.left, addr), l.node, rotated);
          }
        } else {
          SplayKeepsInOrder(l, addr);
          HangRightKeeps(Splay(l, addr), n, r);
        }
      } else if addr >= n.end && r.Branch? {
        if addr >= r.node.end {
          var rotated := Branch(l, n, r.left);
          assert InOrder(t) == InOrder(rotated) + [r.node] + InOrder(r.right);
          if r.right.Branch? {
            SplayKeepsInOrder(r.right, addr);
            HangLeftKeeps(rotated, r.node, Splay(r.right, addr));
          }
        } else {
          SplayKeepsInOrder(r, addr);
          HangLeftKeeps(l, n, Splay(r, addr));
        }
      }
  }

  /** A splay changes neither the in-order sequence, nor the nodes, nor the order. */
  lemma SplayKeeps(t: Tree, addr: Addr)
    ensures InOrder(Splay(t, addr)) == InOrder(t)
    ensures Nodes(Splay(t, addr)) == Nodes(t)
    ensures Ordered(t) ==> Ordered(Splay(t, addr))
  {
    var s := Splay(t, addr);
    SplayKeepsInOrder(t, addr);
    InOrderNodes(t);
    InOrderNodes(s);
    OrderedIffSorted(t);
    OrderedIffSorted(s);
  }

  lemma {:induction false} SplayedRoot(t: Tree, addr: Addr)
    requires Ordered(t)
    ensures Splayed(Splay(t, addr), addr)
    decreases t, 1
  {
    match t
    case Leaf =>
    case Branch(l, n, r) =>
      if addr < n.start && l.Branch? {
        SplayedRootLeft(t, addr, if addr < l.node.start then l.left else l);
      } else if addr >= n.end && r.Branch? {
        SplayedRootRight(t, addr, if addr >= r.node.end then r.right else r);
      }
  }

  lemma {:induction false} SplayedRootLeft(t: Tree, addr: Addr, sub: Tree)
    requires Ordered(t) && t.Branch? && t.left.Branch? && addr < t.node.start
    requires sub == if addr < t.left.node.start then t.left.left else t.left
    ensures Splayed(Splay(t, addr), addr)
    decreases t, 0
  {
    SplayedRoot(sub, addr);
    SplayKeeps(sub, addr);
    SplayKeeps(t, addr);
  }

  lemma {:induction false} SplayedRootRight(t: Tree, addr: Addr, sub: Tree)
    requires Ordered(t) && t.Branch? && t.right.Branch? && addr >= t.node.end
    requires sub == if addr >= t.right.node.end then t.right.right else t.right
    ensures Splayed(Splay(t, addr), addr)
    decreases t, 0
  {
    SplayedRoot(sub, addr);
    SplayKeeps(sub, addr);
    SplayKeeps(t, addr);
  }

  /** After a splay the root is the interval containing `addr`, if there is one anywhere. */
  lemma {:induction false} SplayFinds(t: Tree, addr: Addr)
    requires Ordered(t) && t.Branch?
    ensures var root := Splay(t, addr).node;
            root in Nodes(t) && forall m :: m in Nodes(t) && Contains(m, addr) ==> m == root
  {
    SplayKeeps(t, addr);
    SplayedRoot(t, addr);
    var s := Splay(t, addr);
    assert Nodes(t) == Nodes(s.left) + {s.node} + Nodes(s.right);
  }

  /** Splaying at an address below every interval brings the minimum up, with no left child. */
  lemma {:induction false} SplayBelowAll(t: Tree, addr: Addr)
    requires Ordered(t)
    requires StartFrom(Nodes(t), addr + 1)
    ensures t.Branch? ==> Splay(t, addr).left.Leaf?
  {
    SplayedRoot(t, addr);
    SplayKeeps(t, addr);
    assert t.Branch? ==> Nodes(Splay(t, addr).left) <= Nodes(t);
  }

  /** Splaying at an address that no interval reaches past brings the maximum up, with no right child. */
  lemma {:induction false} SplayAboveAll(t: Tree, addr: Addr)
    requires Ordered(t)
    requires EndBy(Nodes(t), addr + 1)
    ensures t.Branch? ==> Splay(t, addr).right.Leaf?
  {
    SplayedRoot(t, addr);
    SplayKeeps(t, addr);
    OrderedIsNonEmpty(t);
    assert t.Branch? ==> Nodes(Splay(t, addr).right) <= Nodes(t);
  }

  // ----- Why the loop rotates -----

  function Height(t: Tree): nat {
    match t
    case Leaf => 0
    case Branch(l, _, r) => 1 + if Height(l) < Height(r) then Height(r) else Height(l)
  }

  /** Every node has at most a left child, or every node at most a right child. */
  predicate Chain(t: Tree, leftward: bool) {
    match t
    case Leaf => true
    case Branch(l, _, r) => if leftward then r.Leaf? && Chain(l, leftward) else l.Leaf? && Chain(r, leftward)
  }

  /** Going all the way down a chain brings its end up and leaves a tree half as high. */
  lemma {:induction false} SplayHalvesLeftChain(t: Tree, addr: Addr)
    requires Ordered(t) && Chain(t, true) && t.Branch? && StartFrom(Nodes(t), addr + 1)
    ensures Splay(t, addr).left.Leaf?
    ensures Height(Splay(t, addr).right) <= (Height(t) + 1) / 2
  {
    assert t.node in Nodes(t);
    if t.left.Branch? {
      assert t.left.node in Nodes(t.left);
      var sub := t.left.left;
      assert Height(t) == 2 + Height(sub);
      if sub.Branch? {
        assert Nodes(sub) <= Nodes(t);
        SplayHalvesLeftChain(sub, addr);
      }
    }
  }

  lemma {:induction false} SplayHalvesRightChain(t: Tree, addr: Addr)
    requires Ordered(t) && Chain(t, false) && t.Branch? && EndBy(Nodes(t), addr)
    ensures Splay(t, addr).right.Leaf?
    ensures Height(Splay(t, addr).left) <= (Height(t) + 1) / 2
  {
    assert t.node in Nodes(t) && t.node.start < t.node.end;
    if t.right.Branch? {
      assert t.right.node in Nodes(t.right) && t.right.node.start < t.right.node.end;
      var sub := t.right.right;
      assert Height(t) == 2 + Height(sub);
      if sub.Branch? {
        assert Nodes(sub) <= Nodes(t);
        SplayHalvesRightChain(sub, addr);
      }
    }
  }
}
