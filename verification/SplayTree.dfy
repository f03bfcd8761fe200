/**
 The pointer-level splay tree: nodes are relinked in place through a header node, and each
 operation is proved to leave exactly the tree that `SplaySpec` and `IntervalOps` describe.

 In/out parameters such as `root` become an argument and a result. The ghost argument `t` is
 the tree value that the pointers represent on entry.
 */
module SplayTree {
  import opened SplaySpec
  import Ops = IntervalOps
  import Cost = SplayCost

  /** Following the child pointers from `p` gives the tree `t`. */
  ghost predicate Shape(p: Node?, t: Tree)
    reads Nodes(t)
    decreases t
  {
    match t
    case Leaf => p == null
    case Branch(l, n, r) => p == n && Shape(n.prev, l) && Shape(n.next, r)
  }

  /**
   One of the two trees that grow under the header: a chain of linked nodes, newest first,
   each with the subtree on its outer side. The inner side of the newest is still open.
   */
  datatype Spine = Hole | Link(outer: Spine, node: Node, side: Tree)

  ghost function SpineNodes(c: Spine): set<Node> {
    match c
    case Hole => {}
    case Link(o, n, side) => SpineNodes(o) + {n} + Nodes(side)
  }

  ghost predicate SpineUnshared(c: Spine) {
    match c
    case Hole => true
    case Link(o, n, side) =>
      && SpineUnshared(o) && Unshared(side) && n !in SpineNodes(o) && n !in Nodes(side)
      && SpineNodes(o) !! Nodes(side)
  }

  /** The node whose inner child is open: ltree_max, or rtree_min. */
  ghost function Last(c: Spine, dummy: Node): Node {
    if c.Hole? then dummy else c.node
  }

  /** The tree hanging from the header once the open place is filled with `x`. */
  ghost function FillLeft(c: Spine, x: Tree): Tree {
    match c
    case Hole => x
    case Link(o, n, side) => FillLeft(o, Branch(side, n, x))
  }

  ghost function FillRight(c: Spine, x: Tree): Tree {
    match c
    case Hole => x
    case Link(o, n, side) => FillRight(o, Branch(x, n, side))
  }

  /** The pointers from the header's `next` down the left tree agree with the chain. */
  ghost predicate LeftSpine(c: Spine, dummy: Node)
    reads dummy`next, SpineNodes(c)
  {
    match c
    case Hole => true
    case Link(o, n, side) =>
      assert o.Link? ==> o.node in SpineNodes(o);
      Last(o, dummy).next == n && Shape(n.prev, side) && LeftSpine(o, dummy)
  }

  ghost predicate RightSpine(c: Spine, dummy: Node)
    reads dummy`prev, SpineNodes(c)
  {
    match c
    case Hole => true
    case Link(o, n, side) =>
      assert o.Link? ==> o.node in SpineNodes(o);
      Last(o, dummy).prev == n && Shape(n.next, side) && RightSpine(o, dummy)
  }

  lemma {:induction false} LeftSpineFilled(c: Spine, dummy: Node, x: Tree)
    requires LeftSpine(c, dummy) && Shape(Last(c, dummy).next, x)
    ensures Shape(dummy.next, FillLeft(c, x))
  {
    if c.Link? {
      assert Shape(c.node, Branch(c.side, c.node, x));
      LeftSpineFilled(c.outer, dummy, Branch(c.side, c.node, x));
    }
  }

  lemma {:induction false} RightSpineFilled(c: Spine, dummy: Node, x: Tree)
    requires RightSpine(c, dummy) && Shape(Last(c, dummy).prev, x)
    ensures Shape(dummy.prev, FillRight(c, x))
  {
    if c.Link? {
      assert Shape(c.node, Branch(x, c.node, c.side));
      RightSpineFilled(c.outer, dummy, Branch(x, c.node, c.side));
    }
  }

  lemma {:induction false} FillNodes(c: Spine, x: Tree)
    ensures Nodes(FillLeft(c, x)) == SpineNodes(c) + Nodes(x)
    ensures Nodes(FillRight(c, x)) == SpineNodes(c) + Nodes(x)
  {
    if c.Link? {
      FillNodes(c.outer, Branch(c.side, c.node, x));
      FillNodes(c.outer, Branch(x, c.node, c.side));
    }
  }

  /** The final tree when `s` is at the root between the two open spines. */
  ghost function Assemble(ls: Spine, s: Tree, rs: Spine): Tree
    requires s.Branch?
  {
    Branch(FillLeft(ls, s.left), s.node, FillRight(rs, s.right))
  }

  /** The header, both spines and the current tree share no node. */
  ghost predicate Separate(ls: Spine, t: Tree, rs: Spine, dummy: Node) {
    && SpineUnshared(ls) && Unshared(t) && SpineUnshared(rs)
    && SpineNodes(ls) !! Nodes(t) && SpineNodes(rs) !! Nodes(t) && SpineNodes(ls) !! SpineNodes(rs)
    && dummy !in SpineNodes(ls) && dummy !in Nodes(t) && dummy !in SpineNodes(rs)
  }

  /** The loop's three trees are where the pointers say, and use nodes from `all` only. */
  ghost predicate State(ls: Spine, root: Node, t: Tree, rs: Spine, dummy: Node, all: set<Node>)
    reads dummy, SpineNodes(ls), Nodes(t), SpineNodes(rs)
  {
    && Separate(ls, t, rs, dummy)
    && SpineNodes(ls) + Nodes(t) + SpineNodes(rs) <= all
    && t.Branch? && Shape(root, t)
    && LeftSpine(ls, dummy) && RightSpine(rs, dummy)
  }

  /** Link the root into the right tree and go on at its left child. */
  method LinkRight(root: Node, rtreeMin: Node, dummy: Node,
                   ghost ls: Spine, ghost t: Tree, ghost rs: Spine, ghost all: set<Node>)
    returns (ghost rs': Spine)
    requires State(ls, root, t, rs, dummy, all) && t.left.Branch? && rtreeMin == Last(rs, dummy)
    modifies rtreeMin`prev
    ensures rs' == Link(rs, root, t.right)
    ensures root.prev == old(root.prev) == t.left.node
    ensures State(ls, t.left.node, t.left, rs', dummy, all)
  {
    assert Shape(root.prev, t.left);
    rtreeMin.prev := root;
    rs' := Link(rs, root, t.right);
  }

  method LinkLeft(root: Node, ltreeMax: Node, dummy: Node,
                  ghost ls: Spine, ghost t: Tree, ghost rs: Spine, ghost all: set<Node>)
    returns (ghost ls': Spine)
    requires State(ls, root, t, rs, dummy, all) && t.right.Branch? && ltreeMax == Last(ls, dummy)
    modifies ltreeMax`next
    ensures ls' == Link(ls, root, t.left)
    ensures root.next == old(root.next) == t.right.node
    ensures State(ls', t.right.node, t.right, rs, dummy, all)
  {
    assert Shape(root.next, t.right);
    ltreeMax.next := root;
    ls' := Link(ls, root, t.left);
  }

  method RotateRight(root: Node, y: Node, ghost t: Tree) returns (ghost t': Tree)
    requires t.Branch? && t.left.Branch? && y == t.left.node && Shape(root, t) && Unshared(t)
    modifies root`prev, y`next
    ensures t' == Branch(t.left.left, y, Branch(t.left.right, root, t.right))
    ensures Shape(y, t') && Unshared(t') && Nodes(t') == Nodes(t)
  {
    ghost var l, r := t.left, t.right;
    assert Nodes(l) == Nodes(l.left) + {y} + Nodes(l.right);
    assert Unshared(l) && Shape(y, l);
    root.prev := y.next;
    y.next := root;
    ghost var down := Branch(l.right, root, r);
    assert Nodes(down) == Nodes(l.right) + {root} + Nodes(r);
    assert Unshared(down) && Shape(root, down);
    t' := Branch(l.left, y, down);
  }

  method RotateLeft(root: Node, y: Node, ghost t: Tree) returns (ghost t': Tree)
    requires t.Branch? && t.right.Branch? && y == t.right.node && Shape(root, t) && Unshared(t)
    modifies root`next, y`prev
    ensures t' == Branch(Branch(t.left, root, t.right.left), y, t.right.right)
    ensures Shape(y, t') && Unshared(t') && Nodes(t') == Nodes(t)
  {
    ghost var l, r := t.left, t.right;
    assert Nodes(r) == Nodes(r.left) + {y} + Nodes(r.right);
    assert Unshared(r) && Shape(y, r);
    root.next := y.prev;
    y.prev := root;
    ghost var down := Branch(l, root, r.left);
    assert Nodes(down) == Nodes(l) + {root} + Nodes(r.left);
    assert Unshared(down) && Shape(root, down);
    t' := Branch(down, y, r.right);
  }

  method ZigRight(root: Node, y: Node, dummy: Node,
                  ghost ls: Spine, ghost t: Tree, ghost rs: Spine, ghost all: set<Node>)
    returns (ghost t': Tree)
    requires State(ls, root, t, rs, dummy, all) && t.left.Branch? && y == t.left.node
    modifies root`prev, y`next
    ensures t' == Branch(t.left.left, y, Branch(t.left.right, root, t.right))
    ensures State(ls, y, t', rs, dummy, all)
  {
    assert y in Nodes(t.left);
    t' := RotateRight(root, y, t);
  }

  method ZigLeft(root: Node, y: Node, dummy: Node,
                 ghost ls: Spine, ghost t: Tree, ghost rs: Spine, ghost all: set<Node>)
    returns (ghost t': Tree)
    requires State(ls, root, t, rs, dummy, all) && t.right.Branch? && y == t.right.node
    modifies root`next, y`prev
    ensures t' == Branch(Branch(t.left, root, t.right.left), y, t.right.right)
    ensures State(ls, y, t', rs, dummy, all)
  {
    assert y in Nodes(t.right);
    t' := RotateLeft(root, y, t);
  }

  /** Fill the open place of the left spine with the root's left subtree. */
  method CloseLeft(root: Node, ltreeMax: Node, dummy: Node,
                   ghost ls: Spine, ghost t: Tree, ghost rs: Spine, ghost all: set<Node>)
    requires State(ls, root, t, rs, dummy, all) && ltreeMax == Last(ls, dummy)
    modifies ltreeMax`next
    ensures State(ls, root, t, rs, dummy, all) && Shape(ltreeMax.next, t.left)
  {
    assert t.node == root && root in Nodes(t);
    ltreeMax.next := root.prev;
  }

  /** The same for the right spine. */
  method CloseRight(root: Node, rtreeMin: Node, dummy: Node,
                    ghost ls: Spine, ghost t: Tree, ghost rs: Spine, ghost all: set<Node>)
    requires State(ls, root, t, rs, dummy, all) && rtreeMin == Last(rs, dummy)
    requires Shape(Last(ls, dummy).next, t.left)
    modifies rtreeMin`prev
    ensures LeftSpine(ls, dummy) && Shape(Last(ls, dummy).next, t.left)
    ensures RightSpine(rs, dummy) && Shape(rtreeMin.prev, t.right)
  {
    assert t.node == root && root in Nodes(t);
    rtreeMin.prev := root.next;
  }

  lemma RootIsOutside(ls: Spine, t: Tree, rs: Spine, dummy: Node)
    requires Separate(ls, t, rs, dummy) && t.Branch?
    ensures t.node != dummy
    ensures t.node !in Nodes(FillLeft(ls, t.left)) && t.node !in Nodes(FillRight(rs, t.right))
  {
    FillNodes(ls, t.left);
    FillNodes(rs, t.right);
  }

  method HangBoth(root: Node, dummy: Node, ghost l: Tree, ghost r: Tree)
    requires Shape(dummy.next, l) && Shape(dummy.prev, r)
    requires root != dummy && root !in Nodes(l) && root !in Nodes(r)
    modifies root
    ensures Shape(root, Branch(l, root, r))
  {
    root.prev := dummy.next;
    root.next := dummy.prev;
    assert Shape(root.prev, l) && Shape(root.next, r);
  }

  /** Close both spines and hang them under the root. */
  method AssembleRoot(root: Node, ltreeMax: Node, rtreeMin: Node, dummy: Node,
                      ghost ls: Spine, ghost t: Tree, ghost rs: Spine, ghost all: set<Node>)
    requires State(ls, root, t, rs, dummy, all)
    requires ltreeMax == Last(ls, dummy) && rtreeMin == Last(rs, dummy)
    modifies ltreeMax, rtreeMin, root
    ensures Shape(root, Assemble(ls, t, rs))
  {
    RootIsOutside(ls, t, rs, dummy);
    CloseLeft(root, ltreeMax, dummy, ls, t, rs, all);
    CloseRight(root, rtreeMin, dummy, ls, t, rs, all);
    LeftSpineFilled(ls, dummy, t.left);
    RightSpineFilled(rs, dummy, t.right);
    HangBoth(root, dummy, FillLeft(ls, t.left), FillRight(rs, t.right));
  }

  /** Splaying `t` between the two open spines ends in the tree `goal` after `rest` passes. */
  ghost predicate LeadsTo(ls: Spine, t: Tree, rs: Spine, addr: Addr, goal: Tree, rest: nat) {
    t.Branch? && Assemble(ls, SplaySpec.Splay(t, addr), rs) == goal && Cost.Passes(t, addr) == rest
  }

  lemma PassRight(ls: Spine, t: Tree, rs: Spine, addr: Addr, goal: Tree, rest: nat)
    requires LeadsTo(ls, t, rs, addr, goal, rest) && addr < t.node.start && t.left.Branch?
    ensures rest > 0
    ensures addr >= t.left.node.start ==> LeadsTo(ls, t.left, Link(rs, t.node, t.right), addr, goal, rest - 1)
    ensures addr < t.left.node.start ==>
              var rotated := Branch(t.left.right, t.node, t.right);
              if t.left.left.Leaf? then Assemble(ls, Branch(Leaf, t.left.node, rotated), rs) == goal && rest == 1
              else LeadsTo(ls, t.left.left, Link(rs, t.left.node, rotated), addr, goal, rest - 1)
  {
  }

  lemma PassLeft(ls: Spine, t: Tree, rs: Spine, addr: Addr, goal: Tree, rest: nat)
    requires LeadsTo(ls, t, rs, addr, goal, rest) && addr >= t.node.start && addr >= t.node.end && t.right.Branch?
    ensures rest > 0
    ensures addr < t.right.node.end ==> LeadsTo(Link(ls, t.node, t.left), t.right, rs, addr, goal, rest - 1)
    ensures addr >= t.right.node.end ==>
              var rotated := Branch(t.left, t.node, t.right.left);
              if t.right.right.Leaf? then Assemble(ls, Branch(rotated, t.right.node, Leaf), rs) == goal && rest == 1
              else LeadsTo(Link(ls, t.right.node, rotated), t.right.right, rs, addr, goal, rest - 1)
  {
  }

  /** At a break the current tree is its own splay. */
  lemma Stops(ls: Spine, t: Tree, rs: Spine, addr: Addr, goal: Tree, rest: nat)
    requires LeadsTo(ls, t, rs, addr, goal, rest)
    requires if addr < t.node.start then t.left.Leaf? else addr >= t.node.end ==> t.right.Leaf?
    ensures Assemble(ls, t, rs) == goal && rest == 1
  {
  }

  lemma {:induction false} NodesAllocated(t: Tree)
    ensures forall n :: n in Nodes(t) ==> allocated(n)
  {
    if t.Branch? {
      NodesAllocated(t.left);
      NodesAllocated(t.right);
    }
  }

  /** One pass of the loop towards the left; `done` is its break. */
  method GoLeft(root: Node, rtreeMin: Node, dummy: Node, addr: Addr,
                ghost ls: Spine, ghost t: Tree, ghost rs: Spine, ghost all: set<Node>,
                ghost goal: Tree, ghost rest: nat)
    returns (done: bool, root': Node, rtreeMin': Node, ghost t': Tree, ghost rs': Spine)
    requires State(ls, root, t, rs, dummy, all) && rtreeMin == Last(rs, dummy)
    requires LeadsTo(ls, t, rs, addr, goal, rest) && addr < root.start
    modifies root, Nodes(t), rtreeMin
    ensures State(ls, root', t', rs', dummy, all) && rtreeMin' == Last(rs', dummy)
    ensures rest > 0 && if done then Assemble(ls, t', rs') == goal && rest == 1
                        else LeadsTo(ls, t', rs', addr, goal, rest - 1)
  {
    root', rtreeMin', t', rs', done := root, rtreeMin, t, rs, true;
    assert Shape(root.prev, t.left);
    var y := root.prev;
    if y == null {
      Stops(ls, t, rs, addr, goal, rest);
      return;
    }
    PassRight(ls, t, rs, addr, goal, rest);
    assert y in Nodes(t);
    if addr < y.start {
      t' := ZigRight(root, y, dummy, ls, t, rs, all);
      root' := y;
      y := root'.prev;
      assert Shape(y, t'.left);
      if y == null {
        return;
      }
    }
    rs' := LinkRight(root', rtreeMin, dummy, ls, t', rs, all);
    rtreeMin', root', t', done := root', y, t'.left, false;
  }

  /** One pass towards the right. */
  method GoRight(root: Node, ltreeMax: Node, dummy: Node, addr: Addr,
                 ghost ls: Spine, ghost t: Tree, ghost rs: Spine, ghost all: set<Node>,
                 ghost goal: Tree, ghost rest: nat)
    returns (done: bool, root': Node, ltreeMax': Node, ghost t': Tree, ghost ls': Spine)
    requires State(ls, root, t, rs, dummy, all) && ltreeMax == Last(ls, dummy)
    requires LeadsTo(ls, t, rs, addr, goal, rest) && addr >= root.start && addr >= root.end
    modifies root, Nodes(t), ltreeMax
    ensures State(ls', root', t', rs, dummy, all) && ltreeMax' == Last(ls', dummy)
    ensures rest > 0 && if done then Assemble(ls', t', rs) == goal && rest == 1
                        else LeadsTo(ls', t', rs, addr, goal, rest - 1)
  {
    root', ltreeMax', t', ls', done := root, ltreeMax, t, ls, true;
    assert Shape(root.next, t.right);
    var y := root.next;
    if y == null {
      Stops(ls, t, rs, addr, goal, rest);
      return;
    }
    PassLeft(ls, t, rs, addr, goal, rest);
    assert y in Nodes(t);
    if addr >= y.end {
      t' := ZigLeft(root, y, dummy, ls, t, rs, all);
      root' := y;
      y := root'.next;
      assert Shape(y, t'.right);
      if y == null {
        return;
      }
    }
    ls' := LinkLeft(root', ltreeMax, dummy, ls, t', rs, all);
    ltreeMax', root', t', done := root', y, t'.right, false;
  }

  /** interval_tree_splay; `passes` counts how often its loop is entered. */
  method Splay(tree: Node?, addr: Addr, ghost t0: Tree) returns (r: Node?, ghost passes: nat)
    requires Shape(tree, t0) && Unshared(t0)
    modifies Nodes(t0)
    ensures Shape(r, SplaySpec.Splay(t0, addr))
    ensures passes == Cost.Passes(t0, addr)
  {
    passes := 0;
    if tree == null {
      return null, passes;
    }
    ghost var all := Nodes(t0);
    NodesAllocated(t0);
    var dummy := new Node.Uninitialised();
    var root: Node := tree;
    var ltreeMax, rtreeMin := dummy, dummy;
    ghost var ls, t, rs := Hole, t0, Hole;
    ghost var goal, rest := SplaySpec.Splay(t0, addr), Cost.Passes(t0, addr);
    var done := false;
    while !done
      invariant State(ls, root, t, rs, dummy, all)
      invariant ltreeMax == Last(ls, dummy) && rtreeMin == Last(rs, dummy)
      invariant passes + rest == Cost.Passes(t0, addr)
      invariant if done then Assemble(ls, t, rs) == goal && rest == 0 else LeadsTo(ls, t, rs, addr, goal, rest)
      decreases rest, !done
    {
      passes := passes + 1;
      if addr < root.start {
        done, root, rtreeMin, t, rs := GoLeft(root, rtreeMin, dummy, addr, ls, t, rs, all, goal, rest);
      } else if addr >= root.end {
        done, root, ltreeMax, t, ls := GoRight(root, ltreeMax, dummy, addr, ls, t, rs, all, goal, rest);
      } else {
        Stops(ls, t, rs, addr, goal, rest);
        done := true;
      }
      rest := rest - 1;
    }
    AssembleRoot(root, ltreeMax, rtreeMin, dummy, ls, t, rs, all);
    r := root;
  }

  /** interval_tree_lookup; `startaddress` is written on a hit only. */
  method Lookup(root: Node?, addr: Addr, startaddress: Addr, ghost t: Tree)
    returns (root': Node?, found: Node?, startaddress': Addr, ghost passes: nat)
    requires Shape(root, t) && Ordered(t)
    modifies Nodes(t)
    ensures Shape(root', Ops.Step(t, Ops.Lookup(addr)).tree)
    ensures Ops.Step(t, Ops.Lookup(addr)).answer ==
            if found == null then Ops.Miss else Ops.Hit(found, startaddress')
    ensures passes == Cost.Passes(t, addr)
    ensures found == null ==> startaddress' == startaddress
    ensures found != null <==> exists n :: n in Nodes(t) && Contains(n, addr)
  {
    OrderedIsUnshared(t);
    SplayKeeps(t, addr);
    if t.Branch? {
      SplayFinds(t, addr);
    }
    root', passes := Splay(root, addr, t);
    if root' != null && root'.start <= addr && addr < root'.end {
      assert root' in Nodes(t) && Contains(root', addr);
      return root', root', root'.start, passes;
    }
    return root', null, startaddress, passes;
  }

  /** Make `node` the root, with the old root as its right child. */
  method PutLeft(root: Node, node: Node, ghost s: Tree)
    requires s.Branch? && Shape(root, s) && Unshared(s) && node !in Nodes(s)
    modifies root`prev, node`prev, node`next
    ensures Shape(node, Ops.PutLeft(s, node))
  {
    node.prev := root.prev;
    node.next := root;
    root.prev := null;
    assert Shape(root, Branch(Leaf, root, s.right));
  }

  /** Make `node` the root, with the old root as its left child and `r` as its right one. */
  method PutRight(root: Node, node: Node, r: Node?, ghost l: Tree, ghost tr: Tree)
    requires Shape(root.prev, l) && Shape(r, tr) && Nodes(l) !! Nodes(tr)
    requires root !in Nodes(l) && root !in Nodes(tr)
    requires node != root && node !in Nodes(l) && node !in Nodes(tr)
    modifies root`next, node`prev, node`next
    ensures Shape(node, Branch(Branch(l, root, Leaf), node, tr))
  {
    node.prev := root;
    node.next := r;
    root.next := null;
    assert Shape(root, Branch(l, root, Leaf));
  }

  /** interval_tree_insert. */
  method Insert(root: Node?, node: Node, ghost t: Tree) returns (root': Node?, code: int, ghost passes: nat)
    requires Shape(root, t) && Ordered(t)
    modifies Nodes(t), node
    ensures Shape(root', Ops.Insert(t, node).tree)
    ensures code == Ops.Insert(t, node).code && passes == Cost.InsertPasses(t, node)
    ensures code == 1 && node !in Nodes(t) ==> unchanged(node)
  {
    if node.start >= node.end {
      return root, 1, 0;
    }
    if root == null {
      node.prev := null;
      node.next := null;
      return node, 0, 0;
    }
    OrderedIsUnshared(t);
    SplayKeeps(t, node.start);
    ghost var s := SplaySpec.Splay(t, node.start);
    OrderedIsUnshared(s);
    ghost var _ := Ops.InsertCorrect(t, node);
    var top;
    top, passes := Splay(root, node.start, t);
    if node.end <= top.start {
      PutLeft(top, node, s);
      return node, 0, passes;
    }
    ghost var more;
    code, more := InsertRight(top, node, s);
    passes := passes + more;
    root' := if code == 0 then node else top;
  }

  /** The second half of an insertion: `root` is the splayed root. */
  method InsertRight(root: Node, node: Node, ghost s: Tree) returns (code: int, ghost passes: nat)
    requires s.Branch? && Shape(root, s) && Unshared(s)
    requires var r := Ops.PutRight(s, node, SplaySpec.Splay(s.right, root.start));
             r.code == 0 ==> node !in Nodes(s)
    modifies Nodes(s), node
    ensures var r := Ops.PutRight(s, node, SplaySpec.Splay(s.right, root.start));
            code == r.code && Shape(if code == 0 then node else root, r.tree)
    ensures passes == Cost.Passes(s.right, root.start)
    ensures code == 1 && node !in Nodes(s) ==> unchanged(node)
  {
    ghost var tr := SplaySpec.Splay(s.right, root.start);
    SplayKeeps(s.right, root.start);
    assert root in Nodes(s) && Nodes(s.right) <= Nodes(s);
    assert Shape(root.prev, s.left);
    NodesAllocated(s);
    var t;
    t, passes := Splay(root.next, root.start, s.right);
    if root.end <= node.start && (t == null || node.end <= t.start) {
      PutRight(root, node, t, s.left, tr);
      return 0, passes;
    }
    root.next := t;
    return 1, passes;
  }

  /** interval_tree_delete: the new root and the tree of removed nodes. */
  method Delete(root: Node?, lo: Addr, hi: Addr, ghost t0: Tree)
    returns (root': Node?, delTree: Node?, ghost passes: nat)
    requires Shape(root, t0) && Ordered(t0)
    modifies Nodes(t0)
    ensures Shape(root', Ops.Delete(t0, lo, hi).tree)
    ensures Shape(delTree, Ops.Delete(t0, lo, hi).deleted)
    ensures passes == Cost.DeletePasses(t0, lo, hi)
  {
    if root == null {
      return null, null, 0;
    }
    NodesAllocated(t0);
    ghost var c, d := Ops.DeleteCuts(t0, lo, hi);
    var ltree, t, rtree;
    ghost var first, second, third;
    ltree, t, first := SplitLow(root, lo, t0);
    delTree, rtree, second := SplitHigh(t, hi, c.high);
    root', third := JoinTrees(ltree, rtree, hi, c.low, d.high);
    passes := first + second + third;
  }

  /** Combine the left and right pieces. */
  method JoinTrees(ltree: Node?, rtree: Node?, hi: Addr, ghost low: Tree, ghost high: Tree)
    returns (root: Node?, ghost passes: nat)
    requires Shape(ltree, low) && Shape(rtree, high) && Ordered(low) && Nodes(low) !! Nodes(high)
    modifies Nodes(low)
    ensures Shape(root, Ops.Join(low, high, hi))
    ensures passes == if low.Leaf? || high.Leaf? then 0 else Cost.Passes(low, hi)
  {
    if ltree == null {
      return rtree, 0;
    } else if rtree == null {
      return ltree, 0;
    }
    NodesAllocated(high);
    OrderedIsUnshared(low);
    SplayKeeps(low, hi);
    ghost var s := SplaySpec.Splay(low, hi);
    OrderedIsUnshared(s);
    var top;
    top, passes := Splay(ltree, hi, low);
    assert Shape(top.prev, s.left);
    top.next := rtree;
    return top, passes;
  }

  /** The first cut: intervals ending by `lo`, and the rest. */
  method SplitLow(root: Node, lo: Addr, ghost t0: Tree) returns (ltree: Node?, t: Node?, ghost passes: nat)
    requires Shape(root, t0) && Ordered(t0) && t0.Branch?
    modifies Nodes(t0)
    ensures var c := Ops.CutBelow(SplaySpec.Splay(t0, lo), lo); Shape(ltree, c.low) && Shape(t, c.high)
    ensures passes == Cost.Passes(t0, lo)
  {
    OrderedIsUnshared(t0);
    SplayKeeps(t0, lo);
    ghost var s := SplaySpec.Splay(t0, lo);
    OrderedIsUnshared(s);
    var top;
    top, passes := Splay(root, lo, t0);
    assert Shape(top.prev, s.left) && Shape(top.next, s.right);
    if top.end <= lo {
      ltree := top;
      t := top.next;
      ltree.next := null;
    } else {
      ltree := top.prev;
      t := top;
      t.prev := null;
    }
  }

  /** The second cut: intervals starting before `hi`, and the rest. */
  method SplitHigh(root: Node?, hi: Addr, ghost t0: Tree) returns (delTree: Node?, rtree: Node?, ghost passes: nat)
    requires Shape(root, t0) && Ordered(t0)
    modifies Nodes(t0)
    ensures var c := Ops.CutAbove(SplaySpec.Splay(t0, hi), hi); Shape(delTree, c.low) && Shape(rtree, c.high)
    ensures passes == Cost.Passes(t0, hi)
  {
    OrderedIsUnshared(t0);
    SplayKeeps(t0, hi);
    ghost var s := SplaySpec.Splay(t0, hi);
    OrderedIsUnshared(s);
    var t;
    t, passes := Splay(root, hi, t0);
    if t == null {
      return null, null, passes;
    }
    assert Shape(t.prev, s.left) && Shape(t.next, s.right);
    if hi <= t.start {
      delTree := t.prev;
      rtree := t;
      t.prev := null;
    } else {
      delTree := t;
      rtree := t.next;
      t.next := null;
    }
  }

  // ----- Whole runs on the heap -----

  datatype Result = Looked(found: Node?, start: Addr) | Put(code: int) | Took(delTree: Node?)

  /** The value handed back by the pointer code is the answer `a`. */
  ghost predicate Agrees(r: Result, a: Ops.Answer) {
    match r
    case Looked(found, start) => a == if found == null then Ops.Miss else Ops.Hit(found, start)
    case Put(code) => a == Ops.Inserted(code)
    case Took(delTree) => a.Deleted? && if delTree == null then a.nodes == {} else delTree in a.nodes
  }

  function NodesOf(ops: seq<Ops.Op>): set<Node> {
    set i | 0 <= i < |ops| && ops[i].InsertNode? :: ops[i].node
  }

  /** The tree of nodes that the operation takes out. */
  function TakenBy(t: Tree, op: Ops.Op): Tree {
    match op
    case DeleteRange(lo, hi) => Ops.Delete(t, lo, hi).deleted
    case _ => Leaf
  }

  /** The root of the tree handed back, if the operation is a deletion. */
  function TakenRoot(r: Result): Node? {
    match r
    case Took(delTree) => delTree
    case _ => null
  }

  /** One operation on the heap tree. */
  method Execute(root: Node?, op: Ops.Op, ghost t: Tree) returns (root': Node?, result: Result, ghost passes: nat)
    requires Shape(root, t) && Ordered(t)
    modifies Nodes(t), NodesOf([op])
    ensures Shape(root', Ops.Step(t, op).tree) && Shape(TakenRoot(result), TakenBy(t, op))
    ensures Agrees(result, Ops.Step(t, op).answer)
    ensures passes == Cost.StepPasses(t, op)
  {
    match op
    case Lookup(addr) =>
      var found, start;
      root', found, start, passes := Lookup(root, addr, 0, t);
      result := Looked(found, start);
    case InsertNode(n) =>
      assert [op][0] == op;
      var code;
      root', code, passes := Insert(root, n, t);
      result := Put(code);
    case DeleteRange(lo, hi) =>
      var delTree;
      root', delTree, passes := Delete(root, lo, hi, t);
      result := Took(delTree);
  }

  /** No node of `d` is inserted by operations `i + 1` to `n - 1`. */
  ghost predicate Untouched(ops: seq<Ops.Op>, i: nat, n: nat, d: Tree)
    requires n <= |ops|
  {
    forall j :: i < j < n && ops[j].InsertNode? ==> ops[j].node !in Nodes(d)
  }

  /** What operation `i` of a run from the empty tree takes out. */
  function Taken(ops: seq<Ops.Op>, i: nat): Tree
    requires i < |ops|
  {
    TakenBy(Ops.Run(Leaf, ops[..i]), ops[i])
  }

  /** What one operation takes out is what the plain set deletes, and is not kept. */
  lemma TakenIsDeleted(t: Tree, op: Ops.Op)
    requires Ordered(t) && Ops.InRange(op)
    ensures Ordered(TakenBy(t, op)) && Nodes(TakenBy(t, op)) !! Nodes(Ops.Step(t, op).tree)
    ensures op.DeleteRange? ==> Ops.Step(t, op).answer == Ops.Deleted(Nodes(TakenBy(t, op)))
    ensures Nodes(Ops.Step(t, op).tree) <= Nodes(t) + NodesOf([op])
  {
    Ops.StepRefines(t, op);
    match op
    case DeleteRange(lo, hi) =>
      var _, _ := Ops.DeleteCorrect(t, lo, hi);
    case InsertNode(n) =>
      assert [op][0] == op;
    case _ =>
  }

  /** The tree value, the answers and the passes after the first `n` operations from the empty tree. */
  ghost predicate Prefix(ops: seq<Ops.Op>, n: nat, t: Tree, answers: seq<Ops.Answer>, passes: nat)
    requires n <= |ops|
  {
    && t == Ops.Run(Leaf, ops[..n]) && Ordered(t) && Nodes(t) <= NodesOf(ops)
    && answers == Ops.Answers(Leaf, ops[..n]) && |answers| == n
    && passes == Cost.RunPasses(ops[..n])
  }

  lemma PrefixNext(ops: seq<Ops.Op>, n: nat, t: Tree, answers: seq<Ops.Answer>, passes: nat)
    requires n < |ops| && Prefix(ops, n, t, answers, passes) && Ops.InRange(ops[n])
    ensures var after := Ops.Step(t, ops[n]);
            Prefix(ops, n + 1, after.tree, answers + [after.answer], passes + Cost.StepPasses(t, ops[n]))
    ensures NodesOf([ops[n]]) <= NodesOf(ops) && Taken(ops, n) == TakenBy(t, ops[n])
  {
    var op := ops[n];
    assert ops[..n + 1][..n] == ops[..n] && ops[..n + 1][n] == op;
    assert op.InsertNode? ==> op.node in NodesOf(ops);
    Ops.StepRefines(t, op);
  }

  lemma PrefixWhole(ops: seq<Ops.Op>, t: Tree, answers: seq<Ops.Answer>, passes: nat)
    requires Prefix(ops, |ops|, t, answers, passes) && forall i :: 0 <= i < |ops| ==> Ops.InRange(ops[i])
    ensures t == Ops.Run(Leaf, ops) && Nodes(t) == Ops.SetRun(ops)
    ensures answers == Ops.Answers(Leaf, ops) && Ops.AnswersMatch(ops, answers)
    ensures forall i {:trigger Taken(ops, i)} :: 0 <= i < |ops| && ops[i].DeleteRange? ==>
              answers[i] == Ops.Deleted(Nodes(Taken(ops, i)))
    ensures passes <= |ops| * (26 * Cost.Log2(|ops|) + 6)
  {
    assert ops[..|ops|] == ops;
    Ops.RunRefinesSet(ops);
    Cost.RunIsLogarithmic(ops);
    forall i {:trigger Taken(ops, i)} | 0 <= i < |ops| && ops[i].DeleteRange?
      ensures answers[i] == Ops.Deleted(Nodes(Taken(ops, i)))
    {
      AnswerAt(ops, i);
      Cost.RunOrdered(ops[..i]);
      TakenIsDeleted(Ops.Run(Leaf, ops[..i]), ops[i]);
    }
  }

  lemma {:induction false} AnswerAt(ops: seq<Ops.Op>, i: nat)
    requires i < |ops|
    ensures |Ops.Answers(Leaf, ops)| == |ops|
    ensures Ops.Answers(Leaf, ops)[i] == Ops.Step(Ops.Run(Leaf, ops[..i]), ops[i]).answer
    decreases |ops|
  {
    var before := ops[..|ops| - 1];
    AnswersLength(before);
    if i < |before| {
      AnswerAt(before, i);
      assert before[..i] == ops[..i];
    }
  }

  lemma {:induction false} AnswersLength(ops: seq<Ops.Op>)
    ensures |Ops.Answers(Leaf, ops)| == |ops|
    decreases |ops|
  {
    if ops != [] {
      AnswersLength(ops[..|ops| - 1]);
    }
  }

  /** What operation `i` handed back is still a tree of what it took out, clear of the tree `t`. */
  ghost predicate Stands(ops: seq<Ops.Op>, i: nat, n: nat, r: Result, t: Tree)
    requires i < n <= |ops|
    reads Nodes(Taken(ops, i))
  {
    Untouched(ops, i, n, Taken(ops, i)) ==> Shape(TakenRoot(r), Taken(ops, i)) && Nodes(Taken(ops, i)) !! Nodes(t)
  }

  /** Operation `n`, which disturbs no tree handed back before unless it inserts one of its nodes. */
  method ExecuteNext(root: Node?, ops: seq<Ops.Op>, n: nat, ghost t: Tree, results: seq<Result>)
    returns (root': Node?, r: Result, ghost passes: nat)
    requires n < |ops| && |results| == n && Ops.InRange(ops[n]) && Taken(ops, n) == TakenBy(t, ops[n])
    requires Shape(root, t) && Ordered(t)
    requires forall i :: 0 <= i < n ==> Stands(ops, i, n, results[i], t)
    modifies Nodes(t), NodesOf([ops[n]])
    ensures Shape(root', Ops.Step(t, ops[n]).tree) && Agrees(r, Ops.Step(t, ops[n]).answer)
    ensures forall i :: 0 <= i < n ==> Stands(ops, i, n + 1, results[i], Ops.Step(t, ops[n]).tree)
    ensures Stands(ops, n, n + 1, r, Ops.Step(t, ops[n]).tree)
    ensures passes == Cost.StepPasses(t, ops[n])
  {
    TakenIsDeleted(t, ops[n]);
    ghost var touched := Nodes(t) + NodesOf([ops[n]]);
    forall i | 0 <= i < n && Untouched(ops, i, n + 1, Taken(ops, i))
      ensures Shape(TakenRoot(results[i]), Taken(ops, i)) && Nodes(Taken(ops, i)) !! touched
      ensures forall x :: x in Nodes(Taken(ops, i)) ==> allocated(x)
    {
      StaysUntouched(ops, i, n, Taken(ops, i));
      assert Stands(ops, i, n, results[i], t);
      NodesAllocated(Taken(ops, i));
    }
    root', r, passes := Execute(root, ops[n], t);
  }

  lemma StaysUntouched(ops: seq<Ops.Op>, i: nat, n: nat, d: Tree)
    requires i < n < |ops| && Untouched(ops, i, n + 1, d)
    ensures Untouched(ops, i, n, d) && Nodes(d) !! NodesOf([ops[n]])
  {
  }

  /** Where a run stands after `n` operations. */
  ghost predicate Reached(ops: seq<Ops.Op>, n: nat, root: Node?, results: seq<Result>,
                          t: Tree, answers: seq<Ops.Answer>, passes: nat)
    requires n <= |ops|
    reads Nodes(t), set i, x | 0 <= i < n && x in Nodes(Taken(ops, i)) :: x
  {
    && Prefix(ops, n, t, answers, passes) && Shape(root, t) && |results| == n
    && (forall i :: 0 <= i < n ==> Agrees(results[i], answers[i]))
    && (forall i :: 0 <= i < n ==> Stands(ops, i, n, results[i], t))
  }

  method ExecuteOne(ops: seq<Ops.Op>, n: nat, root: Node?, results: seq<Result>,
                    ghost t: Tree, ghost answers: seq<Ops.Answer>, ghost passes: nat)
    returns (root': Node?, r: Result, ghost t': Tree, ghost answers': seq<Ops.Answer>, ghost passes': nat)
    requires n < |ops| && Ops.InRange(ops[n]) && Reached(ops, n, root, results, t, answers, passes)
    modifies NodesOf(ops)
    ensures Reached(ops, n + 1, root', results + [r], t', answers', passes')
  {
    PrefixNext(ops, n, t, answers, passes);
    ghost var after := Ops.Step(t, ops[n]);
    ghost var more;
    root', r, more := ExecuteNext(root, ops, n, t, results);
    t', answers', passes' := after.tree, answers + [after.answer], passes + more;
  }

  /** All operations, with the tree value and the answers that go with them. */
  method ExecuteEach(ops: seq<Ops.Op>)
    returns (root: Node?, results: seq<Result>, ghost t: Tree, ghost answers: seq<Ops.Answer>, ghost passes: nat)
    requires forall i :: 0 <= i < |ops| ==> Ops.InRange(ops[i])
    modifies NodesOf(ops)
    ensures Reached(ops, |ops|, root, results, t, answers, passes)
  {
    root, results, passes := null, [], 0;
    t, answers := Leaf, [];
    for n := 0 to |ops|
      invariant Reached(ops, n, root, results, t, answers, passes)
    {
      var r;
      root, r, t, answers, passes := ExecuteOne(ops, n, root, results, t, answers, passes);
      results := results + [r];
    }
  }

  /**
   Every run on the heap, from NULL, answers as a plain set of disjoint intervals does. Each
   tree that a deletion hands back is a tree of exactly the deleted intervals, for as long as
   none of its nodes is inserted again. The splay loop makes `passes` passes in all.
   */
  method ExecuteAll(ops: seq<Ops.Op>) returns (root: Node?, results: seq<Result>, ghost passes: nat)
    requires forall i :: 0 <= i < |ops| ==> Ops.InRange(ops[i])
    modifies NodesOf(ops)
    ensures var t := Ops.Run(Leaf, ops); Shape(root, t) && Ordered(t) && Nodes(t) == Ops.SetRun(ops)
    ensures var answers := Ops.Answers(Leaf, ops);
            && Ops.AnswersMatch(ops, answers) && |results| == |ops|
            && forall i :: 0 <= i < |ops| ==> Agrees(results[i], answers[i])
    ensures forall i {:trigger Taken(ops, i)} :: 0 <= i < |ops| && ops[i].DeleteRange? ==>
              && Ops.Answers(Leaf, ops)[i] == Ops.Deleted(Nodes(Taken(ops, i)))
              && Stands(ops, i, |ops|, results[i], Ops.Run(Leaf, ops))
    ensures passes <= |ops| * (26 * Cost.Log2(|ops|) + 6)
  {
    ghost var t, answers;
    root, results, t, answers, passes := ExecuteEach(ops);
    PrefixWhole(ops, t, answers, passes);
  }
}
