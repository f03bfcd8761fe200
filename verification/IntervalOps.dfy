/**
 Lookup, insert and delete on tree values, and the plain set of disjoint half-open
 intervals they implement.
 */
module IntervalOps {
  import opened SplaySpec

  datatype InsertResult = InsertResult(tree: Tree, code: int)
  datatype Cut = Cut(low: Tree, high: Tree)
  datatype DeleteResult = DeleteResult(tree: Tree, deleted: Tree)

  /** interval_tree_insert: 0 when the node went in, 1 when it did not. */
  function Insert(t: Tree, n: Node): InsertResult {
    if n.start >= n.end then InsertResult(t, 1)
    else if t.Leaf? then InsertResult(Branch(Leaf, n, Leaf), 0)
    else
      var s := Splay(t, n.start);
      if n.end <= s.node.start then InsertResult(PutLeft(s, n), 0)
      else PutRight(s, n, Splay(s.right, s.node.start))
  }

  function PutLeft(s: Tree, n: Node): Tree
    requires s.Branch?
  {
    Branch(s.left, n, Branch(Leaf, s.node, s.right))
  }

  /** `r` is the splayed right subtree of `s`. */
  function PutRight(s: Tree, n: Node, r: Tree): InsertResult
    requires s.Branch?
  {
    if s.node.end <= n.start && (r.Leaf? || n.end <= r.node.start) then
      InsertResult(Branch(Branch(s.left, s.node, Leaf), n, r), 0)
    else
      InsertResult(Branch(s.left, s.node, r), 1)
  }

  /** The splayed tree `s`, cut at its root: intervals ending by `lo`, and the others. */
  function CutBelow(s: Tree, lo: Addr): Cut
    requires s.Branch?
  {
    if s.node.end <= lo then Cut(Branch(s.left, s.node, Leaf), s.right)
    else Cut(s.left, Branch(Leaf, s.node, s.right))
  }

  /** The splayed tree `s`, cut at its root: intervals starting before `hi`, and the others. */
  function CutAbove(s: Tree, hi: Addr): Cut {
    if s.Leaf? then Cut(Leaf, Leaf)
    else if hi <= s.node.start then Cut(s.left, Branch(Leaf, s.node, s.right))
    else Cut(Branch(s.left, s.node, Leaf), s.right)
  }

  /** Hang `high` under the splayed `low`, over whatever right child is there. */
  function Join(low: Tree, high: Tree, hi: Addr): Tree {
    if low.Leaf? then high
    else if high.Leaf? then low
    else ReplaceRight(Splay(low, hi), high)
  }

  function ReplaceRight(s: Tree, high: Tree): Tree
    requires s.Branch?
  {
    Branch(s.left, s.node, high)
  }

  function Rejoin(low: Tree, d: Cut, hi: Addr): DeleteResult {
    DeleteResult(Join(low, d.high, hi), d.low)
  }

  /** interval_tree_delete. */
  function Delete(t: Tree, lo: Addr, hi: Addr): DeleteResult {
    if t.Leaf? then DeleteResult(Leaf, Leaf)
    else
      var c := CutBelow(Splay(t, lo), lo);
      Rejoin(c.low, CutAbove(Splay(c.high, hi), hi), hi)
  }

  ghost predicate ApartFromAll(n: Node, s: set<Node>) {
    forall m :: m in s ==> Apart(m, n)
  }

  ghost predicate InsertedAt(before: seq<Node>, n: Node, after: seq<Node>, k: nat) {
    k <= |before| && after == before[..k] + [n] + before[k..]
  }

  /** What every insertion into an ordered tree `t` owes, with `k` the place it goes to. */
  ghost predicate InsertSpec(t: Tree, n: Node, r: InsertResult, k: nat) {
    && (r.code == 0 <==> n.start < n.end && ApartFromAll(n, Nodes(t)))
    && Ordered(r.tree)
    && (r.code != 0 ==> r.code == 1 && InOrder(r.tree) == InOrder(t))
    && (r.code == 0 ==> n !in Nodes(t) && InsertedAt(InOrder(t), n, InOrder(r.tree), k))
  }

  /**
   Insert answers 0 exactly for a non-empty interval apart from every stored one, although
   it compares with two nodes only; then the in-order sequence grows by that node.
   */
  lemma InsertCorrect(t: Tree, n: Node) returns (k: nat)
    requires Ordered(t)
    ensures InsertSpec(t, n, Insert(t, n), k)
    ensures Nodes(Insert(t, n).tree) == if Insert(t, n).code == 0 then Nodes(t) + {n} else Nodes(t)
  {
    k := 0;
    if n.start < n.end && t.Branch? {
      var s := Splay(t, n.start);
      SplayKeeps(t, n.start);
      SplayedRoot(t, n.start);
      if n.end <= s.node.start {
        k := |InOrder(s.left)|;
        PutLeftCorrect(s, n, k);
      } else {
        k := |InOrder(s.left)| + 1;
        var r := Splay(s.right, s.node.start);
        SplayKeeps(s.right, s.node.start);
        SplayBelowAll(s.right, s.node.start);
        PutRightCorrect(s, n, r, k);
      }
    }
  }

  lemma BetweenIsApart(below: set<Node>, n: Node, above: set<Node>)
    requires n.start < n.end && EndBy(below, n.start) && StartFrom(above, n.end)
    ensures n !in below + above && ApartFromAll(n, below + above)
  {
  }

  lemma PutLeftCorrect(s: Tree, n: Node, k: nat)
    requires Ordered(s) && s.Branch? && Splayed(s, n.start) && n.start < n.end <= s.node.start
    requires k == |InOrder(s.left)|
    ensures InsertSpec(s, n, InsertResult(PutLeft(s, n), 0), k)
    ensures Nodes(PutLeft(s, n)) == Nodes(s) + {n}
  {
    var high := Branch(Leaf, s.node, s.right);
    RightPart(s, n.end);
    BetweenIsApart(Nodes(s.left), n, Nodes(high));
    BranchInOrder(s.left, n, high, k);
  }

  /** The root and its right subtree, as a tree of their own. */
  lemma {:induction false} RightPart(s: Tree, addr: Addr)
    requires Ordered(s) && s.Branch? && addr <= s.node.start
    ensures var high := Branch(Leaf, s.node, s.right);
            && Ordered(high) && StartFrom(Nodes(high), addr)
            && Nodes(s) == Nodes(s.left) + Nodes(high)
            && InOrder(s) == InOrder(s.left) + InOrder(high)
  {
    assert Nodes(Branch(Leaf, s.node, s.right)) == {s.node} + Nodes(s.right);
    RightInOrder(s);
  }

  lemma {:induction false} RightInOrder(s: Tree)
    requires s.Branch?
    ensures InOrder(s) == InOrder(s.left) + InOrder(Branch(Leaf, s.node, s.right))
  {
    assert InOrder(Branch(Leaf, s.node, s.right)) == [s.node] + InOrder(s.right);
  }

  lemma BranchInOrder(l: Tree, n: Node, r: Tree, k: nat)
    requires k == |InOrder(l)|
    ensures InsertedAt(InOrder(l) + InOrder(r), n, InOrder(Branch(l, n, r)), k)
  {
    var both := InOrder(l) + InOrder(r);
    assert both[..k] == InOrder(l) && both[k..] == InOrder(r);
  }

  lemma {:induction false} PutRightCorrect(s: Tree, n: Node, r: Tree, k: nat)
    requires Ordered(s) && s.Branch? && Splayed(s, n.start) && n.start < n.end && s.node.start < n.end
    requires Ordered(r) && InOrder(r) == InOrder(s.right) && Nodes(r) == Nodes(s.right)
    requires r.Branch? ==> r.left.Leaf?
    requires k == |InOrder(s.left)| + 1
    ensures InsertSpec(s, n, PutRight(s, n, r), k)
    ensures Nodes(PutRight(s, n, r).tree) ==
            if PutRight(s, n, r).code == 0 then Nodes(s) + {n} else Nodes(s)
  {
    if PutRight(s, n, r).code == 0 {
      PutBetweenCorrect(s, n, r, k);
    } else if s.node.end <= n.start {
      assert r.node in Nodes(s);
      assert !Apart(r.node, n);
    } else {
      assert s.node in Nodes(s);
      assert !Apart(s.node, n);
    }
  }

  lemma {:induction false} PutBetweenCorrect(s: Tree, n: Node, r: Tree, k: nat)
    requires Ordered(s) && s.Branch? && n.start < n.end && s.node.end <= n.start
    requires Ordered(r) && InOrder(r) == InOrder(s.right) && Nodes(r) == Nodes(s.right)
    requires r.Branch? ==> r.left.Leaf? && n.end <= r.node.start
    requires k == |InOrder(s.left)| + 1
    ensures var t := Branch(Branch(s.left, s.node, Leaf), n, r);
            InsertSpec(s, n, InsertResult(t, 0), k) && Nodes(t) == Nodes(s) + {n}
  {
    var low := Branch(s.left, s.node, Leaf);
    LeftPart(s, n.start);
    BetweenIsApart(Nodes(low), n, Nodes(r));
    BranchInOrder(low, n, r, k);
  }

  /** The root and its left subtree, as a tree of their own. */
  lemma {:induction false} LeftPart(s: Tree, addr: Addr)
    requires Ordered(s) && s.Branch? && s.node.end <= addr
    ensures var low := Branch(s.left, s.node, Leaf);
            && Ordered(low) && EndBy(Nodes(low), addr)
            && Nodes(s) == Nodes(low) + Nodes(s.right)
            && InOrder(s) == InOrder(low) + InOrder(s.right) && |InOrder(low)| == |InOrder(s.left)| + 1
  {
    assert Nodes(Branch(s.left, s.node, Leaf)) == Nodes(s.left) + {s.node};
    LeftInOrder(s);
  }

  lemma {:induction false} LeftInOrder(s: Tree)
    requires s.Branch?
    ensures InOrder(s) == InOrder(Branch(s.left, s.node, Leaf)) + InOrder(s.right)
    ensures |InOrder(Branch(s.left, s.node, Leaf))| == |InOrder(s.left)| + 1
  {
    assert InOrder(Branch(s.left, s.node, Leaf)) == InOrder(s.left) + [s.node];
  }

  /** The interval [m.start, m.end) reaches past `lo` and begins before `hi`. */
  predicate Meets(m: Node, lo: Addr, hi: Addr) {
    lo < m.end && m.start < hi
  }

  ghost predicate AllMeet(s: set<Node>, lo: Addr, hi: Addr) {
    forall m :: m in s ==> Meets(m, lo, hi)
  }

  ghost predicate EndAfter(s: set<Node>, lo: Addr) {
    forall m :: m in s ==> lo < m.end
  }

  ghost predicate StartBefore(s: set<Node>, hi: Addr) {
    forall m :: m in s ==> m.start < hi
  }

  lemma CutBelowCorrect(s: Tree, lo: Addr)
    requires Ordered(s) && s.Branch? && Splayed(s, lo)
    ensures var c := CutBelow(s, lo);
            && Ordered(c.low) && Ordered(c.high)
            && InOrder(s) == InOrder(c.low) + InOrder(c.high)
            && Nodes(s) == Nodes(c.low) + Nodes(c.high)
            && EndBy(Nodes(c.low), lo) && EndAfter(Nodes(c.high), lo)
  {
    CutBelowNodes(s, lo);
    if s.node.end <= lo {
      LeftInOrder(s);
    } else {
      RightInOrder(s);
    }
  }

  lemma {:induction false} CutBelowNodes(s: Tree, lo: Addr)
    requires Ordered(s) && s.Branch? && Splayed(s, lo)
    ensures var c := CutBelow(s, lo);
            && Ordered(c.low) && Ordered(c.high) && Nodes(s) == Nodes(c.low) + Nodes(c.high)
            && EndBy(Nodes(c.low), lo) && EndAfter(Nodes(c.high), lo)
  {
    OrderedIsNonEmpty(s.right);
    var c := CutBelow(s, lo);
    if s.node.end <= lo {
      assert Nodes(c.low) == Nodes(s.left) + {s.node};
    } else {
      assert Nodes(c.high) == {s.node} + Nodes(s.right);
    }
  }

  lemma CutAboveCorrect(s: Tree, hi: Addr)
    requires Ordered(s) && Splayed(s, hi)
    ensures var c := CutAbove(s, hi);
            && Ordered(c.low) && Ordered(c.high)
            && InOrder(s) == InOrder(c.low) + InOrder(c.high)
            && Nodes(s) == Nodes(c.low) + Nodes(c.high)
            && StartBefore(Nodes(c.low), hi) && StartFrom(Nodes(c.high), hi)
  {
    if s.Branch? {
      CutAboveNodes(s, hi);
      if hi <= s.node.start {
        RightInOrder(s);
      } else {
        LeftInOrder(s);
      }
    }
  }

  lemma {:induction false} CutAboveNodes(s: Tree, hi: Addr)
    requires Ordered(s) && s.Branch? && Splayed(s, hi)
    ensures var c := CutAbove(s, hi);
            && Ordered(c.low) && Ordered(c.high) && Nodes(s) == Nodes(c.low) + Nodes(c.high)
            && StartBefore(Nodes(c.low), hi) && StartFrom(Nodes(c.high), hi)
  {
    OrderedIsNonEmpty(s.left);
    var c := CutAbove(s, hi);
    if hi <= s.node.start {
      assert Nodes(c.high) == {s.node} + Nodes(s.right);
    } else {
      assert Nodes(c.low) == Nodes(s.left) + {s.node};
    }
  }

  lemma CutBelowSplay(t: Tree, lo: Addr) returns (c: Cut)
    requires Ordered(t) && t.Branch?
    ensures c == CutBelow(Splay(t, lo), lo) && Ordered(c.low) && Ordered(c.high)
    ensures InOrder(t) == InOrder(c.low) + InOrder(c.high)
    ensures Nodes(t) == Nodes(c.low) + Nodes(c.high)
    ensures EndBy(Nodes(c.low), lo) && EndAfter(Nodes(c.high), lo)
  {
    SplayKeeps(t, lo);
    SplayedRoot(t, lo);
    CutBelowCorrect(Splay(t, lo), lo);
    c := CutBelow(Splay(t, lo), lo);
  }

  lemma CutAboveSplay(t: Tree, hi: Addr) returns (c: Cut)
    requires Ordered(t)
    ensures c == CutAbove(Splay(t, hi), hi) && Ordered(c.low) && Ordered(c.high)
    ensures InOrder(t) == InOrder(c.low) + InOrder(c.high)
    ensures Nodes(t) == Nodes(c.low) + Nodes(c.high)
    ensures StartBefore(Nodes(c.low), hi) && StartFrom(Nodes(c.high), hi)
  {
    SplayKeeps(t, hi);
    SplayedRoot(t, hi);
    CutAboveCorrect(Splay(t, hi), hi);
    c := CutAbove(Splay(t, hi), hi);
  }

  /** Every interval of `s` ends before any of `s'` begins. */
  ghost predicate Precedes(s: set<Node>, s': set<Node>) {
    forall m, n :: m in s && n in s' ==> m.end <= n.start
  }

  lemma {:induction false} PiecesPrecede(t: Tree, low: Tree, high: Tree)
    requires Ordered(t) && InOrder(t) == InOrder(low) + InOrder(high)
    ensures Precedes(Nodes(low), Nodes(high))
  {
    OrderedIffSorted(t);
    InOrderNodes(low);
    InOrderNodes(high);
    var s := InOrder(t);
    forall m, n | m in Nodes(low) && n in Nodes(high) ensures m.end <= n.start {
      var i :| 0 <= i < |InOrder(low)| && InOrder(low)[i] == m;
      var j :| 0 <= j < |InOrder(high)| && InOrder(high)[j] == n;
      assert s[i] == m && s[|InOrder(low)| + j] == n;
    }
  }

  /** The join writes over a null right child whenever the low part ends by `hi + 1`. */
  lemma JoinCorrect(low: Tree, high: Tree, hi: Addr)
    requires Ordered(low) && Ordered(high) && EndBy(Nodes(low), hi + 1) && Precedes(Nodes(low), Nodes(high))
    ensures low.Branch? ==> Splay(low, hi).right.Leaf?
    ensures InOrder(Join(low, high, hi)) == InOrder(low) + InOrder(high)
    ensures Nodes(Join(low, high, hi)) == Nodes(low) + Nodes(high)
    ensures Ordered(Join(low, high, hi))
  {
    SplayAboveAll(low, hi);
    SplayKeeps(low, hi);
    if low.Branch? && high.Branch? {
      ReplaceRightCorrect(Splay(low, hi), high);
    }
  }

  lemma ReplaceRightCorrect(s: Tree, high: Tree)
    requires Ordered(s) && s.Branch? && s.right.Leaf?
    requires Ordered(high) && Precedes(Nodes(s), Nodes(high))
    ensures InOrder(ReplaceRight(s, high)) == InOrder(s) + InOrder(high)
    ensures Nodes(ReplaceRight(s, high)) == Nodes(s) + Nodes(high)
    ensures Ordered(ReplaceRight(s, high))
  {
    assert s.node in Nodes(s);
    assert StartFrom(Nodes(high), s.node.end);
  }

  /** `del` is what the range meets, between `below` and `above`, which are what is kept. */
  ghost predicate Splits(t: Tree, lo: Addr, hi: Addr, below: Tree, del: Tree, above: Tree) {
    && InOrder(t) == InOrder(below) + InOrder(del) + InOrder(above)
    && EndBy(Nodes(below), lo) && AllMeet(Nodes(del), lo, hi) && StartFrom(Nodes(above), hi)
  }

  /**
   Delete splits the in-order sequence into below, overlapping and above; the deleted tree
   holds exactly the middle and the new root exactly the two ends, each in its old order.
   The range may be empty, or even reversed by one; DeleteLosslessExactly shows that no
   further reversal is safe.
   */
  lemma {:induction false} DeleteCorrect(t: Tree, lo: Addr, hi: Addr) returns (below: Tree, above: Tree)
    requires Ordered(t) && lo <= hi + 1
    ensures var r := Delete(t, lo, hi);
            && Splits(t, lo, hi, below, r.deleted, above)
            && InOrder(r.tree) == InOrder(below) + InOrder(above)
            && Ordered(r.tree) && Ordered(r.deleted)
            && Nodes(r.deleted) == (set m | m in Nodes(t) && Meets(m, lo, hi))
            && Nodes(r.tree) == Nodes(t) - Nodes(r.deleted)
    ensures below.Branch? && above.Branch? ==> Splay(below, hi).right.Leaf?
  {
    if t.Leaf? {
      return Leaf, Leaf;
    }
    var c, d := DeleteCuts(t, lo, hi);
    below, above := c.low, d.high;
    KeptPiecesPrecede(t, c, d);
    JoinCorrect(below, above, hi);
    DeletedNodes(Nodes(t), lo, hi, Nodes(below), Nodes(d.low), Nodes(above));
    SplitsInOrder(t, lo, hi, below, c.high, d.low, above);
  }

  lemma {:induction false} SplitsInOrder(t: Tree, lo: Addr, hi: Addr, below: Tree, rest: Tree, del: Tree, above: Tree)
    requires InOrder(t) == InOrder(below) + InOrder(rest) && InOrder(rest) == InOrder(del) + InOrder(above)
    requires EndBy(Nodes(below), lo) && AllMeet(Nodes(del), lo, hi) && StartFrom(Nodes(above), hi)
    ensures Splits(t, lo, hi, below, del, above)
  {
  }

  /** The three pieces, for any `lo` and `hi`. */
  lemma DeleteCuts(t: Tree, lo: Addr, hi: Addr) returns (c: Cut, d: Cut)
    requires Ordered(t) && t.Branch?
    ensures c == CutBelow(Splay(t, lo), lo) && d == CutAbove(Splay(c.high, hi), hi)
    ensures Delete(t, lo, hi) == Rejoin(c.low, d, hi)
    ensures Ordered(c.low) && Ordered(c.high) && Ordered(d.low) && Ordered(d.high)
    ensures InOrder(t) == InOrder(c.low) + InOrder(c.high)
    ensures InOrder(c.high) == InOrder(d.low) + InOrder(d.high)
    ensures Nodes(t) == Nodes(c.low) + Nodes(c.high)
    ensures Nodes(c.high) == Nodes(d.low) + Nodes(d.high)
    ensures Nodes(c.low) !! Nodes(c.high) && Nodes(d.low) !! Nodes(d.high)
    ensures EndBy(Nodes(c.low), lo) && EndAfter(Nodes(c.high), lo)
    ensures StartBefore(Nodes(d.low), hi) && StartFrom(Nodes(d.high), hi)
  {
    c := CutBelowSplay(t, lo);
    d := CutAboveSplay(c.high, hi);
  }

  lemma KeptPiecesPrecede(t: Tree, c: Cut, d: Cut)
    requires Ordered(t) && InOrder(t) == InOrder(c.low) + InOrder(c.high)
    requires InOrder(c.high) == InOrder(d.low) + InOrder(d.high)
    ensures Precedes(Nodes(c.low), Nodes(d.high))
  {
    PiecesPrecede(t, c.low, c.high);
    InOrderNodes(c.high);
    InOrderNodes(d.high);
    assert forall n :: n in InOrder(d.high) ==> n in InOrder(c.high);
  }

  lemma DeletedNodes(all: set<Node>, lo: Addr, hi: Addr, below: set<Node>, del: set<Node>, above: set<Node>)
    requires all == below + (del + above)
    requires EndBy(below, lo) && EndAfter(del + above, lo)
    requires StartBefore(del, hi) && StartFrom(above, hi)
    ensures AllMeet(del, lo, hi)
    ensures del == (set m | m in all && Meets(m, lo, hi))
    ensures below + above == all - del
  {
    assert forall m :: m in below || m in above ==> !Meets(m, lo, hi);
  }

  /**
   The join would cut off whatever stands to the right of the splayed low part. So delete
   puts every node of every tree either in the new root or in `del_tree` exactly when the
   range is not reversed by two or more.
   */
  lemma DeleteLosslessExactly(lo: Addr, hi: Addr, a: Node, b: Node, c: Node)
    requires a.start == hi && a.end == hi + 1 && b.start == hi + 1 && b.end == hi + 2
    requires c.start == lo && c.end == lo + 1
    ensures (forall t :: Ordered(t) ==>
               Nodes(Delete(t, lo, hi).tree) + Nodes(Delete(t, lo, hi).deleted) == Nodes(t)) <==>
            lo <= hi + 1
  {
    if lo <= hi + 1 {
      forall t | Ordered(t)
        ensures Nodes(Delete(t, lo, hi).tree) + Nodes(Delete(t, lo, hi).deleted) == Nodes(t)
      {
        var _, _ := DeleteCorrect(t, lo, hi);
      }
    } else {
      ReversedDeleteLosesANode(lo, hi, a, b, c);
    }
  }

  /** Of three intervals, the reversed deletion takes none and yet drops the middle one. */
  lemma ReversedDeleteLosesANode(lo: Addr, hi: Addr, a: Node, b: Node, c: Node)
    requires hi + 2 <= lo
    requires a.start == hi && a.end == hi + 1 && b.start == hi + 1 && b.end == hi + 2
    requires c.start == lo && c.end == lo + 1
    ensures var t := Branch(Branch(Branch(Leaf, a, Leaf), b, Leaf), c, Leaf);
            && Ordered(t)
            && Delete(t, lo, hi).deleted == Leaf
            && b in Nodes(t) && b !in Nodes(Delete(t, lo, hi).tree)
  {
    var ta := Branch(Leaf, a, Leaf);
    var tb := Branch(ta, b, Leaf);
    var tc := Branch(Leaf, c, Leaf);
    var t := Branch(tb, c, Leaf);
    assert Nodes(ta) == {a} && Ordered(ta);
    assert Nodes(tb) == {a, b} && Ordered(tb);
    assert CutBelow(Splay(t, lo), lo) == Cut(tb, tc);
    assert CutAbove(Splay(tc, hi), hi) == Cut(Leaf, tc);
    assert Splay(tb, hi) == Branch(Leaf, a, Branch(Leaf, b, Leaf)) by {
      assert Splay(ta, hi) == ta;
    }
    assert Nodes(Delete(t, lo, hi).tree) == {a, c};
  }

  // ----- Whole runs -----

  datatype Op = Lookup(addr: Addr) | InsertNode(node: Node) | DeleteRange(lo: Addr, hi: Addr)

  datatype Answer =
    | Hit(node: Node, start: Addr)
    | Miss
    | Inserted(code: int)
    | Deleted(nodes: set<Node>)

  datatype Outcome = Outcome(tree: Tree, answer: Answer)

  function Step(t: Tree, op: Op): Outcome {
    match op
    case Lookup(addr) =>
      var s := Splay(t, addr);
      Outcome(s, if s.Branch? && Contains(s.node, addr) then Hit(s.node, s.node.start) else Miss)
    case InsertNode(n) =>
      var r := Insert(t, n);
      Outcome(r.tree, Inserted(r.code))
    case DeleteRange(lo, hi) =>
      var r := Delete(t, lo, hi);
      Outcome(r.tree, Deleted(Nodes(r.deleted)))
  }

  /** A plain set of intervals after one operation. */
  ghost function SetAfter(s: set<Node>, op: Op): set<Node> {
    match op
    case Lookup(addr) => s
    case InsertNode(n) => if n.start < n.end && ApartFromAll(n, s) then s + {n} else s
    case DeleteRange(lo, hi) => set m | m in s && !Meets(m, lo, hi)
  }

  /** What the plain set `s` may answer to the operation. */
  ghost predicate SetAnswers(s: set<Node>, op: Op, answer: Answer) {
    match op
    case Lookup(addr) =>
      (match answer
       case Hit(n, start) => n in s && Contains(n, addr) && start == n.start
       case Miss => forall n :: n in s ==> !Contains(n, addr)
       case _ => false)
    case InsertNode(n) =>
      answer == Inserted(if n.start < n.end && ApartFromAll(n, s) then 0 else 1)
    case DeleteRange(lo, hi) =>
      answer == Deleted(set m | m in s && Meets(m, lo, hi))
  }

  predicate InRange(op: Op) {
    op.DeleteRange? ==> op.lo <= op.hi + 1
  }

  lemma StepRefines(t: Tree, op: Op)
    requires Ordered(t) && InRange(op)
    ensures Ordered(Step(t, op).tree)
    ensures SetAnswers(Nodes(t), op, Step(t, op).answer)
    ensures Nodes(Step(t, op).tree) == SetAfter(Nodes(t), op)
  {
    match op
    case Lookup(addr) =>
      SplayKeeps(t, addr);
      if t.Branch? {
        SplayFinds(t, addr);
      }
    case InsertNode(n) =>
      var _ := InsertCorrect(t, n);
    case DeleteRange(lo, hi) =>
      var _, _ := DeleteCorrect(t, lo, hi);
  }

  function Run(t: Tree, ops: seq<Op>): Tree {
    if ops == [] then t else Step(Run(t, ops[..|ops| - 1]), ops[|ops| - 1]).tree
  }

  function Answers(t: Tree, ops: seq<Op>): seq<Answer> {
    if ops == [] then []
    else
      Answers(t, ops[..|ops| - 1]) + [Step(Run(t, ops[..|ops| - 1]), ops[|ops| - 1]).answer]
  }

  ghost function SetRun(ops: seq<Op>): set<Node> {
    if ops == [] then {} else SetAfter(SetRun(ops[..|ops| - 1]), ops[|ops| - 1])
  }

  /** Each answer is the one the plain set gives at that point of the run. */
  ghost predicate AnswersMatch(ops: seq<Op>, answers: seq<Answer>) {
    |answers| == |ops| && forall i :: 0 <= i < |ops| ==> SetAnswers(SetRun(ops[..i]), ops[i], answers[i])
  }

  lemma AnswersMatchSnoc(ops: seq<Op>, answers: seq<Answer>, op: Op, answer: Answer)
    requires AnswersMatch(ops, answers) && SetAnswers(SetRun(ops), op, answer)
    ensures AnswersMatch(ops + [op], answers + [answer])
  {
    var all := ops + [op];
    forall i | 0 <= i < |all|
      ensures SetAnswers(SetRun(all[..i]), all[i], (answers + [answer])[i])
    {
      assert all[..i] == if i < |ops| then ops[..i] else ops;
    }
  }

  /** Whatever shapes earlier splays left, every run from the empty tree is a run of the set. */
  lemma {:induction false} RunRefinesSet(ops: seq<Op>)
    requires forall i :: 0 <= i < |ops| ==> InRange(ops[i])
    ensures Ordered(Run(Leaf, ops)) && Nodes(Run(Leaf, ops)) == SetRun(ops)
    ensures AnswersMatch(ops, Answers(Leaf, ops))
    decreases |ops|
  {
    if ops != [] {
      var before, op := ops[..|ops| - 1], ops[|ops| - 1];
      RunRefinesSet(before);
      StepRefines(Run(Leaf, before), op);
      AnswersMatchSnoc(before, Answers(Leaf, before), op, Step(Run(Leaf, before), op).answer);
      assert ops == before + [op];
    }
  }
}
