/**
 How often the splay loop runs. One splay can pass through a whole tree, but over any run of
 operations the passes are logarithmic on average: a potential on subtree sizes pays for them.
 */
module SplayCost {
  import opened SplaySpec
  import opened IntervalOps

  // ----- Sizes and the potential -----

  function Size(t: Tree): nat {
    match t
    case Leaf => 0
    case Branch(l, _, r) => Size(l) + 1 + Size(r)
  }

  /** The binary logarithm, rounded down. */
  function Log2(n: nat): nat {
    if n <= 1 then 0 else 1 + Log2(n / 2)
  }

  function Potential(t: Tree): nat {
    match t
    case Leaf => 0
    case Branch(l, _, r) => Potential(l) + Potential(r) + Log2(Size(t))
  }

  lemma {:induction false} Log2Monotone(m: nat, n: nat)
    requires m <= n
    ensures Log2(m) <= Log2(n)
  {
    if m > 1 {
      Log2Monotone(m / 2, n / 2);
    }
  }

  lemma Log2Doubles(n: nat)
    requires n > 0
    ensures Log2(2 * n) == Log2(n) + 1
  {
    assert 2 * n / 2 == n;
  }

  lemma {:induction false} Log2AtLeast(n: nat, k: nat)
    requires n > 0 && Log2(n) >= k
    ensures n >= Twice(k)
  {
    if k > 0 {
      Log2AtLeast(n / 2, k - 1);
    }
  }

  /** The k-th power of two. */
  function Twice(k: nat): (p: nat)
    ensures p > 0 && Log2(p) >= k
  {
    if k == 0 then 1
    else
      Log2Doubles(Twice(k - 1));
      2 * Twice(k - 1)
  }

  /** Of two parts of `n`, one has a smaller logarithm than `n`. */
  lemma Log2OfParts(a: nat, b: nat, n: nat)
    requires a > 0 && b > 0 && a + b <= n
    ensures Log2(a) < Log2(n) || Log2(b) < Log2(n)
  {
    var k := Log2(n);
    if Log2(a) >= k && Log2(b) >= k {
      Log2AtLeast(a, k);
      Log2AtLeast(b, k);
      Log2Doubles(Twice(k));
      Log2Monotone(2 * Twice(k), n);
    }
  }

  // ----- Both directions at once -----

  datatype Side = Left | Right

  function Sub(t: Tree, d: Side): Tree
    requires t.Branch?
  {
    if d.Left? then t.left else t.right
  }

  function Off(t: Tree, d: Side): Tree
    requires t.Branch?
  {
    if d.Left? then t.right else t.left
  }

  function Build(d: Side, sub: Tree, n: Node, off: Tree): Tree {
    if d.Left? then Branch(sub, n, off) else Branch(off, n, sub)
  }

  /** Hang a node and what is off the path on the outside of a splayed tree. */
  function Hang(d: Side, s: Tree, n: Node, off: Tree): Tree
    requires s.Branch?
  {
    Build(d, Sub(s, d), s.node, Build(d, Off(s, d), n, off))
  }

  /** The address is to the side `d` of the root. */
  predicate Goes(t: Tree, addr: Addr, d: Side) {
    t.Branch? && if d.Left? then addr < t.node.start else addr >= t.node.end
  }

  lemma BuildSize(d: Side, sub: Tree, n: Node, off: Tree)
    ensures Size(Build(d, sub, n, off)) == Size(sub) + 1 + Size(off)
    ensures Potential(Build(d, sub, n, off)) == Potential(sub) + Potential(off) + Log2(Size(sub) + 1 + Size(off))
  {
  }

  lemma PartSize(t: Tree, d: Side)
    requires t.Branch?
    ensures Size(t) == Size(Sub(t, d)) + 1 + Size(Off(t, d))
    ensures Potential(t) == Potential(Sub(t, d)) + Potential(Off(t, d)) + Log2(Size(t))
  {
  }

  lemma NotEmpty(t: Tree)
    requires t.Branch?
    ensures 0 < Size(t)
  {
  }

  lemma PartsOrdered(t: Tree, d: Side)
    requires Ordered(t) && t.Branch?
    ensures Ordered(Sub(t, d)) && Ordered(Off(t, d)) && t.node.start < t.node.end
  {
  }

  lemma {:induction false} HangPotential(d: Side, s: Tree, n: Node, off: Tree)
    requires s.Branch?
    ensures var hung, t := Size(Off(s, d)) + 1 + Size(off), Hang(d, s, n, off);
            && Size(t) == Size(s) + 1 + Size(off) && 0 < hung <= Size(t) && 0 < Size(s)
            && Potential(t) + Log2(Size(s)) == Potential(s) + Potential(off) + Log2(hung) + Log2(Size(t))
  {
    PartSize(s, d);
    BuildSize(d, Off(s, d), n, off);
    BuildSize(d, Sub(s, d), s.node, Build(d, Off(s, d), n, off));
  }

  /** How often the loop body of interval_tree_splay is entered. */
  function Passes(t: Tree, addr: Addr): nat {
    match t
    case Leaf => 0
    case Branch(l, n, r) =>
      if addr < n.start then
        if l.Leaf? then 1
        else if addr < l.node.start then 1 + Passes(l.left, addr)
        else 1 + Passes(l, addr)
      else if addr >= n.end then
        if r.Leaf? then 1
        else if addr >= r.node.end then 1 + Passes(r.right, addr)
        else 1 + Passes(r, addr)
      else 1
  }

  /** A pass that rotates, said for either side. */
  lemma RotatingPass(t: Tree, addr: Addr, d: Side)
    requires t.Branch? && t.node.start < t.node.end && Goes(t, addr, d) && Goes(Sub(t, d), addr, d)
    ensures var c := Sub(t, d);
            var rotated := Build(d, Off(c, d), t.node, Off(t, d));
            && Passes(t, addr) == 1 + Passes(Sub(c, d), addr)
            && Splay(t, addr) ==
               if Sub(c, d).Leaf? then Build(d, Leaf, c.node, rotated)
               else Hang(d, Splay(Sub(c, d), addr), c.node, rotated)
  {
  }

  /** A pass that only links. */
  lemma LinkingPass(t: Tree, addr: Addr, d: Side)
    requires t.Branch? && t.node.start < t.node.end
    requires Goes(t, addr, d) && Sub(t, d).Branch? && !Goes(Sub(t, d), addr, d)
    ensures Passes(t, addr) == 1 + Passes(Sub(t, d), addr)
    ensures Splay(t, addr) == Hang(d, Splay(Sub(t, d), addr), t.node, Off(t, d))
  {
  }

  lemma LastPass(t: Tree, addr: Addr)
    requires t.Branch? && t.node.start < t.node.end
    requires forall d :: Goes(t, addr, d) ==> Sub(t, d).Leaf?
    ensures Passes(t, addr) == 1 && Splay(t, addr) == t
  {
    assert Goes(t, addr, Left) ==> Sub(t, Left).Leaf?;
    assert Goes(t, addr, Right) ==> Sub(t, Right).Leaf?;
  }

  lemma SplayKeepsSize(t: Tree, addr: Addr)
    ensures Size(Splay(t, addr)) == Size(t)
  {
    SplayKeepsInOrder(t, addr);
    SizeOfInOrder(t);
    SizeOfInOrder(Splay(t, addr));
  }

  lemma {:induction false} SizeOfInOrder(t: Tree)
    ensures Size(t) == |InOrder(t)|
  {
    if t.Branch? {
      SizeOfInOrder(t.left);
      SizeOfInOrder(t.right);
    }
  }

  // ----- One splay -----

  /** Passes, plus twice what the potential grows by. */
  function Amortised(t: Tree, addr: Addr): int {
    Passes(t, addr) + 2 * Potential(Splay(t, addr)) - 2 * Potential(t)
  }

  /** What hanging the root of `t` on its splayed subtree `s` does to sizes and the potential. */
  lemma {:induction false} LinkPotential(t: Tree, d: Side, s: Tree) returns (hung: nat)
    requires t.Branch? && Sub(t, d).Branch? && s.Branch? && Size(s) == Size(Sub(t, d))
    ensures var c := Sub(t, d);
            && Potential(Hang(d, s, t.node, Off(t, d))) + Potential(c) + Log2(Size(c)) ==
               Potential(t) + Potential(s) + Log2(hung)
            && hung == Size(Off(s, d)) + 1 + Size(Off(t, d))
            && 0 < Size(c) < Size(t) && 0 < hung <= Size(t)
  {
    PartSize(t, d);
    HangPotential(d, s, t.node, Off(t, d));
    hung := Size(Off(s, d)) + 1 + Size(Off(t, d));
  }

  /** The root turned onto what is off the path of its child. */
  function Turned(t: Tree, d: Side): Tree
    requires t.Branch? && Sub(t, d).Branch?
  {
    Build(d, Off(Sub(t, d), d), t.node, Off(t, d))
  }

  lemma {:induction false} TurnedPotential(t: Tree, d: Side)
    requires t.Branch? && Sub(t, d).Branch?
    ensures var c, turned := Sub(t, d), Turned(t, d);
            && Size(t) == Size(Sub(c, d)) + 1 + Size(turned) && 0 < Size(turned) && Size(Sub(c, d)) < Size(c) < Size(t)
            && Potential(t) + Log2(Size(turned)) ==
               Potential(turned) + Potential(Sub(c, d)) + Log2(Size(c)) + Log2(Size(t))
  {
    PartSize(t, d);
    PartSize(Sub(t, d), d);
    BuildSize(d, Off(Sub(t, d), d), t.node, Off(t, d));
  }

  /** The same with a rotation first. */
  lemma {:induction false} RotatePotential(t: Tree, d: Side, s: Tree) returns (rotated: nat, hung: nat)
    requires t.Branch? && Sub(t, d).Branch? && s.Branch?
    requires Sub(Sub(t, d), d).Branch? && Size(s) == Size(Sub(Sub(t, d), d))
    ensures var c := Sub(t, d);
            var x := Sub(c, d);
            && Potential(Hang(d, s, c.node, Turned(t, d))) + Potential(x) + Log2(Size(x)) + Log2(Size(c)) ==
               Potential(t) + Potential(s) + Log2(rotated) + Log2(hung)
            && 0 < rotated && rotated + Size(x) < Size(t) && 0 < hung <= Size(t)
            && 0 < Size(x) < Size(c) < Size(t)
  {
    var turned := Turned(t, d);
    TurnedPotential(t, d);
    HangPotential(d, s, Sub(t, d).node, turned);
    NotEmpty(Sub(Sub(t, d), d));
    rotated, hung := Size(turned), Size(Off(s, d)) + 1 + Size(turned);
  }

  /** What a rotating pass adds to the account of the subtree that it goes on with. */
  lemma RotatingAccount(t: Tree, addr: Addr, d: Side) returns (rotated: nat, hung: nat)
    requires Ordered(t) && t.Branch? && Goes(t, addr, d) && Goes(Sub(t, d), addr, d)
    requires Sub(Sub(t, d), d).Branch?
    ensures var c := Sub(t, d);
            var x := Sub(c, d);
            && Amortised(t, addr) ==
               Amortised(x, addr) + 1 + 2 * (Log2(rotated) + Log2(hung) - Log2(Size(x)) - Log2(Size(c)))
            && 0 < rotated && rotated + Size(x) < Size(t) && 0 < hung <= Size(t)
            && 0 < Size(x) < Size(c) < Size(t)
  {
    var x := Sub(Sub(t, d), d);
    PartsOrdered(t, d);
    RotatingPass(t, addr, d);
    SplayKeepsSize(x, addr);
    rotated, hung := RotatePotential(t, d, Splay(x, addr));
  }

  lemma LinkingAccount(t: Tree, addr: Addr, d: Side) returns (hung: nat)
    requires Ordered(t) && t.Branch?
    requires Goes(t, addr, d) && Sub(t, d).Branch? && !Goes(Sub(t, d), addr, d)
    ensures var c := Sub(t, d);
            && Amortised(t, addr) == Amortised(c, addr) + 1 + 2 * (Log2(hung) - Log2(Size(c)))
            && hung == Size(Off(Splay(c, addr), d)) + 1 + Size(Off(t, d))
            && 0 < Size(c) < Size(t) && 0 < hung <= Size(t)
  {
    var c := Sub(t, d);
    PartsOrdered(t, d);
    LinkingPass(t, addr, d);
    SplayKeepsSize(c, addr);
    hung := LinkPotential(t, d, Splay(c, addr));
  }

  /** A rotation that ends the loop. */
  lemma LastRotation(t: Tree, addr: Addr, d: Side)
    requires Ordered(t) && t.Branch? && Goes(t, addr, d) && Goes(Sub(t, d), addr, d)
    requires Sub(Sub(t, d), d).Leaf?
    ensures Amortised(t, addr) <= 1 + 2 * Log2(Size(t))
  {
    PartsOrdered(t, d);
    RotatingPass(t, addr, d);
    LastPotential(t, d);
  }

  lemma {:induction false} LastPotential(t: Tree, d: Side)
    requires t.Branch? && Sub(t, d).Branch? && Sub(Sub(t, d), d).Leaf?
    ensures var c := Sub(t, d);
            var turned := Build(d, Off(c, d), t.node, Off(t, d));
            Potential(Build(d, Leaf, c.node, turned)) <= Potential(t) + Log2(Size(t))
  {
    var c := Sub(t, d);
    var turned := Build(d, Off(c, d), t.node, Off(t, d));
    PartSize(t, d);
    PartSize(c, d);
    BuildSize(d, Off(c, d), t.node, Off(t, d));
    BuildSize(d, Leaf, c.node, turned);
    Log2Monotone(Size(turned), Size(t));
  }

  function Other(d: Side): Side {
    if d.Left? then Right else Left
  }

  /** The access lemma: a splay is paid for by the logarithm of the size. */
  lemma {:induction false} SplayAmortised(t: Tree, addr: Addr)
    requires Ordered(t)
    ensures Amortised(t, addr) <= 8 * Log2(Size(t)) + 2
    decreases t
  {
    if t.Leaf? {
    } else if Goes(t, addr, Left) && t.left.Branch? {
      SplayAmortisedTo(t, addr, Left);
    } else if Goes(t, addr, Right) && t.right.Branch? {
      SplayAmortisedTo(t, addr, Right);
    } else {
      LastPass(t, addr);
    }
  }

  lemma {:induction false} SplayAmortisedTo(t: Tree, addr: Addr, d: Side)
    requires Ordered(t) && t.Branch? && Goes(t, addr, d) && Sub(t, d).Branch?
    ensures Amortised(t, addr) <= 8 * Log2(Size(t)) + 2
    decreases t, 0
  {
    var c := Sub(t, d);
    if Goes(c, addr, d) {
      if Sub(c, d).Leaf? {
        LastRotation(t, addr, d);
      } else {
        var rotated, hung := RotatingAccount(t, addr, d);
        PartsOrdered(t, d);
        PartsOrdered(c, d);
        SplayAmortised(Sub(c, d), addr);
        PaysForRotation(Size(t), Size(c), Size(Sub(c, d)), rotated, hung);
      }
    } else {
      LinkAmortised(t, addr, d);
    }
  }

  /** A link is paid for together with the pass after it, which turns to the other side. */
  lemma {:induction false} LinkAmortised(t: Tree, addr: Addr, d: Side)
    requires Ordered(t) && t.Branch? && Goes(t, addr, d) && Sub(t, d).Branch? && !Goes(Sub(t, d), addr, d)
    ensures Amortised(t, addr) <= 8 * Log2(Size(t)) + 2
    decreases t, 0, 0
  {
    var c, e := Sub(t, d), Other(d);
    PartsOrdered(t, d);
    if Goes(c, addr, e) && Sub(c, e).Branch? {
      if !Goes(Sub(c, e), addr, e) {
        PartsOrdered(c, e);
        SplayAmortised(Sub(c, e), addr);
        TwoLinks(t, addr, d);
      } else if Sub(Sub(c, e), e).Leaf? {
        LastRotation(c, addr, e);
        LinkWithin(t, addr, d);
      } else {
        PartsOrdered(c, e);
        PartsOrdered(Sub(c, e), e);
        SplayAmortised(Sub(Sub(c, e), e), addr);
        LinkAndRotation(t, addr, d);
      }
    } else {
      PartsOrdered(c, d);
      LastPass(c, addr);
      LinkWithin(t, addr, d);
    }
  }

  /** A link before the last pass. */
  lemma LinkWithin(t: Tree, addr: Addr, d: Side)
    requires Ordered(t) && t.Branch? && Goes(t, addr, d) && Sub(t, d).Branch? && !Goes(Sub(t, d), addr, d)
    requires Amortised(Sub(t, d), addr) <= 1 + 2 * Log2(Size(Sub(t, d)))
    ensures Amortised(t, addr) <= 8 * Log2(Size(t)) + 2
  {
    var hung := LinkingAccount(t, addr, d);
    Log2Monotone(hung, Size(t));
  }

  lemma TwoLinks(t: Tree, addr: Addr, d: Side)
    requires Ordered(t) && t.Branch? && Goes(t, addr, d) && Sub(t, d).Branch?
    requires var c, e := Sub(t, d), Other(d);
             && !Goes(c, addr, d) && Ordered(c) && Goes(c, addr, e)
             && Sub(c, e).Branch? && !Goes(Sub(c, e), addr, e)
             && Amortised(Sub(c, e), addr) <= 8 * Log2(Size(Sub(c, e))) + 2
    ensures Amortised(t, addr) <= 8 * Log2(Size(t)) + 2
  {
    var c, e := Sub(t, d), Other(d);
    var hung := LinkingAccount(t, addr, d);
    var hung' := LinkingAccount(c, addr, e);
    SplayKeepsSize(Sub(c, e), addr);
    PartsOrdered(c, e);
    TwoHung(t, addr, d, hung, hung');
    PaysForTwoLinks(Size(t), Size(c), Size(Sub(c, e)), hung, hung');
  }

  lemma LinkAndRotation(t: Tree, addr: Addr, d: Side)
    requires Ordered(t) && t.Branch? && Goes(t, addr, d) && Sub(t, d).Branch?
    requires var c, e := Sub(t, d), Other(d);
             && !Goes(c, addr, d) && Ordered(c) && Goes(c, addr, e)
             && Goes(Sub(c, e), addr, e) && Sub(Sub(c, e), e).Branch?
             && Amortised(Sub(Sub(c, e), e), addr) <= 8 * Log2(Size(Sub(Sub(c, e), e))) + 2
    ensures Amortised(t, addr) <= 8 * Log2(Size(t)) + 2
  {
    var c, e := Sub(t, d), Other(d);
    var y := Sub(c, e);
    var hung := LinkingAccount(t, addr, d);
    var rotated, hung' := RotatingAccount(c, addr, e);
    PaysForLinkAndRotation(Size(t), Size(c), Size(y), Size(Sub(y, e)), hung, rotated, hung');
  }

  /** What two links in opposite directions hang are two parts of the tree. */
  lemma TwoHung(t: Tree, addr: Addr, d: Side, hung: nat, hung': nat)
    requires t.Branch? && Sub(t, d).Branch?
    requires var c, e := Sub(t, d), Other(d);
             && Sub(c, e).Branch? && c.node.start < c.node.end
             && Goes(c, addr, e) && !Goes(Sub(c, e), addr, e)
             && hung == Size(Off(Splay(c, addr), d)) + 1 + Size(Off(t, d))
             && hung' == Size(Off(Splay(Sub(c, e), addr), e)) + 1 + Size(Off(c, e))
             && Size(Splay(Sub(c, e), addr)) == Size(Sub(c, e))
    ensures hung + hung' < Size(t)
  {
    var c, e := Sub(t, d), Other(d);
    LinkingPass(c, addr, e);
    var s := Splay(Sub(c, e), addr);
    BuildSize(e, Off(s, e), c.node, Off(c, e));
    PartSize(t, d);
    PartSize(c, e);
    PartSize(s, e);
  }

  lemma {:induction false} PaysForRotation(n: nat, c: nat, x: nat, rotated: nat, hung: nat)
    requires 0 < x < c < n && 0 < rotated && rotated + x < n && 0 < hung <= n
    ensures 1 + 2 * (Log2(rotated) + Log2(hung) - Log2(x) - Log2(c)) <= 8 * (Log2(n) - Log2(x))
  {
    Log2Monotone(x, c);
    Log2Monotone(c, n);
    Log2Monotone(rotated, n);
    Log2Monotone(hung, n);
    Log2OfParts(rotated, x, n);
  }

  lemma {:induction false} PaysForTwoLinks(n: nat, c: nat, y: nat, hung: nat, hung': nat)
    requires 0 < y < c < n && 0 < hung && 0 < hung' && hung + hung' < n
    ensures 2 + 2 * (Log2(hung) + Log2(hung') - Log2(c) - Log2(y)) <= 8 * (Log2(n) - Log2(y))
  {
    Log2Monotone(y, c);
    Log2Monotone(c, n);
    Log2Monotone(hung, n);
    Log2Monotone(hung', n);
    Log2OfParts(hung, hung', n);
  }

  lemma {:induction false} PaysForLinkAndRotation(n: nat, c: nat, y: nat, x: nat, hung: nat, rotated: nat, hung': nat)
    requires 0 < x < y < c < n && 0 < hung <= n && 0 < rotated && rotated + x < c && 0 < hung' <= c
    ensures 2 + 2 * (Log2(hung) - Log2(c)) + 2 * (Log2(rotated) + Log2(hung') - Log2(x) - Log2(y)) <=
            8 * (Log2(n) - Log2(x))
  {
    Log2Monotone(x, y);
    Log2Monotone(y, c);
    Log2Monotone(c, n);
    Log2Monotone(hung, n);
    Log2Monotone(rotated, c);
    Log2Monotone(hung', c);
    Log2OfParts(rotated, x, c);
  }

  // ----- One operation -----

  function InsertPasses(t: Tree, n: Node): nat {
    if n.start >= n.end || t.Leaf? then 0
    else
      var s := Splay(t, n.start);
      Passes(t, n.start) + if n.end <= s.node.start then 0 else Passes(s.right, s.node.start)
  }

  function DeletePasses(t: Tree, lo: Addr, hi: Addr): nat {
    if t.Leaf? then 0
    else
      var c := CutBelow(Splay(t, lo), lo);
      var d := CutAbove(Splay(c.high, hi), hi);
      Passes(t, lo) + Passes(c.high, hi) + if c.low.Leaf? || d.high.Leaf? then 0 else Passes(c.low, hi)
  }

  function StepPasses(t: Tree, op: Op): nat {
    match op
    case Lookup(addr) => Passes(t, addr)
    case InsertNode(n) => InsertPasses(t, n)
    case DeleteRange(lo, hi) => DeletePasses(t, lo, hi)
  }

  /** A splay, with a bound `n` on the size. */
  lemma SplayWithin(t: Tree, addr: Addr, n: nat)
    requires Ordered(t) && Size(t) <= n
    ensures Passes(t, addr) + 2 * Potential(Splay(t, addr)) <= 2 * Potential(t) + 8 * Log2(n) + 2
    ensures Size(Splay(t, addr)) == Size(t) && Ordered(Splay(t, addr))
  {
    SplayAmortised(t, addr);
    SplayKeepsSize(t, addr);
    SplayKeeps(t, addr);
    Log2Monotone(Size(t), n);
  }

  lemma InsertAmortised(t: Tree, n: Node, m: nat)
    requires Ordered(t) && Size(t) < m
    ensures var t' := Insert(t, n).tree;
            && InsertPasses(t, n) + 2 * Potential(t') <= 2 * Potential(t) + 26 * Log2(m) + 6
            && Size(t') <= Size(t) + 1
  {
    if n.start < n.end && t.Branch? {
      var s := Splay(t, n.start);
      SplayWithin(t, n.start, m);
      PartsOrdered(s, Right);
      if n.end <= s.node.start {
        PutLeftPotential(s, n, m);
      } else {
        PartSize(s, Right);
        SplayWithin(s.right, s.node.start, m);
        PutRightPotential(s, n, Splay(s.right, s.node.start), m);
      }
    }
  }

  lemma {:induction false} PutLeftPotential(s: Tree, n: Node, m: nat)
    requires s.Branch? && Size(s) < m
    ensures Potential(PutLeft(s, n)) <= Potential(s) + 2 * Log2(m) && Size(PutLeft(s, n)) == Size(s) + 1
  {
    BuildSize(Left, Leaf, s.node, s.right);
    BuildSize(Left, s.left, n, Branch(Leaf, s.node, s.right));
    Log2Monotone(1 + Size(s.right), m);
    Log2Monotone(Size(s) + 1, m);
  }

  lemma {:induction false} PutRightPotential(s: Tree, n: Node, r: Tree, m: nat)
    requires s.Branch? && Size(s) < m && Size(r) == Size(s.right)
    ensures var t := PutRight(s, n, r).tree;
            && Potential(t) <= Potential(s.left) + Potential(r) + 2 * Log2(m)
            && Size(t) <= Size(s) + 1
  {
    if PutRight(s, n, r).code == 0 {
      PutBetweenPotential(s, n, r, m);
    } else {
      BuildSize(Left, s.left, s.node, r);
      Log2Monotone(Size(s), m);
    }
  }

  lemma {:induction false} PutBetweenPotential(s: Tree, n: Node, r: Tree, m: nat)
    requires s.Branch? && Size(s) < m && Size(r) == Size(s.right)
    ensures var t := Branch(Branch(s.left, s.node, Leaf), n, r);
            && Potential(t) <= Potential(s.left) + Potential(r) + 2 * Log2(m)
            && Size(t) == Size(s) + 1
  {
    BuildSize(Left, s.left, s.node, Leaf);
    BuildSize(Left, Branch(s.left, s.node, Leaf), n, r);
    Log2Monotone(Size(s.left) + 1, m);
    Log2Monotone(Size(s) + 1, m);
  }

  lemma {:induction false} CutBelowPotential(s: Tree, lo: Addr)
    requires s.Branch?
    ensures var c := CutBelow(s, lo);
            Potential(c.low) + Potential(c.high) <= Potential(s) && Size(c.low) + Size(c.high) == Size(s)
  {
    Log2Monotone(Size(s.left) + 1, Size(s));
    Log2Monotone(Size(s.right) + 1, Size(s));
  }

  lemma CutAbovePotential(s: Tree, hi: Addr)
    ensures var c := CutAbove(s, hi);
            Potential(c.low) + Potential(c.high) <= Potential(s) && Size(c.low) + Size(c.high) == Size(s)
  {
    if s.Branch? {
      Log2Monotone(Size(s.left) + 1, Size(s));
      Log2Monotone(Size(s.right) + 1, Size(s));
    }
  }

  lemma {:induction false} JoinPotential(low: Tree, high: Tree, hi: Addr, m: nat)
    requires Ordered(low) && Size(low) + Size(high) <= m
    ensures var passes := if low.Leaf? || high.Leaf? then 0 else Passes(low, hi);
            passes + 2 * Potential(Join(low, high, hi)) <= 2 * Potential(low) + 2 * Potential(high) + 10 * Log2(m) + 2
    ensures Size(Join(low, high, hi)) <= Size(low) + Size(high)
  {
    if low.Branch? && high.Branch? {
      SplayWithin(low, hi, m);
      var s := Splay(low, hi);
      Log2Monotone(Size(s.left) + 1 + Size(high), m);
    }
  }

  lemma DeleteAmortised(t: Tree, lo: Addr, hi: Addr, m: nat)
    requires Ordered(t) && Size(t) < m
    ensures var t' := Delete(t, lo, hi).tree;
            && DeletePasses(t, lo, hi) + 2 * Potential(t') <= 2 * Potential(t) + 26 * Log2(m) + 6
            && Size(t') <= Size(t)
  {
    if t.Branch? {
      var c, d := DeleteCuts(t, lo, hi);
      SplayWithin(t, lo, m);
      CutBelowPotential(Splay(t, lo), lo);
      SplayWithin(c.high, hi, m);
      CutAbovePotential(Splay(c.high, hi), hi);
      JoinPotential(c.low, d.high, hi, m);
    }
  }

  lemma StepAmortised(t: Tree, op: Op, m: nat)
    requires Ordered(t) && Size(t) < m
    ensures var t' := Step(t, op).tree;
            && StepPasses(t, op) + 2 * Potential(t') <= 2 * Potential(t) + 26 * Log2(m) + 6
            && Size(t') <= Size(t) + 1
  {
    match op
    case Lookup(addr) => SplayWithin(t, addr, m);
    case InsertNode(n) => InsertAmortised(t, n, m);
    case DeleteRange(lo, hi) => DeleteAmortised(t, lo, hi, m);
  }

  // ----- Whole runs -----

  function RunPasses(ops: seq<Op>): nat {
    if ops == [] then 0
    else
      var before := ops[..|ops| - 1];
      RunPasses(before) + StepPasses(Run(Leaf, before), ops[|ops| - 1])
  }

  /**
   Any run of m operations from the empty tree makes at most m (26 log2 m + 6) passes of the
   splay loop, whatever the order of the addresses.
   */
  lemma RunIsLogarithmic(ops: seq<Op>)
    requires forall i :: 0 <= i < |ops| ==> InRange(ops[i])
    ensures RunPasses(ops) <= |ops| * (26 * Log2(|ops|) + 6)
  {
    RunAmortised(ops, |ops|);
  }

  lemma {:induction false} RunAmortised(ops: seq<Op>, m: nat)
    requires |ops| <= m && forall i :: 0 <= i < |ops| ==> InRange(ops[i])
    ensures Paid(RunPasses(ops), Run(Leaf, ops), |ops|, m)
    decreases |ops|
  {
    if ops != [] {
      var before, op := ops[..|ops| - 1], ops[|ops| - 1];
      RunAmortised(before, m);
      RunOrdered(before);
      StepPaid(RunPasses(before), Run(Leaf, before), |before|, m, op);
    }
  }

  /** The passes of `k` operations that led to `t`, with what is kept in its potential. */
  predicate Paid(passes: nat, t: Tree, k: nat, m: nat) {
    passes + 2 * Potential(t) <= k * (26 * Log2(m) + 6) && Size(t) <= k
  }

  lemma StepPaid(passes: nat, t: Tree, k: nat, m: nat, op: Op)
    requires Paid(passes, t, k, m) && Ordered(t) && k < m
    ensures Paid(passes + StepPasses(t, op), Step(t, op).tree, k + 1, m)
  {
    StepAmortised(t, op, m);
    OneMoreShare(k, 26 * Log2(m) + 6);
  }

  lemma RunOrdered(ops: seq<Op>)
    requires forall i :: 0 <= i < |ops| ==> InRange(ops[i])
    ensures Ordered(Run(Leaf, ops))
  {
    RunRefinesSet(ops);
  }

  lemma OneMoreShare(k: nat, share: nat)
    ensures (k + 1) * share == k * share + share
  {
  }
}
