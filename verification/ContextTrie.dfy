/**
 The calling-context tree: every call path is interned once.

 A tree is its list of nodes in order of creation, node i having id i; the class
 `NewContextTree` keeps linked objects that mirror such a list.
 */
module ContextTrie {
  import opened Wrappers
  import opened WordArithmetic

  datatype Frame = Frame(binaryAddr: nat, numaNode: int, methodId: nat, methodName: string, methodVersion: nat,
                         sourceFile: string, bci: int, srcLineno: int)

  /** The five fields by which siblings are told apart. */
  datatype Key = Key(bci: int, methodId: nat, binaryAddr: nat, numaNode: int, methodVersion: nat)

  function KeyOf(f: Frame): Key {
    Key(f.bci, f.methodId, f.binaryAddr, f.numaNode, f.methodVersion)
  }

  /** Two keys are the same exactly when contextRefEqual holds of the frames. */
  lemma KeysAreFields()
    ensures forall f, g :: KeyOf(f) == KeyOf(g) <==>
                           && f.bci == g.bci && f.methodId == g.methodId && f.binaryAddr == g.binaryAddr
                           && f.numaNode == g.numaNode && f.methodVersion == g.methodVersion
  {
  }

  const EMPTY_FRAME := Frame(0, 10, 0, "", 0, "", -1, 0)

  /**
   A node: the id it was given, the position of its parent, its key. The root's entry is its
   own parent.
   */
  datatype Entry = Entry(id: nat, parent: nat, key: Key)

  /**
   The nodes in order of creation, the uint32_t counter from which ids are taken, and the map
   from ids to nodes.
   */
  datatype Tree = Tree(nodes: seq<Entry>, counter: nat, byId: map<nat, nat>)

  const JUST_ROOT := Tree([Entry(0, 0, KeyOf(EMPTY_FRAME))], 1, map[0 := 0])

  /** Node `i` is the child of `p` at `key`. */
  predicate IsChild(nodes: seq<Entry>, p: nat, key: Key, i: nat) {
    0 < i < |nodes| && nodes[i].parent == p && nodes[i].key == key
  }

  predicate SameChild(a: Entry, b: Entry) {
    a.parent == b.parent && a.key == b.key
  }

  /** Parents come before their children, and siblings differ in their keys. */
  ghost predicate IsTrie(nodes: seq<Entry>) {
    && nodes != []
    && (forall i :: 0 < i < |nodes| ==> nodes[i].parent < i)
    && (forall i, j :: 0 < i < |nodes| && 0 < j < |nodes| && SameChild(nodes[i], nodes[j]) ==> i == j)
  }

  function FindFrom(nodes: seq<Entry>, p: nat, key: Key, i: nat): (found: Option<nat>)
    ensures found.Some? ==> i <= found.value && IsChild(nodes, p, key, found.value)
    ensures found.None? ==> forall j :: i <= j ==> !IsChild(nodes, p, key, j)
    decreases |nodes| - i
  {
    if |nodes| <= i then None
    else if IsChild(nodes, p, key, i) then Some(i)
    else FindFrom(nodes, p, key, i + 1)
  }

  /** A new node under `p`, with the next id. */
  function Extend(t: Tree, p: nat, key: Key): Tree {
    Tree(t.nodes + [Entry(t.counter, p, key)], (t.counter + 1) % TWO_32, t.byId[t.counter := |t.nodes|])
  }

  /** The child of `p` at `key`, made if there is none; and its position. */
  function Add(t: Tree, p: nat, key: Key): (Tree, nat) {
    match FindFrom(t.nodes, p, key, 1)
    case Some(i) => (t, i)
    case None => (Extend(t, p, key), |t.nodes|)
  }

  lemma AddKeepsTrie(t: Tree, p: nat, key: Key)
    requires IsTrie(t.nodes) && p < |t.nodes|
    ensures var (after, i) := Add(t, p, key);
            IsTrie(after.nodes) && IsChild(after.nodes, p, key, i) && t.nodes <= after.nodes
  {
    var (after, i) := Add(t, p, key);
    if FindFrom(t.nodes, p, key, 1).None? {
      forall j | 0 < j < |t.nodes|
        ensures !SameChild(after.nodes[j], Entry(t.counter, p, key))
      {
        assert !IsChild(t.nodes, p, key, j);
      }
    }
  }

  /** The keys on the way down from the root. */
  function Path(nodes: seq<Entry>, i: nat): seq<Key>
    requires IsTrie(nodes) && i < |nodes|
  {
    if i == 0 then [] else Path(nodes, nodes[i].parent) + [nodes[i].key]
  }

  /** A node is its path: two nodes are the same exactly when their paths are equal. */
  lemma {:induction false} PathsAreUnique(nodes: seq<Entry>, i: nat, j: nat)
    requires IsTrie(nodes) && i < |nodes| && j < |nodes|
    ensures Path(nodes, i) == Path(nodes, j) <==> i == j
    decreases i + j
  {
    if Path(nodes, i) == Path(nodes, j) && i > 0 {
      assert |Path(nodes, j)| > 0;
      var p, q := nodes[i].parent, nodes[j].parent;
      assert Path(nodes, p) == Path(nodes, i)[..|Path(nodes, i)| - 1];
      assert Path(nodes, q) == Path(nodes, j)[..|Path(nodes, j)| - 1];
      PathsAreUnique(nodes, p, q);
      assert nodes[i].key == Path(nodes, i)[|Path(nodes, i)| - 1];
      assert SameChild(nodes[i], nodes[j]);
    }
  }

  /** Adding nodes does not change the paths of old ones. */
  lemma {:induction false} PathKept(nodes: seq<Entry>, after: seq<Entry>, i: nat)
    requires IsTrie(nodes) && IsTrie(after) && nodes <= after && i < |nodes|
    ensures Path(after, i) == Path(nodes, i)
  {
    if i > 0 {
      PathKept(nodes, after, nodes[i].parent);
    }
  }

  /** addContext answers the one node at the parent's path extended by the key. */
  lemma AddFindsPath(t: Tree, p: nat, key: Key)
    requires IsTrie(t.nodes) && p < |t.nodes|
    ensures var (after, i) := Add(t, p, key);
            && IsTrie(after.nodes) && i < |after.nodes|
            && Path(after.nodes, i) == Path(t.nodes, p) + [key]
            && (after == t <==> exists j :: 0 <= j < |t.nodes| && Path(t.nodes, j) == Path(t.nodes, p) + [key])
  {
    var (after, i) := Add(t, p, key);
    AddKeepsTrie(t, p, key);
    PathKept(t.nodes, after.nodes, p);
    if j :| 0 <= j < |t.nodes| && Path(t.nodes, j) == Path(t.nodes, p) + [key] {
      PathKept(t.nodes, after.nodes, j);
      PathsAreUnique(after.nodes, i, j);
    }
    if after == t {
      assert Path(t.nodes, i) == Path(t.nodes, p) + [key];
    }
  }

  // ----- Ids -----

  /** The id of the node at position `i`: the counter counts the nodes, in uint32_t. */
  function IdAt(i: nat): nat {
    i % TWO_32
  }

  /** `i` is the newest node of `nodes` with its id. */
  ghost predicate IsNewest(nodes: seq<Entry>, i: nat) {
    i < |nodes| <= i + TWO_32
  }

  /** Ids follow the counter, and the map leads each id to the newest node that has it. */
  ghost predicate Counted(t: Tree) {
    && t.counter == IdAt(|t.nodes|)
    && (forall i :: 0 <= i < |t.nodes| ==> t.nodes[i].id == IdAt(i))
    && (forall i: nat {:trigger IsNewest(t.nodes, i)} :: IsNewest(t.nodes, i) ==>
          IdAt(i) in t.byId && t.byId[IdAt(i)] == i)
    && (forall id :: id in t.byId ==> IsNewest(t.nodes, t.byId[id]) && IdAt(t.byId[id]) == id)
  }

  lemma ExtendKeepsCounted(t: Tree, p: nat, key: Key)
    requires Counted(t)
    ensures Counted(Extend(t, p, key))
  {
    var after := Extend(t, p, key);
    forall i: nat {:trigger IsNewest(after.nodes, i)} | IsNewest(after.nodes, i)
      ensures IdAt(i) in after.byId && after.byId[IdAt(i)] == i
    {
      if i < |t.nodes| {
        assert IsNewest(t.nodes, i);
        SameIdFarApart(i, |t.nodes|);
      }
    }
    forall id | id in after.byId
      ensures IsNewest(after.nodes, after.byId[id]) && IdAt(after.byId[id]) == id
    {
      if id != t.counter && |t.nodes| == t.byId[id] + TWO_32 {
        SameIdFarApart(t.byId[id], |t.nodes|);
      }
    }
  }

  /** Two positions have the same id exactly when they are a multiple of 2^32 apart. */
  lemma SameIdFarApart(i: nat, j: nat)
    requires i <= j
    ensures IdAt(i) == IdAt(j) <==> (j - i) % TWO_32 == 0
    ensures i < j < i + TWO_32 ==> IdAt(i) != IdAt(j)
    ensures j == i + TWO_32 ==> IdAt(i) == IdAt(j)
  {
    assert j - i == (j / TWO_32 - i / TWO_32) * TWO_32 + (IdAt(j) - IdAt(i));
  }

  ghost predicate IdsDistinct(t: Tree) {
    forall i, j :: 0 <= i < j < |t.nodes| ==> t.nodes[i].id != t.nodes[j].id
  }

  /** No two contexts share an id exactly while there are at most 2^32 of them. */
  lemma CountedIds(t: Tree)
    requires Counted(t)
    ensures IdsDistinct(t) <==> |t.nodes| <= TWO_32
  {
    if |t.nodes| <= TWO_32 {
      forall i, j | 0 <= i < j < |t.nodes|
        ensures t.nodes[i].id != t.nodes[j].id
      {
        SameIdFarApart(i, j);
      }
    } else {
      SameIdFarApart(0, TWO_32);
      assert t.nodes[0].id == t.nodes[TWO_32].id;
    }
  }

  /** A node is found again by its id exactly until 2^32 more have been made. */
  lemma FoundById(t: Tree, i: nat)
    requires Counted(t) && i < |t.nodes|
    ensures IdAt(i) in t.byId
    ensures t.byId[t.nodes[i].id] == i <==> |t.nodes| <= i + TWO_32
  {
    if |t.nodes| <= i + TWO_32 {
      assert IsNewest(t.nodes, i);
    } else {
      var newest := |t.nodes| - 1 - (|t.nodes| - 1 - i) % TWO_32;
      SameIdFarApart(i, newest) by {
        assert (newest - i) % TWO_32 == 0;
      }
      assert IsNewest(t.nodes, newest);
    }
  }

  // ----- Whole runs -----

  /** One call: the parent as a node or by its id, and the key of the frame. */
  datatype Call = UnderNode(parent: nat, key: Key) | UnderId(id: nat, key: Key)

  /** The position of the parent, if the call names one. */
  function ParentOf(t: Tree, c: Call): Option<nat> {
    match c
    case UnderNode(parent, _) => if parent < |t.nodes| then Some(parent) else None
    case UnderId(id, _) => if id in t.byId then Some(t.byId[id]) else None
  }

  /** The tree after a run of calls; None when one of them fails the assertion on its parent. */
  function Run(calls: seq<Call>): Option<Tree> {
    if calls == [] then Some(JUST_ROOT)
    else
      var last := calls[|calls| - 1];
      match Run(calls[..|calls| - 1])
      case None => None
      case Some(t) =>
        match ParentOf(t, last)
        case None => None
        case Some(p) => Some(Add(t, p, last.key).0)
  }

  lemma {:induction false} RunIsTrie(calls: seq<Call>)
    requires Run(calls).Some?
    ensures IsTrie(Run(calls).value.nodes) && Counted(Run(calls).value)
    decreases |calls|
  {
    if calls != [] {
      var before, last := calls[..|calls| - 1], calls[|calls| - 1];
      RunIsTrie(before);
      var t := Run(before).value;
      var p := ParentOf(t, last).value;
      AddKeepsTrie(t, p, last.key);
      if FindFrom(t.nodes, p, last.key, 1).None? {
        ExtendKeepsCounted(t, p, last.key);
      }
    } else {
      RootCounted();
    }
  }

  lemma RootCounted()
    ensures IsTrie(JUST_ROOT.nodes) && Counted(JUST_ROOT)
  {
    assert forall i: nat {:trigger IsNewest(JUST_ROOT.nodes, i)} :: IsNewest(JUST_ROOT.nodes, i) ==> i == 0;
    assert IsNewest(JUST_ROOT.nodes, 0);
  }

  /**
   After any run, ids are distinct if and only if the run made at most 2^32 contexts, and
   exactly then the root is still the context with id 0.
   */
  lemma RunIdsDistinctExactly(calls: seq<Call>)
    requires Run(calls).Some?
    ensures var t := Run(calls).value;
            && (IdsDistinct(t) <==> |t.nodes| <= TWO_32)
            && 0 in t.byId && (t.byId[0] == 0 <==> |t.nodes| <= TWO_32)
  {
    RunIsTrie(calls);
    var t := Run(calls).value;
    CountedIds(t);
    FoundById(t, 0);
  }

  /** A run can make any number of contexts: a chain of `n` nodes. */
  lemma {:induction false} RunOfSize(n: nat, key: Key) returns (calls: seq<Call>)
    requires n > 0
    ensures Run(calls).Some? && |Run(calls).value.nodes| == n
  {
    if n == 1 {
      calls := [];
    } else {
      var before := RunOfSize(n - 1, key);
      RunIsTrie(before);
      var t := Run(before).value;
      var last := UnderNode(n - 2, key);
      calls := before + [last];
      assert calls[..|calls| - 1] == before;
      assert FindFrom(t.nodes, n - 2, key, 1).None?;
    }
  }

  /**
   The call that makes one context more than 2^32: the new context has the root's id and
   takes its place in the map, so that a call under id 0 adds below it from then on.
   */
  lemma RootIdIsReused(calls: seq<Call>, c: Call, key: Key)
    requires Run(calls).Some? && |Run(calls).value.nodes| == TWO_32
    requires Run(calls + [c]).Some? && |Run(calls + [c]).value.nodes| > TWO_32
    ensures var t := Run(calls + [c]).value;
            && t.nodes[TWO_32].id == t.nodes[0].id
            && 0 in t.byId && t.byId[0] == TWO_32 && ParentOf(t, UnderId(0, key)) == Some(TWO_32)
  {
    var all := calls + [c];
    assert all[..|all| - 1] == calls && all[|all| - 1] == c;
    RunIsTrie(all);
    var t := Run(all).value;
    assert |t.nodes| == TWO_32 + 1;
    assert IsNewest(t.nodes, TWO_32);
  }

  /** Two calls under one parent answer the same context exactly when the frames agree in all five fields. */
  lemma SameContextExactly(t: Tree, p: nat, f: Frame, g: Frame)
    requires IsTrie(t.nodes) && p < |t.nodes|
    ensures var (t', i) := Add(t, p, KeyOf(f));
            var (t'', j) := Add(t', p, KeyOf(g));
            i == j <==>
            && f.bci == g.bci && f.methodId == g.methodId && f.binaryAddr == g.binaryAddr
            && f.numaNode == g.numaNode && f.methodVersion == g.methodVersion
  {
    KeysAreFields();
    AddKeepsTrie(t, p, KeyOf(f));
    var (t', i) := Add(t, p, KeyOf(f));
    AddKeepsTrie(t', p, KeyOf(g));
    assert IsChild(t'.nodes, p, KeyOf(f), i);
  }

  // ----- The linked objects -----

  class NewContext {
    const id: nat
    var frame: Frame
    var children: set<NewContext>
    var parent: NewContext?

    constructor (id: nat)
      ensures this.id == id && frame == EMPTY_FRAME && children == {} && parent == null
      ensures frame.binaryAddr == 0 && frame.numaNode == 10 && frame.methodId == 0 && frame.methodVersion == 0
      ensures frame.bci == -1 && frame.srcLineno == 0
    {
      this.id := id;
      frame := EMPTY_FRAME;
      children := {};
      parent := null;
    }

    /** A child that compares equal to `ctxt`. */
    method FindChild(ctxt: NewContext) returns (found: NewContext?)
      ensures found != null ==>
                && found in children
                && found.frame.bci == ctxt.frame.bci && found.frame.methodId == ctxt.frame.methodId
                && found.frame.binaryAddr == ctxt.frame.binaryAddr
                && found.frame.numaNode == ctxt.frame.numaNode
                && found.frame.methodVersion == ctxt.frame.methodVersion
      ensures found == null <==>
              !exists c :: && c in children
                           && c.frame.bci == ctxt.frame.bci && c.frame.methodId == ctxt.frame.methodId
                           && c.frame.binaryAddr == ctxt.frame.binaryAddr
                           && c.frame.numaNode == ctxt.frame.numaNode
                           && c.frame.methodVersion == ctxt.frame.methodVersion
    {
      KeysAreFields();
      if c :| c in children && KeyOf(c.frame) == KeyOf(ctxt.frame) {
        return c;
      }
      return null;
    }

    method AddChild(ctxt: NewContext)
      requires forall c :: c in children ==> KeyOf(c.frame) != KeyOf(ctxt.frame)
      modifies this`children, ctxt`parent
      ensures children == old(children) + {ctxt} && ctxt.parent == this
    {
      children := children + {ctxt};
      ctxt.parent := this;
    }
  }

  /** Object `i` mirrors node `i`: its id, its key, its parent and exactly its children. */
  ghost predicate NodeMirrors(objects: seq<NewContext>, nodes: seq<Entry>, i: nat)
    requires |objects| == |nodes| && IsTrie(nodes) && i < |nodes|
    reads objects[i]
  {
    var n := objects[i];
    && n.id == nodes[i].id
    && (if i == 0 then n.parent == null
        else KeyOf(n.frame) == nodes[i].key && n.parent == objects[nodes[i].parent])
    && n.children == ChildrenOf(objects, nodes, i)
  }

  ghost function ChildrenOf(objects: seq<NewContext>, nodes: seq<Entry>, i: nat): set<NewContext>
    requires |objects| == |nodes|
  {
    set j | 0 < j < |nodes| && nodes[j].parent == i :: objects[j]
  }

  ghost predicate AllDifferent(objects: seq<NewContext>) {
    forall i, j :: 0 <= i < j < |objects| ==> objects[i] != objects[j]
  }

  lemma ChildrenGrow(objects: seq<NewContext>, nodes: seq<Entry>, i: nat, x: NewContext, e: Entry)
    requires |objects| == |nodes| && nodes != []
    ensures ChildrenOf(objects + [x], nodes + [e], i) ==
            ChildrenOf(objects, nodes, i) + if e.parent == i then {x} else {}
  {
    var objects', nodes' := objects + [x], nodes + [e];
    forall c | c in ChildrenOf(objects, nodes, i)
      ensures c in ChildrenOf(objects', nodes', i)
    {
      var j :| 0 < j < |nodes| && nodes[j].parent == i && objects[j] == c;
      assert nodes'[j].parent == i && objects'[j] == c;
    }
    assert e.parent == i ==> nodes'[|nodes|].parent == i && objects'[|nodes|] == x;
  }

  /** A new node elsewhere does not disturb an object. */
  lemma NodeMirrorsKept(objects: seq<NewContext>, nodes: seq<Entry>, i: nat, x: NewContext, e: Entry)
    requires |objects| == |nodes| && IsTrie(nodes) && IsTrie(nodes + [e]) && i < |nodes|
    requires NodeMirrors(objects, nodes, i) && e.parent != i
    ensures NodeMirrors(objects + [x], nodes + [e], i)
  {
    ChildrenGrow(objects, nodes, i, x, e);
  }

  /** A child object with the key is at the position that the search finds. */
  lemma FoundAgrees(objects: seq<NewContext>, nodes: seq<Entry>, p: nat, key: Key, c: NewContext) returns (i: nat)
    requires |objects| == |nodes| && IsTrie(nodes) && p < |nodes| && AllDifferent(objects)
    requires forall i :: 0 <= i < |nodes| ==> NodeMirrors(objects, nodes, i)
    requires c in objects[p].children && KeyOf(c.frame) == key
    ensures FindFrom(nodes, p, key, 1) == Some(i) && i < |objects| && objects[i] == c && c.parent == objects[p]
  {
    assert NodeMirrors(objects, nodes, p);
    i :| 0 < i < |nodes| && nodes[i].parent == p && objects[i] == c;
    assert NodeMirrors(objects, nodes, i);
    assert IsChild(nodes, p, key, i);
  }

  lemma NotFoundAgrees(objects: seq<NewContext>, nodes: seq<Entry>, p: nat, key: Key)
    requires |objects| == |nodes| && IsTrie(nodes) && p < |nodes|
    requires forall i :: 0 <= i < |nodes| ==> NodeMirrors(objects, nodes, i)
    requires forall c :: c in objects[p].children ==> KeyOf(c.frame) != key
    ensures FindFrom(nodes, p, key, 1).None?
  {
    assert NodeMirrors(objects, nodes, p);
    forall j | 0 < j < |nodes|
      ensures !IsChild(nodes, p, key, j)
    {
      assert NodeMirrors(objects, nodes, j);
      assert nodes[j].parent == p ==> objects[j] in objects[p].children;
    }
  }

  /** The map leads each id to the object of the node that `byId` names. */
  ghost predicate Mirrored(contextMap: map<nat, NewContext>, byId: map<nat, nat>, objects: seq<NewContext>) {
    && contextMap.Keys == byId.Keys
    && forall id :: id in contextMap ==> byId[id] < |objects| && contextMap[id] == objects[byId[id]]
  }

  lemma MapExtended(contextMap: map<nat, NewContext>, byId: map<nat, nat>, objects: seq<NewContext>,
                    id: nat, x: NewContext)
    requires Mirrored(contextMap, byId, objects)
    ensures Mirrored(contextMap[id := x], byId[id := |objects|], objects + [x])
  {
  }

  class NewContextTree {
    var contextMap: map<nat, NewContext>
    var root: NewContext
    var idCounter: nat

    /** The tree value that the objects mirror, and the objects in the order of its nodes. */
    ghost var tree: Tree
    ghost var objects: seq<NewContext>

    ghost predicate NodesMirror()
      reads this, objects
    {
      && IsTrie(tree.nodes) && |objects| == |tree.nodes| && AllDifferent(objects)
      && root == objects[0]
      && (forall i :: 0 <= i < |objects| ==> NodeMirrors(objects, tree.nodes, i))
    }

    ghost predicate MapMirrors()
      reads this
    {
      Mirrored(contextMap, tree.byId, objects)
    }

    ghost predicate Valid()
      reads this, objects
    {
      NodesMirror() && MapMirrors() && Counted(tree) && idCounter == tree.counter
    }

    constructor ()
      ensures Valid() && tree == JUST_ROOT && fresh(objects)
    {
      var r := new NewContext(0);
      root := r;
      contextMap := map[0 := r];
      idCounter := 1;
      tree := JUST_ROOT;
      objects := [r];
      RootCounted();
    }

    /**
     Interns the frame under `parent`, which is the object of node `p`; the answer is the
     object of node `i`. Ids wrap with the counter.
     */
    method AddContext(parent: NewContext, frame: Frame, ghost p: nat) returns (ctxt: NewContext, ghost i: nat)
      requires Valid() && p < |objects| && objects[p] == parent
      modifies this, parent`children
      ensures Valid() && (tree, i) == Add(old(tree), p, KeyOf(frame))
      ensures old(objects) <= objects && i < |objects| && objects[i] == ctxt
      ensures tree != old(tree) ==> fresh(ctxt) && ctxt.frame == frame
      ensures ctxt.frame.bci == frame.bci && ctxt.frame.methodId == frame.methodId
              && ctxt.frame.binaryAddr == frame.binaryAddr
              && ctxt.frame.numaNode == frame.numaNode && ctxt.frame.methodVersion == frame.methodVersion
      ensures parent.children == old(parent.children) + {ctxt} && ctxt.parent == parent
      ensures ctxt in old(parent.children) <==>
              exists c :: && c in old(parent.children)
                          && c.frame.bci == frame.bci && c.frame.methodId == frame.methodId
                          && c.frame.binaryAddr == frame.binaryAddr
                          && c.frame.numaNode == frame.numaNode
                          && c.frame.methodVersion == frame.methodVersion
    {
      KeysAreFields();
      var ctxtId := idCounter;
      var newCtxt := MakeContext(ctxtId, frame);
      var findChild := parent.FindChild(newCtxt);
      if findChild != null {
        i := FoundAgrees(objects, tree.nodes, p, KeyOf(frame), findChild);
        return findChild, i;
      }
      NotFoundAgrees(objects, tree.nodes, p, KeyOf(frame));
      assert newCtxt !in parent.children;
      i := |objects|;
      Attach(parent, newCtxt, p);
      return newCtxt, i;
    }

    static method MakeContext(id: nat, frame: Frame) returns (ctxt: NewContext)
      ensures fresh(ctxt) && ctxt.id == id && ctxt.frame == frame && ctxt.children == {}
    {
      ctxt := new NewContext(id);
      ctxt.frame := frame;
    }

    /** Put a new object under `parent` and into the map. */
    method Attach(parent: NewContext, newCtxt: NewContext, ghost p: nat)
      requires Valid() && p < |objects| && objects[p] == parent
      requires newCtxt !in objects && newCtxt.id == idCounter && newCtxt.children == {}
      requires FindFrom(tree.nodes, p, KeyOf(newCtxt.frame), 1).None?
      requires forall c :: c in parent.children ==> KeyOf(c.frame) != KeyOf(newCtxt.frame)
      modifies this, parent`children, newCtxt`parent
      ensures Valid() && tree == Extend(old(tree), p, KeyOf(newCtxt.frame))
      ensures objects == old(objects) + [newCtxt]
      ensures parent.children == old(parent.children) + {newCtxt} && newCtxt.parent == parent
    {
      ghost var key := KeyOf(newCtxt.frame);
      ghost var tree', objects' := Extend(tree, p, key), objects + [newCtxt];
      AddKeepsTrie(tree, p, key);
      ExtendKeepsCounted(tree, p, key);
      LinkChild(parent, newCtxt, objects, tree.nodes, p);
      contextMap := contextMap[newCtxt.id := newCtxt];
      idCounter := (idCounter + 1) % TWO_32;
      MapExtended(old(contextMap), tree.byId, old(objects), newCtxt.id, newCtxt);
      tree, objects := tree', objects';
      assert NodesMirror();
      assert MapMirrors();
    }

    /** The objects with the new one linked in mirror the nodes with the new one at the end. */
    static method LinkChild(parent: NewContext, newCtxt: NewContext,
                            ghost objects: seq<NewContext>, ghost nodes: seq<Entry>, ghost p: nat)
      requires |objects| == |nodes| && p < |nodes| && objects[p] == parent && IsTrie(nodes) && AllDifferent(objects)
      requires IsTrie(nodes + [Entry(newCtxt.id, p, KeyOf(newCtxt.frame))])
      requires forall i :: 0 <= i < |nodes| ==> NodeMirrors(objects, nodes, i)
      requires newCtxt !in objects && newCtxt.children == {}
      requires forall c :: c in parent.children ==> KeyOf(c.frame) != KeyOf(newCtxt.frame)
      modifies parent`children, newCtxt`parent
      ensures var nodes', objects' := nodes + [Entry(newCtxt.id, p, KeyOf(newCtxt.frame))], objects + [newCtxt];
              forall i :: 0 <= i < |nodes'| ==> NodeMirrors(objects', nodes', i)
      ensures parent.children == old(parent.children) + {newCtxt} && newCtxt.parent == parent
    {
      ghost var e := Entry(newCtxt.id, p, KeyOf(newCtxt.frame));
      ghost var nodes', objects' := nodes + [e], objects + [newCtxt];
      assert NodeMirrors(objects, nodes, p);
      forall i | 0 <= i < |nodes| && i != p
        ensures NodeMirrors(objects', nodes', i) && objects'[i] != parent && objects'[i] != newCtxt
      {
        assert NodeMirrors(objects, nodes, i);
        NodeMirrorsKept(objects, nodes, i, newCtxt, e);
      }
      ChildrenGrow(objects, nodes, p, newCtxt, e);
      NoChildren(objects', nodes', |nodes|);
      parent.AddChild(newCtxt);
      assert NodeMirrors(objects', nodes', p);
      assert NodeMirrors(objects', nodes', |nodes|);
    }

    /** The same, with the parent named by its id; answers null when the assertion that it is known fails. */
    method AddContextById(parentId: nat, frame: Frame) returns (ctxt: NewContext?, ghost i: nat)
      requires Valid()
      modifies this, contextMap.Values`children
      ensures Valid()
      ensures match ParentOf(old(tree), UnderId(parentId, KeyOf(frame)))
              case None => ctxt == null && tree == old(tree)
              case Some(p) => (tree, i) == Add(old(tree), p, KeyOf(frame)) && i < |objects| && objects[i] == ctxt
      ensures ctxt != null ==>
                && parentId in old(contextMap) && ctxt.parent == old(contextMap)[parentId]
                && ctxt.frame.bci == frame.bci && ctxt.frame.methodId == frame.methodId
                && ctxt.frame.binaryAddr == frame.binaryAddr
                && ctxt.frame.numaNode == frame.numaNode && ctxt.frame.methodVersion == frame.methodVersion
    {
      if parentId !in contextMap {
        return null, 0;
      }
      ctxt, i := AddContext(contextMap[parentId], frame, tree.byId[parentId]);
    }
  }

  /** The newest node has no children yet. */
  lemma NoChildren(objects: seq<NewContext>, nodes: seq<Entry>, i: nat)
    requires |objects| == |nodes| && IsTrie(nodes) && i + 1 == |nodes|
    ensures ChildrenOf(objects, nodes, i) == {}
  {
  }
}
