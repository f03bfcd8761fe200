/**
 The converter's tables: call paths are interned in one array of contexts, and contexts are
 copied, ancestors first, into the records of a profile.
 */
module ContextExport {
  import opened Wrappers
  import opened WordArithmetic
  import opened Text
  import opened TraceFormat

  // ----- The shared array of contexts -----

  /** One dictionary of the array. `frame` is history: the frame it was made for. */
  datatype Ctx = Ctx(id: nat, pid: nat, mid: int, lineNo: int, children: map<string, nat>, frame: TraceFrame)

  const ROOT := Ctx(0, 0, -1, 0, map[], TraceFrame("", ""))

  function KeyText(f: TraceFrame): string {
    f.mid + ":" + f.line
  }

  /** Both texts read as numbers, and the method id holds no colon, as after a split at colons. */
  ghost predicate Readable(f: TraceFrame) {
    ReadInt(f.mid).Some? && ReadInt(f.line).Some? && Without(f.mid, ':')
  }

  ghost predicate AllReadable(frames: seq<TraceFrame>) {
    forall i {:trigger Readable(frames[i])} :: 0 <= i < |frames| ==> Readable(frames[i])
  }

  lemma ReadableParts(frames: seq<TraceFrame>, i: nat)
    requires AllReadable(frames) && i <= |frames|
    ensures AllReadable(frames[i..]) && AllReadable(frames[..i])
  {
    forall j {:trigger Readable(frames[i..][j])} | 0 <= j < |frames[i..]|
      ensures Readable(frames[i..][j])
    {
      assert Readable(frames[i + j]);
    }
    forall j {:trigger Readable(frames[..i][j])} | 0 <= j < i
      ensures Readable(frames[..i][j])
    {
      assert Readable(frames[j]);
    }
  }

  /** One level of getContextId: the child of `p` for the frame, made if there is none. */
  function Child(arr: seq<Ctx>, p: nat, f: TraceFrame): (seq<Ctx>, nat)
    requires p < |arr| && ReadInt(f.mid).Some? && ReadInt(f.line).Some?
  {
    var key := KeyText(f);
    if key in arr[p].children then (arr, arr[p].children[key])
    else
      var id := |arr|;
      var made := Ctx(id, arr[p].id, ReadInt(f.mid).value, ReadInt(f.line).value, map[], f);
      (arr[p := arr[p].(children := arr[p].children[key := id])] + [made], id)
  }

  ghost predicate ChildrenOk(arr: seq<Ctx>, i: nat)
    requires i < |arr|
  {
    forall key :: key in arr[i].children ==>
      var c := arr[i].children[key];
      i < c < |arr| && arr[c].pid == i && KeyText(arr[c].frame) == key
  }

  ghost predicate ParentOk(arr: seq<Ctx>, c: nat)
    requires c < |arr|
  {
    var x := arr[c];
    && x.pid < c
    && KeyText(x.frame) in arr[x.pid].children && arr[x.pid].children[KeyText(x.frame)] == c
    && Readable(x.frame) && Some(x.mid) == ReadInt(x.frame.mid) && Some(x.lineNo) == ReadInt(x.frame.line)
  }

  /** Ids are positions, and children dictionaries and parent ids say the same thing. */
  ghost predicate TrieOk(arr: seq<Ctx>) {
    && arr != [] && arr[0].pid == 0
    && (forall i :: 0 <= i < |arr| ==> arr[i].id == i)
    && (forall i {:trigger ChildrenOk(arr, i)} :: 0 <= i < |arr| ==> ChildrenOk(arr, i))
    && (forall c {:trigger ParentOk(arr, c)} :: 0 < c < |arr| ==> ParentOk(arr, c))
  }

  /** Contexts stay as they are, but for new children. */
  ghost predicate Grows(arr: seq<Ctx>, arr': seq<Ctx>) {
    && |arr| <= |arr'|
    && forall i :: 0 <= i < |arr| ==>
         && arr'[i] == arr[i].(children := arr'[i].children)
         && forall key :: key in arr[i].children ==>
              key in arr'[i].children && arr'[i].children[key] == arr[i].children[key]
  }

  lemma GrowsTransitively(a: seq<Ctx>, b: seq<Ctx>, c: seq<Ctx>)
    requires Grows(a, b) && Grows(b, c)
    ensures Grows(a, c)
  {
  }

  lemma ChildKeepsTrie(arr: seq<Ctx>, p: nat, f: TraceFrame)
    requires TrieOk(arr) && p < |arr| && Readable(f)
    ensures var (arr', id) := Child(arr, p, f);
            && TrieOk(arr') && Grows(arr, arr')
            && 0 < id < |arr'| && KeyText(f) in arr'[p].children && arr'[p].children[KeyText(f)] == id
  {
    assert ChildrenOk(arr, p);
    var arr' := Child(arr, p, f).0;
    if KeyText(f) !in arr[p].children {
      forall i {:trigger ChildrenOk(arr', i)} | 0 <= i < |arr'|
        ensures ChildrenOk(arr', i)
      {
        MadeChildKeepsChildren(arr, p, f, i);
      }
      forall c {:trigger ParentOk(arr', c)} | 0 < c < |arr'|
        ensures ParentOk(arr', c)
      {
        MadeChildKeepsParents(arr, p, f, c);
      }
    }
  }

  lemma MadeChildKeepsChildren(arr: seq<Ctx>, p: nat, f: TraceFrame, i: nat)
    requires TrieOk(arr) && p < |arr| && Readable(f) && KeyText(f) !in arr[p].children && i <= |arr|
    ensures ChildrenOk(Child(arr, p, f).0, i)
  {
    assert i < |arr| ==> ChildrenOk(arr, i);
  }

  lemma MadeChildKeepsParents(arr: seq<Ctx>, p: nat, f: TraceFrame, c: nat)
    requires TrieOk(arr) && p < |arr| && Readable(f) && KeyText(f) !in arr[p].children && 0 < c <= |arr|
    ensures ParentOk(Child(arr, p, f).0, c)
  {
    assert c < |arr| ==> ParentOk(arr, c);
  }

  /** getContextId. */
  function GetContextId(arr: seq<Ctx>, parent: nat, frames: seq<TraceFrame>): (seq<Ctx>, nat)
    requires TrieOk(arr) && parent < |arr| && frames != [] && AllReadable(frames)
    decreases |frames|
  {
    assert Readable(frames[0]);
    ChildKeepsTrie(arr, parent, frames[0]);
    ReadableParts(frames, 1);
    var (arr', id) := Child(arr, parent, frames[0]);
    if |frames| == 1 then (arr', id) else GetContextId(arr', id, frames[1..])
  }

  /** Where the first `n` frames lead from the root, without making anything. */
  function WalkTo(arr: seq<Ctx>, frames: seq<TraceFrame>, n: nat): Option<nat>
    requires n <= |frames|
  {
    if n == 0 then Some(0)
    else
      match WalkTo(arr, frames, n - 1)
      case None => None
      case Some(p) =>
        if p < |arr| && KeyText(frames[n - 1]) in arr[p].children then Some(arr[p].children[KeyText(frames[n - 1])])
        else None
  }

  lemma {:induction false} WalkInRange(arr: seq<Ctx>, frames: seq<TraceFrame>, n: nat)
    requires TrieOk(arr) && n <= |frames| && WalkTo(arr, frames, n).Some?
    ensures WalkTo(arr, frames, n).value < |arr|
    ensures n > 0 ==> WalkTo(arr, frames, n).value > 0
                      && WalkTo(arr, frames, n - 1) == Some(arr[WalkTo(arr, frames, n).value].pid)
                      && KeyText(arr[WalkTo(arr, frames, n).value].frame) == KeyText(frames[n - 1])
  {
    if n > 0 {
      WalkInRange(arr, frames, n - 1);
      assert ChildrenOk(arr, WalkTo(arr, frames, n - 1).value);
    }
  }

  lemma {:induction false} WalkGrows(arr: seq<Ctx>, arr': seq<Ctx>, frames: seq<TraceFrame>, n: nat)
    requires TrieOk(arr) && Grows(arr, arr') && n <= |frames| && WalkTo(arr, frames, n).Some?
    ensures WalkTo(arr', frames, n) == WalkTo(arr, frames, n)
  {
    if n > 0 {
      WalkInRange(arr, frames, n - 1);
      WalkGrows(arr, arr', frames, n - 1);
    }
  }

  lemma {:induction false} WalkOfPrefix(arr: seq<Ctx>, frames: seq<TraceFrame>, m: nat, n: nat)
    requires n <= m <= |frames|
    ensures WalkTo(arr, frames[..m], n) == WalkTo(arr, frames, n)
  {
    if n > 0 {
      WalkOfPrefix(arr, frames, m, n - 1);
    }
  }

  /** getContextId answers the context that the frames lead to, and only adds to the array. */
  lemma {:induction false} GetContextIdWalks(arr: seq<Ctx>, frames: seq<TraceFrame>, i: nat, parent: nat)
    requires TrieOk(arr) && AllReadable(frames) && i < |frames| && parent < |arr|
    requires WalkTo(arr, frames, i) == Some(parent)
    ensures AllReadable(frames[i..])
    ensures var (arr', id) := GetContextId(arr, parent, frames[i..]);
            id < |arr'| && TrieOk(arr') && Grows(arr, arr') && WalkTo(arr', frames, |frames|) == Some(id)
    decreases |frames| - i
  {
    var rest := frames[i..];
    ReadableParts(frames, i);
    assert rest[0] == frames[i] && Readable(frames[i]);
    var (arr1, id) := Child(arr, parent, frames[i]);
    ChildWalks(arr, frames, i, parent);
    if |rest| > 1 {
      assert rest[1..] == frames[i + 1..];
      GetContextIdWalks(arr1, frames, i + 1, id);
      var arr' := GetContextId(arr1, id, frames[i + 1..]).0;
      GrowsTransitively(arr, arr1, arr');
    }
  }

  lemma ChildWalks(arr: seq<Ctx>, frames: seq<TraceFrame>, i: nat, parent: nat)
    requires TrieOk(arr) && i < |frames| && Readable(frames[i]) && parent < |arr|
    requires WalkTo(arr, frames, i) == Some(parent)
    ensures var (arr', id) := Child(arr, parent, frames[i]);
            TrieOk(arr') && Grows(arr, arr') && id < |arr'| && WalkTo(arr', frames, i + 1) == Some(id)
  {
    ChildKeepsTrie(arr, parent, frames[i]);
    WalkGrows(arr, Child(arr, parent, frames[i]).0, frames, i);
  }

  /** Different texts of frames make different keys. */
  lemma KeyTextInjective(f: TraceFrame, g: TraceFrame)
    requires Without(f.mid, ':') && Without(g.mid, ':') && KeyText(f) == KeyText(g)
    ensures f == g
  {
    var s := KeyText(f);
    assert s[|f.mid|] == ':' && s[|g.mid|] == ':';
    assert forall i :: 0 <= i < |f.mid| ==> s[i] == f.mid[i];
    assert forall i :: 0 <= i < |g.mid| ==> s[i] == g.mid[i];
    assert |f.mid| == |g.mid|;
    assert f.mid == s[..|f.mid|] == g.mid;
    assert f.line == s[|f.mid| + 1..] == g.line;
  }

  /** Interning: two call paths lead to the same context exactly when they are equal. */
  lemma {:induction false} ContextIsItsPath(arr: seq<Ctx>, a: seq<TraceFrame>, b: seq<TraceFrame>, m: nat, n: nat)
    requires TrieOk(arr) && m <= |a| && n <= |b| && AllReadable(a) && AllReadable(b)
    requires WalkTo(arr, a, m).Some? && WalkTo(arr, b, n).Some?
    ensures WalkTo(arr, a, m) == WalkTo(arr, b, n) <==> a[..m] == b[..n]
    decreases m + n
  {
    WalkInRange(arr, a, m);
    WalkInRange(arr, b, n);
    if m > 0 && n > 0 {
      ContextIsItsPath(arr, a, b, m - 1, n - 1);
      PrefixesEqual(a, b, m, n);
      assert Readable(a[m - 1]) && Readable(b[n - 1]);
      if WalkTo(arr, a, m) == WalkTo(arr, b, n) {
        KeyTextInjective(a[m - 1], b[n - 1]);
      }
    }
  }

  lemma PrefixesEqual<T>(a: seq<T>, b: seq<T>, m: nat, n: nat)
    requires 0 < m <= |a| && 0 < n <= |b|
    ensures a[..m] == b[..n] <==> a[..m - 1] == b[..n - 1] && a[m - 1] == b[n - 1]
  {
    assert a[..m] == a[..m - 1] + [a[m - 1]] && b[..n] == b[..n - 1] + [b[n - 1]];
  }

  /** The array as the converter's global, updated in place. */
  class ContextArray {
    var contexts: seq<Ctx>

    constructor ()
      ensures contexts == [ROOT] && TrieOk(contexts)
    {
      contexts := [ROOT];
    }

    /** Answers false where int() raises on a frame of the path. */
    method GetId(parent: nat, frames: seq<TraceFrame>) returns (ok: bool, id: nat)
      requires TrieOk(contexts) && parent < |contexts| && frames != [] && AllSplit(frames)
      modifies this
      ensures TrieOk(contexts) && Grows(old(contexts), contexts)
      ensures ok <==> AllReadable(frames)
      ensures ok ==> (contexts, id) == GetContextId(old(contexts), parent, frames)
      decreases |frames|
    {
      var f := frames[0];
      assert Without(f.mid, ':');
      var key := f.mid + ":" + f.line;
      if key in contexts[parent].children {
        ChildIsReadable(contexts, parent, f);
        id := contexts[parent].children[key];
      } else if ReadInt(f.mid).None? || ReadInt(f.line).None? {
        assert !Readable(frames[0]);
        return false, 0;
      } else {
        ChildKeepsTrie(contexts, parent, f);
        id := |contexts|;
        var made := Ctx(id, contexts[parent].id, ReadInt(f.mid).value, ReadInt(f.line).value, map[], f);
        contexts := contexts + [made];
        contexts := contexts[parent := contexts[parent].(children := contexts[parent].children[key := id])];
        assert contexts == Child(old(contexts), parent, f).0;
      }
      ok := true;
      AllReadableSplits(frames);
      if |frames| > 1 {
        ghost var before := contexts;
        ok, id := GetId(id, frames[1..]);
        GrowsTransitively(old(contexts), before, contexts);
      }
    }
  }

  /** The method ids hold no colon, as after a split at colons. */
  ghost predicate AllSplit(frames: seq<TraceFrame>) {
    forall i :: 0 <= i < |frames| ==> Without(frames[i].mid, ':')
  }

  lemma AllReadableSplits(frames: seq<TraceFrame>)
    requires frames != []
    ensures AllReadable(frames) <==> Readable(frames[0]) && AllReadable(frames[1..])
  {
    if AllReadable(frames) {
      ReadableParts(frames, 1);
    } else if AllReadable(frames[1..]) {
      forall i {:trigger Readable(frames[i])} | 0 < i < |frames|
        ensures Readable(frames[i])
      {
        assert Readable(frames[1..][i - 1]);
      }
    }
  }

  /** A frame that is found as a child was read when the child was made. */
  lemma ChildIsReadable(arr: seq<Ctx>, p: nat, f: TraceFrame)
    requires TrieOk(arr) && p < |arr| && Without(f.mid, ':') && KeyText(f) in arr[p].children
    ensures Readable(f) && Child(arr, p, f) == (arr, arr[p].children[KeyText(f)])
    ensures arr[p].children[KeyText(f)] < |arr|
  {
    assert ChildrenOk(arr, p);
    var c := arr[p].children[KeyText(f)];
    assert ParentOk(arr, c);
    KeyTextInjective(arr[c].frame, f);
  }

  // ----- Records -----

  /** A context record: its id, its parent's id (0 for none) and its children's ids as listed. */
  datatype DContext = DContext(id: nat, parentId: nat, childrenId: seq<nat>)

  datatype SampleRecord = SampleRecord(contextId: nat, metric: int)

  /** `table` finds the position of the record with an id. */
  datatype Export = Export(contexts: seq<DContext>, table: map<nat, nat>, samples: seq<SampleRecord>)

  const EMPTY_EXPORT := Export([], map[], [])

  /** Context.addChild. */
  function ListChild(d: DContext, id: nat): DContext {
    if id in d.childrenId then d else d.(childrenId := d.childrenId + [id])
  }

  /** ContextTable.addContext: the position of the record for the id, made if there is none. */
  function AddRecord(e: Export, id: nat, parent: Option<nat>): (Export, nat)
    requires parent.Some? ==> parent.value < |e.contexts|
  {
    if id in e.table then (e, e.table[id])
    else
      var at := |e.contexts|;
      match parent
      case None => (e.(contexts := e.contexts + [DContext(id, 0, [])], table := e.table[id := at]), at)
      case Some(k) =>
        var p := e.contexts[k];
        (e.(contexts := e.contexts[k := ListChild(p, id)] + [DContext(id, p.id, [])], table := e.table[id := at]), at)
  }

  // ----- What the records keep -----

  /** `a` is met on the way from `c` up to the root, above `c`. */
  predicate Above(arr: seq<Ctx>, a: nat, c: nat)
    decreases c
  {
    0 < c < |arr| && arr[c].pid < c && (arr[c].pid == a || Above(arr, a, arr[c].pid))
  }

  lemma {:induction false} AboveGrows(arr: seq<Ctx>, arr': seq<Ctx>, a: nat, c: nat)
    requires Grows(arr, arr') && Above(arr, a, c)
    ensures Above(arr', a, c)
    decreases c
  {
    if arr[c].pid != a {
      AboveGrows(arr, arr', a, arr[c].pid);
    }
  }

  predicate HasParent(e: Export, c: nat, p: nat) {
    c in e.table && e.table[c] < |e.contexts| && e.contexts[e.table[c]].parentId == p
  }

  predicate AllDifferent(ids: seq<nat>) {
    forall i, j :: 0 <= i < j < |ids| ==> ids[i] != ids[j]
  }

  ghost predicate RecordOk(arr: seq<Ctx>, e: Export, k: nat)
    requires k < |e.contexts|
  {
    var d := e.contexts[k];
    && d.id in e.table && e.table[d.id] == k && Above(arr, d.parentId, d.id)
    && (d.parentId == 0 || (d.parentId in e.table && e.table[d.parentId] < k))
    && AllDifferent(d.childrenId)
    && (forall c :: c in d.childrenId <==> HasParent(e, c, d.id))
  }

  /**
   Each record has a parent id from above it in the trie, comes after its parent, and is
   listed exactly once, under that parent.
   */
  ghost predicate ExportOk(arr: seq<Ctx>, e: Export) {
    && (forall k {:trigger RecordOk(arr, e, k)} :: 0 <= k < |e.contexts| ==> RecordOk(arr, e, k))
    && (forall id :: id in e.table ==> e.table[id] < |e.contexts| && e.contexts[e.table[id]].id == id)
    && (forall i :: 0 <= i < |e.samples| ==> e.samples[i].contextId in e.table)
  }

  predicate IsDirect(arr: seq<Ctx>, d: DContext) {
    d.id < |arr| && d.parentId == arr[d.id].pid
  }

  /** Parent ids are those of the trie: the records are a part of it closed under parents. */
  ghost predicate Direct(arr: seq<Ctx>, e: Export) {
    forall k {:trigger IsDirect(arr, e.contexts[k])} :: 0 <= k < |e.contexts| ==> IsDirect(arr, e.contexts[k])
  }

  lemma ExportGrows(arr: seq<Ctx>, arr': seq<Ctx>, e: Export)
    requires Grows(arr, arr') && ExportOk(arr, e)
    ensures ExportOk(arr', e)
    ensures Direct(arr, e) ==> Direct(arr', e)
  {
    forall k | 0 <= k < |e.contexts|
      ensures RecordOk(arr', e, k)
    {
      assert RecordOk(arr, e, k);
      AboveGrows(arr, arr', e.contexts[k].parentId, e.contexts[k].id);
    }
    if Direct(arr, e) {
      forall k {:trigger IsDirect(arr', e.contexts[k])} | 0 <= k < |e.contexts|
        ensures IsDirect(arr', e.contexts[k])
      {
        assert IsDirect(arr, e.contexts[k]);
      }
    }
  }

  /** `parent` is the position of a record from above `id`, None for the root. */
  ghost predicate ParentAt(arr: seq<Ctx>, e: Export, id: nat, parent: Option<nat>) {
    match parent
    case None => Above(arr, 0, id)
    case Some(k) => k < |e.contexts| && Above(arr, e.contexts[k].id, id)
  }

  lemma AddRecordKeepsExport(arr: seq<Ctx>, e: Export, id: nat, parent: Option<nat>)
    requires ExportOk(arr, e) && ParentAt(arr, e, id, parent)
    ensures var (e', at) := AddRecord(e, id, parent);
            && ExportOk(arr, e') && at < |e'.contexts| && e'.contexts[at].id == id && e'.samples == e.samples
            && e'.table.Keys == e.table.Keys + {id}
  {
    var (e', at) := AddRecord(e, id, parent);
    if id !in e.table {
      AddedParents(e, id, parent);
      forall k | 0 <= k < |e.contexts|
        ensures RecordOk(arr, e', k)
      {
        OldRecord(arr, e, id, parent, k);
      }
      NewRecord(arr, e, id, parent);
    }
  }

  /** Who has which parent after a record was added. */
  lemma AddedParents(e: Export, id: nat, parent: Option<nat>)
    requires id !in e.table && (parent.Some? ==> parent.value < |e.contexts|)
    requires forall c :: c in e.table ==> e.table[c] < |e.contexts|
    ensures var e', p := AddRecord(e, id, parent).0, if parent.Some? then e.contexts[parent.value].id else 0;
            forall c, q :: HasParent(e', c, q) <==> if c == id then q == p else HasParent(e, c, q)
  {
  }

  /** An old record is still right: it lists the new one exactly when it is the parent. */
  lemma OldRecord(arr: seq<Ctx>, e: Export, id: nat, parent: Option<nat>, k: nat)
    requires ExportOk(arr, e) && ParentAt(arr, e, id, parent) && id !in e.table && k < |e.contexts|
    ensures RecordOk(arr, AddRecord(e, id, parent).0, k)
  {
    var e' := AddRecord(e, id, parent).0;
    var d := e.contexts[k];
    AddedParents(e, id, parent);
    assert RecordOk(arr, e, k);
    assert !HasParent(e, id, d.id);
    if parent == Some(k) {
      assert e'.contexts[k].childrenId == d.childrenId + [id];
    } else if parent.Some? {
      assert RecordOk(arr, e, parent.value);
    }
  }

  lemma NewRecord(arr: seq<Ctx>, e: Export, id: nat, parent: Option<nat>)
    requires ExportOk(arr, e) && ParentAt(arr, e, id, parent) && id !in e.table
    ensures RecordOk(arr, AddRecord(e, id, parent).0, |e.contexts|)
  {
    AddedParents(e, id, parent);
    if parent.Some? {
      assert RecordOk(arr, e, parent.value);
    }
    forall c
      ensures !HasParent(e, c, id)
    {
      assert c in e.table ==> RecordOk(arr, e, e.table[c]);
    }
    AboveIsBelow(arr, if parent.Some? then e.contexts[parent.value].id else 0, id);
  }

  lemma {:induction false} AboveIsBelow(arr: seq<Ctx>, a: nat, c: nat)
    requires Above(arr, a, c)
    ensures a < c < |arr|
    decreases c
  {
    if arr[c].pid != a {
      AboveIsBelow(arr, a, arr[c].pid);
    }
  }

  lemma AddRecordKeepsDirect(arr: seq<Ctx>, e: Export, id: nat, parent: Option<nat>)
    requires Direct(arr, e) && id < |arr| && (parent.Some? ==> parent.value < |e.contexts|)
    requires arr[id].pid == if parent.Some? then e.contexts[parent.value].id else 0
    ensures Direct(arr, AddRecord(e, id, parent).0)
  {
    var e' := AddRecord(e, id, parent).0;
    forall k {:trigger IsDirect(arr, e'.contexts[k])} | 0 <= k < |e'.contexts|
      ensures IsDirect(arr, e'.contexts[k])
    {
      assert k < |e.contexts| ==> IsDirect(arr, e.contexts[k]);
    }
  }

  // ----- The profile -----

  /** A context of a line: its id, and the line number of its frame. */
  datatype ContextMsg = ContextMsg(id: nat, lineNo: int)

  /** Message `i` is for a context below the one before it, the first below the root. */
  predicate StepDown(arr: seq<Ctx>, msgs: seq<ContextMsg>, i: nat)
    requires i < |msgs|
  {
    Above(arr, if i == 0 then 0 else msgs[i - 1].id, msgs[i].id)
  }

  ghost predicate PathDown(arr: seq<Ctx>, msgs: seq<ContextMsg>) {
    forall i {:trigger StepDown(arr, msgs, i)} :: 0 <= i < |msgs| ==> StepDown(arr, msgs, i)
  }

  /** The same, for a child each time. */
  predicate StepDirect(arr: seq<Ctx>, msgs: seq<ContextMsg>, i: nat)
    requires i < |msgs|
  {
    msgs[i].id < |arr| && arr[msgs[i].id].pid == if i == 0 then 0 else msgs[i - 1].id
  }

  ghost predicate PathDirect(arr: seq<Ctx>, msgs: seq<ContextMsg>) {
    forall i {:trigger StepDirect(arr, msgs, i)} :: 0 <= i < |msgs| ==> StepDirect(arr, msgs, i)
  }

  /** The ids go up along the path. */
  lemma {:induction false} PathGoesUp(arr: seq<Ctx>, msgs: seq<ContextMsg>, i: nat, j: nat)
    requires PathDown(arr, msgs) && i < j < |msgs|
    ensures msgs[i].id < msgs[j].id
  {
    assert StepDown(arr, msgs, j);
    AboveIsBelow(arr, msgs[j - 1].id, msgs[j].id);
    if i < j - 1 {
      PathGoesUp(arr, msgs, i, j - 1);
    }
  }

  /** The parent that message `i` gives: the context of the message before it, or the root. */
  function ParentOfMsg(msgs: seq<ContextMsg>, i: nat): nat
    requires i < |msgs|
  {
    if i == 0 then 0 else msgs[i - 1].id
  }

  /** Records that were there keep their parents. */
  ghost predicate ParentsKept(e: Export, e': Export) {
    forall c, q :: HasParent(e, c, q) ==> HasParent(e', c, q)
  }

  /** A record that was not there is under the context of the message before. */
  predicate RightParent(e: Export, e': Export, msgs: seq<ContextMsg>, i: nat)
    requires i < |msgs|
  {
    msgs[i].id in e.table || HasParent(e', msgs[i].id, ParentOfMsg(msgs, i))
  }

  predicate IsMsg(msgs: seq<ContextMsg>, n: nat, c: nat)
    requires n <= |msgs|
  {
    n > 0 && (msgs[n - 1].id == c || IsMsg(msgs, n - 1, c))
  }

  /**
   What the first `n` messages add: a record for each context that had none, under the context of
   the message before, and nothing else; records that were there keep their parents.
   */
  ghost predicate PathAdded(e: Export, e': Export, msgs: seq<ContextMsg>, n: nat)
    requires n <= |msgs|
  {
    && ParentsKept(e, e')
    && (forall i {:trigger RightParent(e, e', msgs, i)} :: 0 <= i < n ==> RightParent(e, e', msgs, i))
    && (forall c {:trigger IsMsg(msgs, n, c)} :: c in e'.table <==> c in e.table || IsMsg(msgs, n, c))
  }

  lemma PathAddedNext(arr: seq<Ctx>, e: Export, e': Export, msgs: seq<ContextMsg>, i: nat, current: Option<nat>)
    requires i < |msgs| && PathDown(arr, msgs) && ExportOk(arr, e') && PathAdded(e, e', msgs, i)
    requires CurrentOk(e', msgs, i, current)
    ensures PathAdded(e, AddRecord(e', msgs[i].id, current).0, msgs, i + 1)
  {
    var id := msgs[i].id;
    if id in e'.table {
      forall j | 0 <= j < i
        ensures msgs[j].id != id
      {
        PathGoesUp(arr, msgs, j, i);
      }
      PathAddedOld(e, e', msgs, i);
    } else {
      AddedParents(e', id, current);
      PathAddedNew(e, e', AddRecord(e', id, current).0, msgs, i);
    }
  }

  lemma SampleKeepsPath(e: Export, e': Export, msgs: seq<ContextMsg>, samples: seq<SampleRecord>)
    requires PathAdded(e, e', msgs, |msgs|)
    ensures PathAdded(e, e'.(samples := samples), msgs, |msgs|)
  {
    var e'' := e'.(samples := samples);
    forall c, q | HasParent(e', c, q)
      ensures HasParent(e'', c, q)
    {
    }
    forall i {:trigger RightParent(e, e'', msgs, i)} | 0 <= i < |msgs|
      ensures RightParent(e, e'', msgs, i)
    {
      assert RightParent(e, e', msgs, i);
    }
    forall c
      ensures c in e''.table <==> c in e.table || IsMsg(msgs, |msgs|, c)
    {
      assert c in e'.table <==> c in e.table || IsMsg(msgs, |msgs|, c);
    }
  }

  lemma PathAddedOld(e: Export, e': Export, msgs: seq<ContextMsg>, i: nat)
    requires i < |msgs| && PathAdded(e, e', msgs, i) && msgs[i].id in e'.table
    requires forall j :: 0 <= j < i ==> msgs[j].id != msgs[i].id
    ensures PathAdded(e, e', msgs, i + 1)
  {
    NoMsg(msgs, i, msgs[i].id);
    assert RightParent(e, e', msgs, i);
    forall c
      ensures c in e'.table <==> c in e.table || IsMsg(msgs, i + 1, c)
    {
      assert IsMsg(msgs, i + 1, c) <==> msgs[i].id == c || IsMsg(msgs, i, c);
    }
  }

  lemma {:induction false} NoMsg(msgs: seq<ContextMsg>, n: nat, c: nat)
    requires n <= |msgs| && forall j :: 0 <= j < n ==> msgs[j].id != c
    ensures !IsMsg(msgs, n, c)
  {
    if n > 0 {
      NoMsg(msgs, n - 1, c);
    }
  }

  lemma PathAddedNew(e: Export, e': Export, e'': Export, msgs: seq<ContextMsg>, i: nat)
    requires i < |msgs| && PathAdded(e, e', msgs, i)
    requires ParentsKept(e', e'') && HasParent(e'', msgs[i].id, ParentOfMsg(msgs, i))
    requires e''.table.Keys == e'.table.Keys + {msgs[i].id}
    ensures PathAdded(e, e'', msgs, i + 1)
  {
    forall j {:trigger RightParent(e, e'', msgs, j)} | 0 <= j < i + 1
      ensures RightParent(e, e'', msgs, j)
    {
      if j < i {
        assert RightParent(e, e', msgs, j);
      }
    }
    forall c
      ensures c in e''.table <==> c in e.table || IsMsg(msgs, i + 1, c)
    {
      assert IsMsg(msgs, i + 1, c) <==> msgs[i].id == c || IsMsg(msgs, i, c);
      assert c in e''.table <==> c in e'.table || c == msgs[i].id;
    }
  }

  /** Assigning another value to an int64 field raises a ValueError. */
  predicate FitsInt64(x: int) {
    -TWO_63 <= x < TWO_63
  }

  predicate FitsUint64(x: int) {
    0 <= x < TWO_64
  }

  predicate LinesFit(msgs: seq<ContextMsg>, n: nat)
    requires n <= |msgs|
  {
    n == 0 || (LinesFit(msgs, n - 1) && FitsInt64(msgs[n - 1].lineNo))
  }

  lemma {:induction false} LineUnfit(msgs: seq<ContextMsg>, i: nat, n: nat)
    requires i <= n <= |msgs| && !LinesFit(msgs, i)
    ensures !LinesFit(msgs, n)
  {
    if i < n {
      LineUnfit(msgs, i, n - 1);
    }
  }

  class Profile {
    var contexts: seq<DContext>
    var table: map<nat, nat>
    var samples: seq<SampleRecord>

    ghost function View(): Export
      reads this
    {
      Export(contexts, table, samples)
    }

    constructor ()
      ensures View() == EMPTY_EXPORT
    {
      contexts := [];
      table := map[];
      samples := [];
    }

    method AddContext(id: nat, parent: Option<nat>) returns (at: nat)
      requires parent.Some? ==> parent.value < |contexts|
      modifies this
      ensures (View(), at) == AddRecord(old(View()), id, parent)
    {
      if id in table {
        return table[id];
      }
      at := |contexts|;
      if parent.None? {
        contexts := contexts + [DContext(id, 0, [])];
      } else {
        var k := parent.value;
        contexts := contexts + [DContext(id, contexts[k].id, [])];
        contexts := contexts[k := ListChild(contexts[k], id)];
        assert contexts == AddRecord(old(View()), id, parent).0.contexts;
      }
      table := table[id := at];
    }

    /**
     Profile.addSample, given the contexts of a line from the root down. Answers false where
     the assignment to a field of the record raises: a line number that is not an int64, or,
     when there is a context, a metric that is not a uint64.
     */
    method AddSample(msgs: seq<ContextMsg>, metric: int, ghost arr: seq<Ctx>) returns (ok: bool)
      requires ExportOk(arr, View()) && PathDown(arr, msgs)
      modifies this
      ensures ok <==> LinesFit(msgs, |msgs|) && (msgs != [] ==> FitsUint64(metric))
      ensures ok ==> ExportOk(arr, View())
      ensures ok && Direct(arr, old(View())) && PathDirect(arr, msgs) ==> Direct(arr, View())
      ensures ok ==> PathAdded(old(View()), View(), msgs, |msgs|)
      ensures ok ==>
                samples == if msgs == [] then old(samples)
                           else old(samples) + [SampleRecord(msgs[|msgs| - 1].id, metric)]
      ensures msgs == [] ==> View() == old(View())
    {
      var current: Option<nat>;
      ok, current := AddPath(msgs, arr);
      if !ok {
        return;
      }
      if current.Some? {
        if !FitsUint64(metric) {
          return false;
        }
        SampleKeepsExport(arr, View(), SampleRecord(contexts[current.value].id, metric));
        SampleKeepsPath(old(View()), View(), msgs, samples + [SampleRecord(contexts[current.value].id, metric)]);
        samples := samples + [SampleRecord(contexts[current.value].id, metric)];
      }
    }

    /** The records of the contexts of a line; `current` is the position of the last one. */
    method AddPath(msgs: seq<ContextMsg>, ghost arr: seq<Ctx>) returns (ok: bool, current: Option<nat>)
      requires ExportOk(arr, View()) && PathDown(arr, msgs)
      modifies this
      ensures ok <==> LinesFit(msgs, |msgs|)
      ensures ok ==> ExportOk(arr, View()) && samples == old(samples) && CurrentOk(View(), msgs, |msgs|, current)
      ensures ok && Direct(arr, old(View())) && PathDirect(arr, msgs) ==> Direct(arr, View())
      ensures ok ==> PathAdded(old(View()), View(), msgs, |msgs|)
      ensures msgs == [] ==> View() == old(View())
    {
      ok, current := true, None;
      for i := 0 to |msgs|
        invariant ok && ExportOk(arr, View()) && samples == old(samples)
        invariant LinesFit(msgs, i) && CurrentOk(View(), msgs, i, current)
        invariant PathAdded(old(View()), View(), msgs, i)
        invariant Direct(arr, old(View())) && PathDirect(arr, msgs) ==> Direct(arr, View())
        invariant i == 0 ==> View() == old(View())
      {
        if !FitsInt64(msgs[i].lineNo) {
          LineUnfit(msgs, i + 1, |msgs|);
          return false, None;
        }
        assert StepDown(arr, msgs, i);
        AddRecordKeepsExport(arr, View(), msgs[i].id, current);
        if Direct(arr, View()) && PathDirect(arr, msgs) {
          assert StepDirect(arr, msgs, i);
          AddRecordKeepsDirect(arr, View(), msgs[i].id, current);
        }
        PathAddedNext(arr, old(View()), View(), msgs, i, current);
        var at := AddContext(msgs[i].id, current);
        current := Some(at);
      }
    }
  }

  /** `current` is the position of the record of message `i - 1`. */
  predicate CurrentOk(e: Export, msgs: seq<ContextMsg>, i: nat, current: Option<nat>)
    requires i <= |msgs|
  {
    if i == 0 then current.None?
    else
      && current.Some? && current.value < |e.contexts| && e.contexts[current.value].id == msgs[i - 1].id
      && msgs[i - 1].id in e.table
  }

  lemma SampleKeepsExport(arr: seq<Ctx>, e: Export, r: SampleRecord)
    requires ExportOk(arr, e) && r.contextId in e.table
    ensures var e' := e.(samples := e.samples + [r]); ExportOk(arr, e') && (Direct(arr, e) ==> Direct(arr, e'))
  {
    var e' := e.(samples := e.samples + [r]);
    forall k | 0 <= k < |e'.contexts|
      ensures RecordOk(arr, e', k)
    {
      assert RecordOk(arr, e, k);
      assert forall c, p :: HasParent(e', c, p) <==> HasParent(e, c, p);
    }
    if Direct(arr, e) {
      forall k {:trigger IsDirect(arr, e'.contexts[k])} | 0 <= k < |e'.contexts|
        ensures IsDirect(arr, e'.contexts[k])
      {
        assert IsDirect(arr, e.contexts[k]);
      }
    }
  }
}
