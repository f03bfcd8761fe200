/**
 The converter's loops over trace files: each line is parsed, its call path is interned, and
 contexts with known methods go into a profile. The three loops differ in what they do with
 a method that is not in the method map.
 */
module LineExport {
  import opened Wrappers
  import opened WordArithmetic
  import opened Text
  import opened TraceFormat
  import opened ContextExport

  /** The alloc loop drops a line with an unknown method; the trace and cachemiss loops skip its frame. */
  datatype Loop = AllocLoop | TraceLoop

  /** A parsed line, with the method ids known for its thread. */
  datatype Line = Line(frames: seq<TraceFrame>, metric: int, known: set<int>)

  ghost predicate LineOk(l: Line) {
    l.frames != [] && AllSplit(l.frames)
  }

  predicate Known(l: Line, f: TraceFrame) {
    ReadInt(f.mid).Some? && ReadInt(f.mid).value in l.known
  }

  predicate KnownTo(l: Line, n: nat)
    requires n <= |l.frames|
  {
    forall i {:trigger Known(l, l.frames[i])} :: 0 <= i < n ==> Known(l, l.frames[i])
  }

  /** How many frames there are up to the last known one among the first `n`. */
  function LastKnown(l: Line, n: nat): (k: nat)
    requires n <= |l.frames|
    ensures k <= n
  {
    if n == 0 then 0 else if Known(l, l.frames[n - 1]) then n else LastKnown(l, n - 1)
  }

  /** How many frames lead to the context that the line's sample is for; 0 if there is no sample. */
  function Depth(loop: Loop, l: Line): (k: nat)
    ensures k <= |l.frames|
  {
    if loop.TraceLoop? then LastKnown(l, |l.frames|) else if KnownTo(l, |l.frames|) then |l.frames| else 0
  }

  // ----- Where a line raises -----

  /** The loop comes to a frame that int() cannot read. */
  ghost predicate Unreadable(loop: Loop, l: Line) {
    exists i {:trigger Readable(l.frames[i])} :: 0 <= i < |l.frames| && !Readable(l.frames[i]) && Reaches(loop, l, i)
  }

  /** The alloc loop stops at the first unknown frame; the others go on. */
  predicate Reaches(loop: Loop, l: Line, i: nat)
    requires i <= |l.frames|
  {
    loop.AllocLoop? ==> KnownTo(l, i)
  }

  /** The number of the line, where it is one, fits its fields of the profile. */
  predicate LineFits(f: TraceFrame) {
    ReadInt(f.line).Some? ==> FitsInt64(ReadInt(f.line).value)
  }

  /** A known frame among the first `n` does not fit. */
  predicate LineOut(l: Line, n: nat)
    requires n <= |l.frames|
  {
    n > 0 && (LineOut(l, n - 1) || (Known(l, l.frames[n - 1]) && !LineFits(l.frames[n - 1])))
  }

  /** A ValueError: in int(), or, for a line with a sample, in the assignment to a field. */
  ghost predicate Raises(loop: Loop, l: Line) {
    Unreadable(loop, l) || (Depth(loop, l) > 0 && (!FitsUint64(l.metric) || LineOut(l, |l.frames|)))
  }

  // ----- What a line exports -----

  /** There is a sample, and the path to its context is in the array. */
  predicate Sampled(loop: Loop, arr: seq<Ctx>, l: Line) {
    Depth(loop, l) > 0 && WalkTo(arr, l.frames, Depth(loop, l)).Some?
  }

  /** The sample of a line, at the context of its last known frame. */
  function TheSample(loop: Loop, arr: seq<Ctx>, l: Line): SampleRecord
    requires Sampled(loop, arr, l)
  {
    SampleRecord(WalkTo(arr, l.frames, Depth(loop, l)).value, l.metric)
  }

  /** The samples with that of one more line. */
  function WithSample(loop: Loop, arr: seq<Ctx>, samples: seq<SampleRecord>, l: Line): seq<SampleRecord> {
    if Sampled(loop, arr, l) then samples + [TheSample(loop, arr, l)] else samples
  }

  function SamplesOf(loop: Loop, arr: seq<Ctx>, lines: seq<Line>, n: nat): seq<SampleRecord>
    requires n <= |lines|
  {
    if n == 0 then [] else WithSample(loop, arr, SamplesOf(loop, arr, lines, n - 1), lines[n - 1])
  }

  /** The path to the sample's context is in the array, and its frames are numbers. */
  ghost predicate PathPresent(loop: Loop, arr: seq<Ctx>, l: Line) {
    WalkTo(arr, l.frames, Depth(loop, l)).Some? && ReadableTo(l.frames, Depth(loop, l))
  }

  ghost predicate ReadableTo(frames: seq<TraceFrame>, n: nat)
    requires n <= |frames|
  {
    forall i {:trigger Readable(frames[i])} :: 0 <= i < n ==> Readable(frames[i])
  }

  lemma {:induction false} ReadableAt(frames: seq<TraceFrame>, n: nat)
    requires n <= |frames|
    ensures ReadableTo(frames, n) <==> AllReadable(frames[..n])
  {
    if n > 0 {
      ReadableAt(frames, n - 1);
      LastDecides(frames, n - 1);
    }
  }

  ghost predicate PathsPresent(loop: Loop, arr: seq<Ctx>, lines: seq<Line>, n: nat)
    requires n <= |lines|
  {
    n == 0 || (PathsPresent(loop, arr, lines, n - 1) && PathPresent(loop, arr, lines[n - 1]))
  }

  lemma {:induction false} SamplesGrow(loop: Loop, arr: seq<Ctx>, arr': seq<Ctx>, lines: seq<Line>, n: nat)
    requires TrieOk(arr) && Grows(arr, arr') && n <= |lines| && PathsPresent(loop, arr, lines, n)
    ensures PathsPresent(loop, arr', lines, n) && SamplesOf(loop, arr', lines, n) == SamplesOf(loop, arr, lines, n)
  {
    if n > 0 {
      SamplesGrow(loop, arr, arr', lines, n - 1);
      WalkGrows(arr, arr', lines[n - 1].frames, Depth(loop, lines[n - 1]));
    }
  }

  // ----- The contexts on the way -----

  /** The ids met on the path of the first |ids| frames. */
  ghost predicate IdsOfPath(arr: seq<Ctx>, frames: seq<TraceFrame>, ids: seq<nat>) {
    |ids| <= |frames| && forall i :: 0 <= i < |ids| ==> WalkTo(arr, frames, i + 1) == Some(ids[i])
  }

  /** The id before `ids[i]` on the path, the root's for the first. */
  function Before(ids: seq<nat>, i: nat): nat
    requires i <= |ids|
  {
    if i == 0 then 0 else ids[i - 1]
  }

  lemma PathParent(arr: seq<Ctx>, frames: seq<TraceFrame>, ids: seq<nat>, i: nat)
    requires TrieOk(arr) && IdsOfPath(arr, frames, ids) && i < |ids|
    ensures 0 < ids[i] < |arr| && arr[ids[i]].pid == Before(ids, i) && Before(ids, i) < ids[i]
  {
    assert WalkTo(arr, frames, i + 1) == Some(ids[i]);
    WalkInRange(arr, frames, i + 1);
    assert i > 0 ==> WalkTo(arr, frames, i) == Some(ids[i - 1]);
    assert ParentOk(arr, ids[i]);
  }

  /** On a path, what comes earlier is above what comes later. */
  lemma {:induction false} PathAbove(arr: seq<Ctx>, frames: seq<TraceFrame>, ids: seq<nat>, i: nat, j: nat)
    requires TrieOk(arr) && IdsOfPath(arr, frames, ids) && i <= j < |ids|
    ensures Above(arr, Before(ids, i), ids[j])
    decreases j
  {
    PathParent(arr, frames, ids, j);
    if i < j {
      PathAbove(arr, frames, ids, i, j - 1);
    }
  }

  lemma IdsGrow(arr: seq<Ctx>, arr': seq<Ctx>, frames: seq<TraceFrame>, ids: seq<nat>)
    requires TrieOk(arr) && Grows(arr, arr') && IdsOfPath(arr, frames, ids)
    ensures IdsOfPath(arr', frames, ids)
  {
    forall j | 0 <= j < |ids|
      ensures WalkTo(arr', frames, j + 1) == Some(ids[j])
    {
      assert WalkTo(arr, frames, j + 1) == Some(ids[j]);
      WalkGrows(arr, arr', frames, j + 1);
    }
  }

  /** The message for frame `i`. */
  function MsgFor(f: TraceFrame, id: nat): ContextMsg {
    ContextMsg(id, if ReadInt(f.line).Some? then ReadInt(f.line).value else 0)
  }

  /** The messages `before`, and those for the known ones of the first `n` frames. */
  function MsgsFrom(before: seq<ContextMsg>, l: Line, ids: seq<nat>, n: nat): seq<ContextMsg>
    requires n <= |l.frames| && n <= |ids|
  {
    if n == 0 then before
    else if Known(l, l.frames[n - 1]) then MsgsFrom(before, l, ids, n - 1) + [MsgFor(l.frames[n - 1], ids[n - 1])]
    else MsgsFrom(before, l, ids, n - 1)
  }

  function MsgsFor(l: Line, ids: seq<nat>, n: nat): seq<ContextMsg>
    requires n <= |l.frames| && n <= |ids|
  {
    MsgsFrom([], l, ids, n)
  }

  lemma {:induction false} MsgsSame(before: seq<ContextMsg>, l: Line, ids: seq<nat>, id: nat, n: nat)
    requires n <= |l.frames| && n <= |ids|
    ensures MsgsFrom(before, l, ids + [id], n) == MsgsFrom(before, l, ids, n)
  {
    if n > 0 {
      MsgsSame(before, l, ids, id, n - 1);
    }
  }

  /** The messages go down the path, and the last is for the last known frame. */
  ghost predicate MsgsDown(arr: seq<Ctx>, l: Line, ids: seq<nat>, n: nat)
    requires n <= |l.frames| && n <= |ids|
  {
    var msgs, k := MsgsFor(l, ids, n), LastKnown(l, n);
    && PathDown(arr, msgs) && (msgs == [] <==> k == 0)
    && (k > 0 ==> msgs[|msgs| - 1].id == ids[k - 1])
    && (LinesFit(msgs, |msgs|) <==> !LineOut(l, n))
  }

  lemma {:induction false} MsgsGoDown(arr: seq<Ctx>, l: Line, ids: seq<nat>, n: nat)
    requires TrieOk(arr) && IdsOfPath(arr, l.frames, ids) && n <= |ids|
    ensures MsgsDown(arr, l, ids, n)
  {
    if n > 0 {
      MsgsGoDown(arr, l, ids, n - 1);
      PathAbove(arr, l.frames, ids, LastKnown(l, n - 1), n - 1);
      MsgsDownNext(arr, l, ids, n);
    }
  }

  lemma MsgsDownNext(arr: seq<Ctx>, l: Line, ids: seq<nat>, n: nat)
    requires 0 < n <= |l.frames| && n <= |ids| && MsgsDown(arr, l, ids, n - 1)
    requires Above(arr, Before(ids, LastKnown(l, n - 1)), ids[n - 1])
    ensures MsgsDown(arr, l, ids, n)
  {
    var before := MsgsFor(l, ids, n - 1);
    if Known(l, l.frames[n - 1]) {
      PathDownSnoc(arr, before, MsgFor(l.frames[n - 1], ids[n - 1]));
    }
  }

  lemma PathDownSnoc(arr: seq<Ctx>, msgs: seq<ContextMsg>, m: ContextMsg)
    requires PathDown(arr, msgs) && Above(arr, if msgs == [] then 0 else msgs[|msgs| - 1].id, m.id)
    ensures PathDown(arr, msgs + [m])
    ensures LinesFit(msgs + [m], |msgs| + 1) <==> LinesFit(msgs, |msgs|) && FitsInt64(m.lineNo)
  {
    var all := msgs + [m];
    forall i {:trigger StepDown(arr, all, i)} | 0 <= i < |all|
      ensures StepDown(arr, all, i)
    {
      assert i < |msgs| ==> StepDown(arr, msgs, i);
    }
    LinesFitSame(msgs, m, |msgs|);
  }

  lemma {:induction false} LinesFitSame(msgs: seq<ContextMsg>, m: ContextMsg, n: nat)
    requires n <= |msgs|
    ensures LinesFit(msgs + [m], n) <==> LinesFit(msgs, n)
  {
    if n > 0 {
      LinesFitSame(msgs, m, n - 1);
    }
  }

  /** With every method known, each message is for a child of the one before. */
  lemma {:induction false} MsgsAreDirect(arr: seq<Ctx>, l: Line, ids: seq<nat>, n: nat)
    requires TrieOk(arr) && IdsOfPath(arr, l.frames, ids) && n <= |ids| && KnownTo(l, n)
    ensures PathDirect(arr, MsgsFor(l, ids, n)) && |MsgsFor(l, ids, n)| == n
    ensures n > 0 ==> MsgsFor(l, ids, n)[n - 1].id == ids[n - 1]
  {
    if n > 0 {
      MsgsAreDirect(arr, l, ids, n - 1);
      PathParent(arr, l.frames, ids, n - 1);
      PathDirectSnoc(arr, MsgsFor(l, ids, n - 1), MsgFor(l.frames[n - 1], ids[n - 1]));
    }
  }

  lemma PathDirectSnoc(arr: seq<Ctx>, msgs: seq<ContextMsg>, m: ContextMsg)
    requires PathDirect(arr, msgs) && m.id < |arr|
    requires arr[m.id].pid == if msgs == [] then 0 else msgs[|msgs| - 1].id
    ensures PathDirect(arr, msgs + [m])
  {
    var all := msgs + [m];
    forall i {:trigger StepDirect(arr, all, i)} | 0 <= i < |all|
      ensures StepDirect(arr, all, i)
    {
      assert i < |msgs| ==> StepDirect(arr, msgs, i);
    }
  }

  lemma {:induction false} AllKnownIsLast(l: Line, n: nat)
    requires n <= |l.frames| && KnownTo(l, n)
    ensures LastKnown(l, n) == n
  {
  }

  // ----- Which contexts are exported -----

  lemma {:induction false} LastKnownExactly(l: Line, n: nat)
    requires n <= |l.frames|
    ensures var k := LastKnown(l, n);
            (k > 0 ==> Known(l, l.frames[k - 1])) && forall j :: k <= j < n ==> !Known(l, l.frames[j])
  {
    if n > 0 && !Known(l, l.frames[n - 1]) {
      LastKnownExactly(l, n - 1);
    }
  }

  /** The known frame `i` has a message, which stands behind that of the last known frame before it. */
  lemma {:induction false} MsgOfFrame(arr: seq<Ctx>, l: Line, ids: seq<nat>, i: nat, n: nat)
    requires TrieOk(arr) && IdsOfPath(arr, l.frames, ids) && i < n <= |ids| && Known(l, l.frames[i])
    ensures var msgs, j := MsgsFor(l, ids, n), |MsgsFor(l, ids, i)|;
            j < |msgs| && msgs[j].id == ids[i] && ParentOfMsg(msgs, j) == Before(ids, LastKnown(l, i))
  {
    if i < n - 1 {
      MsgOfFrame(arr, l, ids, i, n - 1);
    } else {
      MsgsGoDown(arr, l, ids, i);
      assert MsgsDown(arr, l, ids, i);
    }
  }

  /** Every message is that of a known frame. */
  lemma {:induction false} FrameOfMsg(l: Line, ids: seq<nat>, n: nat, c: nat) returns (i: nat)
    requires n <= |l.frames| && n <= |ids| && IsMsg(MsgsFor(l, ids, n), |MsgsFor(l, ids, n)|, c)
    ensures i < n && Known(l, l.frames[i]) && ids[i] == c
  {
    if Known(l, l.frames[n - 1]) && ids[n - 1] == c {
      i := n - 1;
    } else {
      if Known(l, l.frames[n - 1]) {
        IsMsgBefore(MsgsFor(l, ids, n - 1), MsgFor(l.frames[n - 1], ids[n - 1]), |MsgsFor(l, ids, n - 1)|, c);
      }
      i := FrameOfMsg(l, ids, n - 1, c);
    }
  }

  lemma {:induction false} IsMsgBefore(msgs: seq<ContextMsg>, m: ContextMsg, n: nat, c: nat)
    requires n <= |msgs|
    ensures IsMsg(msgs + [m], n, c) <==> IsMsg(msgs, n, c)
  {
    if n > 0 {
      IsMsgBefore(msgs, m, n - 1, c);
    }
  }

  /** The context of frame `i` has a record, a new one under the context of the last known frame before it. */
  ghost predicate FrameExported(arr: seq<Ctx>, e: Export, e': Export, l: Line, i: nat)
    requires i < |l.frames|
  {
    var c, p := WalkTo(arr, l.frames, i + 1), WalkTo(arr, l.frames, LastKnown(l, i));
    c.Some? && p.Some? && c.value in e'.table && (c.value in e.table || HasParent(e', c.value, p.value))
  }

  /** A record that a line adds is for the context of a known frame. */
  ghost predicate FromLine(arr: seq<Ctx>, l: Line, c: nat) {
    exists i :: 0 <= i < |l.frames| && Known(l, l.frames[i]) && WalkTo(arr, l.frames, i + 1) == Some(c)
  }

  /** What a line with a sample does to the records: those of its known frames are there, and the others stay. */
  ghost predicate LineExported(arr: seq<Ctx>, e: Export, e': Export, l: Line) {
    && ParentsKept(e, e')
    && (forall i {:trigger FrameExported(arr, e, e', l, i)} ::
          0 <= i < |l.frames| && Known(l, l.frames[i]) ==> FrameExported(arr, e, e', l, i))
    && (forall c {:trigger FromLine(arr, l, c)} :: c in e'.table ==> c in e.table || FromLine(arr, l, c))
  }

  lemma MsgsExport(arr: seq<Ctx>, e: Export, e': Export, l: Line, ids: seq<nat>)
    requires ReadTo(arr, l.frames, ids, |l.frames|)
    requires var msgs := MsgsFor(l, ids, |l.frames|); PathAdded(e, e', msgs, |msgs|)
    ensures LineExported(arr, e, e', l)
  {
    var n := |l.frames|;
    var msgs := MsgsFor(l, ids, n);
    forall i {:trigger FrameExported(arr, e, e', l, i)} | 0 <= i < n && Known(l, l.frames[i])
      ensures FrameExported(arr, e, e', l, i)
    {
      MsgOfFrame(arr, l, ids, i, n);
      FrameIsExported(arr, e, e', l, ids, i, msgs, |MsgsFor(l, ids, i)|);
    }
    forall c {:trigger FromLine(arr, l, c)} | c in e'.table && c !in e.table
      ensures FromLine(arr, l, c)
    {
      assert IsMsg(msgs, |msgs|, c);
      var i := FrameOfMsg(l, ids, n, c);
      assert WalkTo(arr, l.frames, i + 1) == Some(c);
    }
  }

  lemma FrameIsExported(arr: seq<Ctx>, e: Export, e': Export, l: Line, ids: seq<nat>, i: nat,
                        msgs: seq<ContextMsg>, j: nat)
    requires ReadTo(arr, l.frames, ids, |l.frames|) && i < |l.frames| && j < |msgs|
    requires msgs[j].id == ids[i] && ParentOfMsg(msgs, j) == Before(ids, LastKnown(l, i))
    requires PathAdded(e, e', msgs, |msgs|)
    ensures FrameExported(arr, e, e', l, i)
  {
    var k := LastKnown(l, i);
    assert WalkTo(arr, l.frames, i + 1) == Some(ids[i]);
    assert k > 0 ==> WalkTo(arr, l.frames, k) == Some(ids[k - 1]);
    assert RightParent(e, e', msgs, j);
    MsgIs(msgs, j, |msgs|);
    assert IsMsg(msgs, |msgs|, ids[i]);
  }

  lemma {:induction false} MsgIs(msgs: seq<ContextMsg>, j: nat, n: nat)
    requires j < n <= |msgs|
    ensures IsMsg(msgs, n, msgs[j].id)
  {
    if j < n - 1 {
      MsgIs(msgs, j, n - 1);
    }
  }

  // ----- The bodies of the loops -----

  /** The context a frame leads to carries the frame's numbers. */
  lemma WalkedNumbers(arr: seq<Ctx>, frames: seq<TraceFrame>, i: nat)
    requires TrieOk(arr) && i < |frames| && Readable(frames[i]) && WalkTo(arr, frames, i + 1).Some?
    ensures var c := WalkTo(arr, frames, i + 1).value;
            && 0 < c < |arr| && Some(arr[c].mid) == ReadInt(frames[i].mid)
            && ContextMsg(c, arr[c].lineNo) == MsgFor(frames[i], c)
  {
    WalkInRange(arr, frames, i + 1);
    var c := WalkTo(arr, frames, i + 1).value;
    assert ParentOk(arr, c);
    KeyTextInjective(arr[c].frame, frames[i]);
  }

  /** The first `i` frames are read, and `ids` are their contexts. */
  ghost predicate ReadTo(arr: seq<Ctx>, frames: seq<TraceFrame>, ids: seq<nat>, i: nat) {
    && TrieOk(arr) && i == |ids| <= |frames| && IdsOfPath(arr, frames, ids) && ReadableTo(frames, i)
  }

  /** The context of the first `i + 1` frames; those of shorter prefixes stay where they are. */
  method InternPrefix(trie: ContextArray, frames: seq<TraceFrame>, i: nat, ghost ids: seq<nat>, ghost first: seq<Ctx>)
    returns (ok: bool, id: nat)
    requires AllSplit(frames) && i < |frames| && ReadTo(trie.contexts, frames, ids, i) && Grows(first, trie.contexts)
    modifies trie
    ensures TrieOk(trie.contexts) && Grows(first, trie.contexts)
    ensures ok <==> Readable(frames[i])
    ensures ok ==> ReadTo(trie.contexts, frames, ids + [id], i + 1)
    ensures ok ==> id < |trie.contexts| && Some(trie.contexts[id].mid) == ReadInt(frames[i].mid)
    ensures ok ==> ContextMsg(id, trie.contexts[id].lineNo) == MsgFor(frames[i], id)
  {
    ghost var before := trie.contexts;
    var prefix := frames[..i + 1];
    LastDecides(frames, i);
    ReadableAt(frames, i);
    ok, id := trie.GetId(0, prefix);
    GrowsTransitively(first, before, trie.contexts);
    if ok {
      PrefixWalks(before, frames, i);
      WalkedNumbers(trie.contexts, frames, i);
      ReadNext(before, trie.contexts, frames, ids, i, id);
    }
  }

  lemma ReadNext(arr: seq<Ctx>, arr': seq<Ctx>, frames: seq<TraceFrame>, ids: seq<nat>, i: nat, id: nat)
    requires ReadTo(arr, frames, ids, i) && Grows(arr, arr') && TrieOk(arr') && i < |frames| && Readable(frames[i])
    requires WalkTo(arr', frames, i + 1) == Some(id)
    ensures ReadTo(arr', frames, ids + [id], i + 1)
  {
    IdsGrow(arr, arr', frames, ids);
  }

  /** What holds before frame `i` in either loop: the frames before it are read, with these messages after `before`. */
  ghost predicate Midway(loop: Loop, first: seq<Ctx>, arr: seq<Ctx>, l: Line, ids: seq<nat>,
                         before: seq<ContextMsg>, msgs: seq<ContextMsg>, i: nat) {
    Grows(first, arr) && ReadTo(arr, l.frames, ids, i) && Gathered(before, l, ids, msgs, i) && Reaches(loop, l, i)
  }

  /** The messages are those of the first `i` frames; put so that only a mention of `MsgsFrom` unfolds it. */
  ghost predicate Gathered(before: seq<ContextMsg>, l: Line, ids: seq<nat>, msgs: seq<ContextMsg>, i: nat)
    requires i <= |l.frames| && i <= |ids|
  {
    forall n {:trigger MsgsFrom(before, l, ids, n)} :: n == i ==> msgs == MsgsFrom(before, l, ids, n)
  }

  /** Frame `i` in either loop: its context, and its message when its method is known. */
  method InternNext(loop: Loop, trie: ContextArray, l: Line, i: nat, msgs: seq<ContextMsg>,
                    ghost ids: seq<nat>, ghost first: seq<Ctx>, ghost before: seq<ContextMsg>)
    returns (ok: bool, known: bool, msgs': seq<ContextMsg>, ghost ids': seq<nat>)
    requires LineOk(l) && i < |l.frames| && Midway(loop, first, trie.contexts, l, ids, before, msgs, i)
    modifies trie
    ensures TrieOk(trie.contexts) && Grows(first, trie.contexts)
    ensures ok <==> Readable(l.frames[i])
    ensures !ok ==> Unreadable(loop, l)
    ensures ok ==> (known <==> Known(l, l.frames[i]))
    ensures ok && (loop.TraceLoop? || known) ==> Midway(loop, first, trie.contexts, l, ids', before, msgs', i + 1)
    ensures ok && loop.AllocLoop? && !known ==> !Unreadable(loop, l) && !KnownTo(l, |l.frames|)
  {
    var id;
    ok, id := InternPrefix(trie, l.frames, i, ids, first);
    known, msgs', ids' := false, msgs, ids;
    if ok {
      known := trie.contexts[id].mid in l.known;
      ids' := ids + [id];
      MsgsSame(before, l, ids, id, i);
      assert Gathered(before, l, ids, msgs, i);
      if known {
        msgs' := msgs + [ContextMsg(id, trie.contexts[id].lineNo)];
      }
    }
  }

  lemma LastDecides(frames: seq<TraceFrame>, i: nat)
    requires i < |frames|
    ensures AllReadable(frames[..i + 1]) <==> AllReadable(frames[..i]) && Readable(frames[i])
  {
    var prefix := frames[..i + 1];
    assert prefix[i] == frames[i] && prefix[..i] == frames[..i];
    if AllReadable(prefix) {
      ReadableParts(prefix, i);
      assert Readable(prefix[i]);
    } else if AllReadable(frames[..i]) && Readable(frames[i]) {
      forall j {:trigger Readable(prefix[j])} | 0 <= j <= i
        ensures Readable(prefix[j])
      {
        assert j < i ==> Readable(frames[..i][j]);
      }
    }
  }

  lemma PrefixWalks(arr: seq<Ctx>, frames: seq<TraceFrame>, i: nat)
    requires TrieOk(arr) && i < |frames| && AllReadable(frames[..i + 1])
    ensures var (arr', id) := GetContextId(arr, 0, frames[..i + 1]);
            WalkTo(arr', frames, i + 1) == Some(id) && id < |arr'|
  {
    var prefix := frames[..i + 1];
    assert prefix[0..] == prefix;
    GetContextIdWalks(arr, prefix, 0, 0);
    WalkOfPrefix(GetContextId(arr, 0, prefix).0, frames, i + 1, i + 1);
  }

  /** The alloc loop on one line: no messages when a method is unknown. */
  method AllocMsgs(trie: ContextArray, l: Line) returns (ok: bool, msgs: seq<ContextMsg>, ghost ids: seq<nat>)
    requires TrieOk(trie.contexts) && LineOk(l)
    modifies trie
    ensures TrieOk(trie.contexts) && Grows(old(trie.contexts), trie.contexts)
    ensures ok <==> !Unreadable(AllocLoop, l)
    ensures ok ==> MsgsOk(AllocLoop, trie.contexts, l, ids, msgs)
  {
    var known;
    ok, known, msgs, ids := KnownFrames(trie, l, []);
    if ok && known {
      AllRead(AllocLoop, old(trie.contexts), trie.contexts, l, ids, msgs);
    } else {
      msgs := [];
    }
  }

  /** The frames one after the other, up to the first unknown method. */
  method KnownFrames(trie: ContextArray, l: Line, before: seq<ContextMsg>)
    returns (ok: bool, known: bool, msgs: seq<ContextMsg>, ghost ids: seq<nat>)
    requires TrieOk(trie.contexts) && LineOk(l)
    modifies trie
    ensures TrieOk(trie.contexts) && Grows(old(trie.contexts), trie.contexts)
    ensures !ok ==> Unreadable(AllocLoop, l)
    ensures ok && known ==> Midway(AllocLoop, old(trie.contexts), trie.contexts, l, ids, before, msgs, |l.frames|)
    ensures ok && !known ==> !Unreadable(AllocLoop, l) && !KnownTo(l, |l.frames|)
  {
    ok, known, msgs, ids := true, true, before, [];
    NothingRead(trie.contexts, l.frames);
    for i := 0 to |l.frames|
      invariant ok && known && Midway(AllocLoop, old(trie.contexts), trie.contexts, l, ids, before, msgs, i)
    {
      ok, known, msgs, ids := InternNext(AllocLoop, trie, l, i, msgs, ids, old(trie.contexts), before);
      if !ok || !known {
        return;
      }
    }
  }

  lemma AllRead(loop: Loop, first: seq<Ctx>, arr: seq<Ctx>, l: Line, ids: seq<nat>, msgs: seq<ContextMsg>)
    requires Midway(loop, first, arr, l, ids, [], msgs, |l.frames|)
    ensures TrieOk(arr) && Grows(first, arr) && !Unreadable(loop, l) && MsgsOk(loop, arr, l, ids, msgs)
  {
  }

  /** The trace and cachemiss loops on one line: messages for the known frames. */
  method TraceMsgs(trie: ContextArray, l: Line) returns (ok: bool, msgs: seq<ContextMsg>, ghost ids: seq<nat>)
    requires TrieOk(trie.contexts) && LineOk(l)
    modifies trie
    ensures TrieOk(trie.contexts) && Grows(old(trie.contexts), trie.contexts)
    ensures ok <==> !Unreadable(TraceLoop, l)
    ensures ok ==> MsgsOk(TraceLoop, trie.contexts, l, ids, msgs)
  {
    ok, msgs, ids := true, [], [];
    NothingRead(trie.contexts, l.frames);
    for i := 0 to |l.frames|
      invariant ok && Midway(TraceLoop, old(trie.contexts), trie.contexts, l, ids, [], msgs, i)
    {
      var known;
      ok, known, msgs, ids := InternNext(TraceLoop, trie, l, i, msgs, ids, old(trie.contexts), []);
      if !ok {
        return;
      }
    }
    AllRead(TraceLoop, old(trie.contexts), trie.contexts, l, ids, msgs);
  }

  lemma NothingRead(arr: seq<Ctx>, frames: seq<TraceFrame>)
    requires TrieOk(arr)
    ensures ReadTo(arr, frames, [], 0) && Grows(arr, arr)
  {
  }

  /** What a loop hands to addSample for a line. */
  ghost predicate MsgsOk(loop: Loop, arr: seq<Ctx>, l: Line, ids: seq<nat>, msgs: seq<ContextMsg>) {
    if loop.AllocLoop? && !KnownTo(l, |l.frames|) then msgs == []
    else ReadTo(arr, l.frames, ids, |l.frames|) && msgs == MsgsFor(l, ids, |l.frames|)
  }

  lemma MsgsAreRight(loop: Loop, arr: seq<Ctx>, l: Line, ids: seq<nat>, msgs: seq<ContextMsg>)
    requires TrieOk(arr) && MsgsOk(loop, arr, l, ids, msgs)
    ensures PathDown(arr, msgs) && (msgs == [] <==> Depth(loop, l) == 0)
    ensures loop.AllocLoop? ==> PathDirect(arr, msgs)
    ensures msgs != [] ==> (LinesFit(msgs, |msgs|) <==> !LineOut(l, |l.frames|))
    ensures LinesFit([], 0)
    ensures PathPresent(loop, arr, l)
    ensures Sampled(loop, arr, l) <==> msgs != []
    ensures msgs != [] ==> TheSample(loop, arr, l) == SampleRecord(msgs[|msgs| - 1].id, l.metric)
  {
    var n, k := |l.frames|, Depth(loop, l);
    if loop.TraceLoop? || KnownTo(l, n) {
      MsgsGoDown(arr, l, ids, n);
      if loop.AllocLoop? {
        MsgsAreDirect(arr, l, ids, n);
        AllKnownIsLast(l, n);
      }
      assert k > 0 ==> WalkTo(arr, l.frames, k) == Some(ids[k - 1]);
    }
  }

  /** One line, in either kind of loop; answers false where it raises. */
  method ExportLine(loop: Loop, trie: ContextArray, profile: Profile, l: Line) returns (ok: bool)
    requires TrieOk(trie.contexts) && RecordsOk(loop, trie.contexts, profile.View()) && LineOk(l)
    modifies trie, profile
    ensures TrieOk(trie.contexts) && Grows(old(trie.contexts), trie.contexts)
    ensures ok <==> !Raises(loop, l)
    ensures ok ==> RecordsOk(loop, trie.contexts, profile.View())
    ensures ok ==> PathPresent(loop, trie.contexts, l)
    ensures ok ==> profile.samples == WithSample(loop, trie.contexts, old(profile.samples), l)
    ensures ok && Depth(loop, l) == 0 ==> profile.View() == old(profile.View())
    ensures ok && Depth(loop, l) > 0 ==> LineExported(trie.contexts, old(profile.View()), profile.View(), l)
  {
    var msgs;
    ghost var ids;
    match loop {
      case AllocLoop => ok, msgs, ids := AllocMsgs(trie, l);
      case TraceLoop => ok, msgs, ids := TraceMsgs(trie, l);
    }
    if !ok {
      return;
    }
    MsgsAreRight(loop, trie.contexts, l, ids, msgs);
    ExportGrows(old(trie.contexts), trie.contexts, profile.View());
    ok := profile.AddSample(msgs, l.metric, trie.contexts);
    if ok && Depth(loop, l) > 0 {
      SampledIsRead(loop, l);
      MsgsExport(trie.contexts, old(profile.View()), profile.View(), l, ids);
    }
  }

  lemma SampledIsRead(loop: Loop, l: Line)
    requires Depth(loop, l) > 0
    ensures loop.AllocLoop? ==> KnownTo(l, |l.frames|)
  {
  }

  /** The records of an alloc profile are a part of the trie; in the others parents may be skipped. */
  ghost predicate RecordsOk(loop: Loop, arr: seq<Ctx>, e: Export) {
    ExportOk(arr, e) && (loop.AllocLoop? ==> Direct(arr, e))
  }

  /** The export after these lines. */
  ghost predicate Exported(loop: Loop, arr: seq<Ctx>, e: Export, lines: seq<Line>) {
    && TrieOk(arr) && RecordsOk(loop, arr, e)
    && PathsPresent(loop, arr, lines, |lines|) && e.samples == SamplesOf(loop, arr, lines, |lines|)
  }

  // ----- Whole files -----

  /** A trace file: its text, and the method ids in the method map of its thread. */
  datatype TraceFile = TraceFile(text: string, known: set<int>)

  /** The lines, with that of one more line of text if it holds a trace. */
  function WithParsed(lines: seq<Line>, text: string, known: set<int>): seq<Line> {
    match ReadLine(text)
    case Trace(frames, metric) => lines + [Line(frames, metric, known)]
    case _ => lines
  }

  /** The lines, with those of the first `n` lines of text. */
  function WithText(lines: seq<Line>, text: seq<string>, known: set<int>, n: nat): seq<Line>
    requires n <= |text|
  {
    if n == 0 then lines else WithParsed(WithText(lines, text, known, n - 1), text[n - 1], known)
  }

  function WithFile(lines: seq<Line>, file: TraceFile): seq<Line> {
    WithText(lines, FileLines(file.text), file.known, |FileLines(file.text)|)
  }

  function AllLines(lines: seq<Line>, files: seq<TraceFile>, n: nat): seq<Line>
    requires n <= |files|
  {
    if n == 0 then lines else WithFile(AllLines(lines, files, n - 1), files[n - 1])
  }

  /** The converter stops at this line of text with an IndexError or a ValueError. */
  ghost predicate TextRaises(loop: Loop, text: string, known: set<int>) {
    match ReadLine(text)
    case Skipped => false
    case Raised => true
    case Trace(frames, metric) => Raises(loop, Line(frames, metric, known))
  }

  /** None of the first `n` lines of text raises. */
  ghost predicate NoneRaises(loop: Loop, text: seq<string>, known: set<int>, n: nat)
    requires n <= |text|
  {
    forall i {:trigger TextRaises(loop, text[i], known)} :: 0 <= i < n ==> !TextRaises(loop, text[i], known)
  }

  ghost predicate NoFileRaises(loop: Loop, files: seq<TraceFile>, n: nat)
    requires n <= |files|
  {
    n == 0 || (NoFileRaises(loop, files, n - 1) && !FileRaises(loop, files[n - 1]))
  }

  ghost predicate FileRaises(loop: Loop, file: TraceFile) {
    !NoneRaises(loop, FileLines(file.text), file.known, |FileLines(file.text)|)
  }

  /** What the parse hands on is split at colons. */
  lemma ParsedIsSplit(text: string)
    requires ReadLine(text).Trace?
    ensures ReadLine(text).frames != [] && AllSplit(ReadLine(text).frames)
  {
    var parts := Split(Split(text, " |")[0], " ");
    ReadFramesSplit(parts, |parts|);
  }

  lemma {:induction false} ReadFramesSplit(parts: seq<string>, n: nat)
    requires n <= |parts| && ReadFrames(parts, n).Some?
    ensures |ReadFrames(parts, n).value| == n && AllSplit(ReadFrames(parts, n).value)
  {
    if n > 0 {
      ReadFramesSplit(parts, n - 1);
      SplitPartsWithout(parts[n - 1], ':');
    }
  }

  /** One line of text. */
  method ExportText(loop: Loop, trie: ContextArray, profile: Profile, text: string, known: set<int>,
                    ghost lines: seq<Line>)
    returns (ok: bool)
    requires Exported(loop, trie.contexts, profile.View(), lines)
    modifies trie, profile
    ensures Grows(old(trie.contexts), trie.contexts)
    ensures ok <==> !TextRaises(loop, text, known)
    ensures ok ==> Exported(loop, trie.contexts, profile.View(), WithParsed(lines, text, known))
  {
    var r := ParseLine(text);
    match r
    case Skipped =>
      ok := true;
    case Raised =>
      ok := false;
    case Trace(frames, metric) =>
      ParsedIsSplit(text);
      ok := ExportTrace(loop, trie, profile, Line(frames, metric, known), lines);
  }

  method ExportTrace(loop: Loop, trie: ContextArray, profile: Profile, l: Line, ghost lines: seq<Line>)
    returns (ok: bool)
    requires Exported(loop, trie.contexts, profile.View(), lines) && LineOk(l)
    modifies trie, profile
    ensures Grows(old(trie.contexts), trie.contexts)
    ensures ok <==> !Raises(loop, l)
    ensures ok ==> Exported(loop, trie.contexts, profile.View(), lines + [l])
  {
    ghost var before, e := trie.contexts, profile.View();
    ok := ExportLine(loop, trie, profile, l);
    if ok {
      ExportedNext(loop, before, e, trie.contexts, profile.View(), lines, l);
    }
  }

  lemma ExportedNext(loop: Loop, arr: seq<Ctx>, e: Export, arr': seq<Ctx>, e': Export, lines: seq<Line>, l: Line)
    requires Exported(loop, arr, e, lines) && Grows(arr, arr')
    requires TrieOk(arr') && RecordsOk(loop, arr', e') && PathPresent(loop, arr', l)
    requires e'.samples == WithSample(loop, arr', e.samples, l)
    ensures Exported(loop, arr', e', lines + [l])
  {
    SamplesGrow(loop, arr, arr', lines, |lines|);
    OneMore(loop, arr', lines, l);
  }

  lemma OneMore(loop: Loop, arr: seq<Ctx>, lines: seq<Line>, l: Line)
    requires PathsPresent(loop, arr, lines, |lines|) && PathPresent(loop, arr, l)
    ensures PathsPresent(loop, arr, lines + [l], |lines| + 1)
    ensures SamplesOf(loop, arr, lines + [l], |lines| + 1) ==
            WithSample(loop, arr, SamplesOf(loop, arr, lines, |lines|), l)
  {
    SamplesOfPrefix(loop, arr, lines, l, |lines|);
  }

  lemma {:induction false} SamplesOfPrefix(loop: Loop, arr: seq<Ctx>, lines: seq<Line>, l: Line, n: nat)
    requires n <= |lines|
    ensures SamplesOf(loop, arr, lines + [l], n) == SamplesOf(loop, arr, lines, n)
    ensures PathsPresent(loop, arr, lines + [l], n) == PathsPresent(loop, arr, lines, n)
  {
    if n > 0 {
      SamplesOfPrefix(loop, arr, lines, l, n - 1);
    }
  }

  lemma NextLine(loop: Loop, text: seq<string>, known: set<int>, i: nat)
    requires i < |text|
    ensures NoneRaises(loop, text, known, i + 1) <==>
            NoneRaises(loop, text, known, i) && !TextRaises(loop, text[i], known)
  {
  }

  /** Line `i` of a file. */
  method ExportNext(loop: Loop, trie: ContextArray, profile: Profile, text: seq<string>, known: set<int>, i: nat,
                    ghost lines: seq<Line>, ghost first: seq<Ctx>)
    returns (ok: bool)
    requires i < |text| && Exported(loop, trie.contexts, profile.View(), WithText(lines, text, known, i))
    requires NoneRaises(loop, text, known, i) && Grows(first, trie.contexts)
    modifies trie, profile
    ensures Grows(first, trie.contexts)
    ensures ok <==> NoneRaises(loop, text, known, i + 1)
    ensures ok ==> Exported(loop, trie.contexts, profile.View(), WithText(lines, text, known, i + 1))
  {
    ghost var before := WithText(lines, text, known, i);
    ghost var arr := trie.contexts;
    ok := ExportText(loop, trie, profile, text[i], known, before);
    GrowsTransitively(first, arr, trie.contexts);
    NextLine(loop, text, known, i);
  }

  /** The loop over the lines of one file. */
  method ExportFile(loop: Loop, trie: ContextArray, profile: Profile, file: TraceFile, ghost lines: seq<Line>)
    returns (ok: bool)
    requires Exported(loop, trie.contexts, profile.View(), lines)
    modifies trie, profile
    ensures Grows(old(trie.contexts), trie.contexts)
    ensures ok <==> !FileRaises(loop, file)
    ensures ok ==> Exported(loop, trie.contexts, profile.View(), WithFile(lines, file))
  {
    var text := FileLines(file.text);
    ok := true;
    for i := 0 to |text|
      invariant Grows(old(trie.contexts), trie.contexts)
      invariant ok && NoneRaises(loop, text, file.known, i)
      invariant Exported(loop, trie.contexts, profile.View(), WithText(lines, text, file.known, i))
    {
      ok := ExportNext(loop, trie, profile, text, file.known, i, lines, old(trie.contexts));
      if !ok {
        return;
      }
    }
  }

  method ExportNextFile(loop: Loop, trie: ContextArray, profile: Profile, files: seq<TraceFile>, i: nat,
                        ghost lines: seq<Line>, ghost first: seq<Ctx>)
    returns (ok: bool)
    requires i < |files| && Exported(loop, trie.contexts, profile.View(), AllLines(lines, files, i))
    requires NoFileRaises(loop, files, i) && Grows(first, trie.contexts)
    modifies trie, profile
    ensures Grows(first, trie.contexts)
    ensures ok <==> NoFileRaises(loop, files, i + 1)
    ensures ok ==> Exported(loop, trie.contexts, profile.View(), AllLines(lines, files, i + 1))
  {
    ghost var before := trie.contexts;
    ok := ExportFile(loop, trie, profile, files[i], AllLines(lines, files, i));
    GrowsTransitively(first, before, trie.contexts);
  }

  lemma NothingExported(loop: Loop, arr: seq<Ctx>, files: seq<TraceFile>)
    requires TrieOk(arr)
    ensures Exported(loop, arr, EMPTY_EXPORT, AllLines([], files, 0)) && Grows(arr, arr)
  {
  }

  /**
   One of the converter's loops over any list of files, from any trie the earlier loops left.
   Unless a line raises, the records keep their order and parents, and the samples are those
   of the lines of all files, in order.
   */
  method ExportAll(loop: Loop, trie: ContextArray, files: seq<TraceFile>) returns (profile: Profile, ok: bool)
    requires TrieOk(trie.contexts)
    modifies trie
    ensures Grows(old(trie.contexts), trie.contexts) && fresh(profile)
    ensures ok <==> NoFileRaises(loop, files, |files|)
    ensures ok ==> Exported(loop, trie.contexts, profile.View(), AllLines([], files, |files|))
  {
    profile := new Profile();
    NothingExported(loop, trie.contexts, files);
    ok := ExportFiles(loop, trie, profile, files, []);
  }

  method ExportFiles(loop: Loop, trie: ContextArray, profile: Profile, files: seq<TraceFile>, ghost lines: seq<Line>)
    returns (ok: bool)
    requires Exported(loop, trie.contexts, profile.View(), AllLines(lines, files, 0))
    requires Grows(trie.contexts, trie.contexts)
    modifies trie, profile
    ensures Grows(old(trie.contexts), trie.contexts)
    ensures ok <==> NoFileRaises(loop, files, |files|)
    ensures ok ==> Exported(loop, trie.contexts, profile.View(), AllLines(lines, files, |files|))
  {
    ok := true;
    for i := 0 to |files|
      invariant ok && Grows(old(trie.contexts), trie.contexts)
      invariant Exported(loop, trie.contexts, profile.View(), AllLines(lines, files, i))
      invariant NoFileRaises(loop, files, i)
    {
      ok := ExportNextFile(loop, trie, profile, files, i, lines, old(trie.contexts));
      if !ok {
        FirstRaises(loop, files, i + 1, |files|);
        return;
      }
    }
  }

  lemma {:induction false} FirstRaises(loop: Loop, files: seq<TraceFile>, i: nat, n: nat)
    requires i <= n <= |files| && !NoFileRaises(loop, files, i)
    ensures !NoFileRaises(loop, files, n)
  {
    if i < n {
      FirstRaises(loop, files, i, n - 1);
    }
  }
}
