/**
 A set of closed ranges kept in a map ordered by start key.

 The ordered map is the sequence of its entries in key order; module functions say what
 each map operation does to that sequence, class `RangeSet` does it in place, and the
 lemmas say what the whole means: a partial map from keys to the range around them.
 */
module RangeSets {
  import opened Wrappers

  type Key = nat

  datatype Range<D> = Range(start: Key, end: Key, data: D)

  predicate Covers<D>(r: Range<D>, key: Key) {
    r.start <= key <= r.end
  }

  /** Entries in key order, none empty, no key in two ranges. */
  ghost predicate Disjoint<D>(es: seq<Range<D>>) {
    && (forall i :: 0 <= i < |es| ==> es[i].start <= es[i].end)
    && (forall i, j :: 0 <= i < j < |es| ==> es[i].end < es[j].start)
  }

  /** How many leading entries start below `key`: std::map::lower_bound. */
  function LowerBound<D>(es: seq<Range<D>>, key: Key): (i: nat)
    ensures i <= |es|
    ensures forall j :: 0 <= j < i ==> es[j].start < key
    ensures i < |es| ==> key <= es[i].start
  {
    if es == [] || key <= es[0].start then 0 else 1 + LowerBound(es[1..], key)
  }

  /** How many leading entries start at or below `key`: std::map::upper_bound. */
  function UpperBound<D>(es: seq<Range<D>>, key: Key): (i: nat)
    ensures i <= |es|
    ensures forall j :: 0 <= j < i ==> es[j].start <= key
    ensures i < |es| ==> key < es[i].start
  {
    if es == [] || key < es[0].start then 0 else 1 + UpperBound(es[1..], key)
  }

  /** std::map::emplace: an entry already at the key stays. */
  function Emplace<D>(es: seq<Range<D>>, r: Range<D>): seq<Range<D>> {
    var i := LowerBound(es, r.start);
    if i < |es| && es[i].start == r.start then es else es[..i] + [r] + es[i..]
  }

  function Erase<D>(es: seq<Range<D>>, start: Key): seq<Range<D>> {
    var i := LowerBound(es, start);
    if i < |es| && es[i].start == start then es[..i] + es[i + 1..] else es
  }

  /** The entry before the upper bound, if it reaches the key. */
  function GetRange<D>(es: seq<Range<D>>, key: Key): Option<Range<D>> {
    var i := UpperBound(es, key);
    if i == 0 || es[i - 1].end < key then None else Some(es[i - 1])
  }

  function GetData<D>(es: seq<Range<D>>, key: Key): Option<D> {
    match GetRange(es, key)
    case None => None
    case Some(r) => Some(r.data)
  }

  /** The ranges that lie within [start, end], in order. */
  function Inside<D>(es: seq<Range<D>>, start: Key, end: Key): seq<Range<D>> {
    if es == [] then []
    else
      var before, last := Inside(es[..|es| - 1], start, end), es[|es| - 1];
      if IsInside(last, start, end) then before + [last] else before
  }

  /** The walk from index `i`, with what it collected so far: it stops at the first range ending past `end`. */
  function Walk<D>(es: seq<Range<D>>, i: nat, end: Key, inside: seq<Range<D>>): seq<Range<D>>
    decreases |es| - i
  {
    if |es| <= i || end < es[i].end then inside else Walk(es, i + 1, end, inside + [es[i]])
  }

  /** getRangesInside. */
  function RangesInside<D>(es: seq<Range<D>>, start: Key, end: Key): seq<Range<D>> {
    Walk(es, LowerBound(es, start), end, [])
  }

  /** remove(start, end). */
  function RemoveBetween<D>(es: seq<Range<D>>, start: Key, end: Key): (seq<Range<D>>, bool) {
    if IsExactly(RangesInside(es, start, end), start, end) then (Erase(es, start), true) else (es, false)
  }

  /** `inside` is one range, with exactly these bounds. */
  predicate IsExactly<D>(inside: seq<Range<D>>, start: Key, end: Key) {
    |inside| == 1 && inside[0].start == start && inside[0].end == end
  }

  predicate IsInside<D>(r: Range<D>, start: Key, end: Key) {
    start <= r.start && r.end <= end
  }

  /** remove(start). */
  function RemoveAt<D>(es: seq<Range<D>>, start: Key): (seq<Range<D>>, bool) {
    match GetRange(es, start)
    case Some(r) => if r.start == start then (Erase(es, start), true) else (es, false)
    case None => (es, false)
  }

  // ----- The lookup -----

  /** The entry at index `i` is the one and only range found at the keys it covers. */
  lemma GetRangeAt<D>(es: seq<Range<D>>, i: nat, key: Key)
    requires Disjoint(es) && i < |es| && Covers(es[i], key)
    ensures UpperBound(es, key) == i + 1
    ensures GetRange(es, key) == Some(es[i])
  {
    assert i + 1 < |es| ==> key < es[i + 1].start;
    assert forall j :: 0 <= j < i ==> es[j].start <= es[j].end < es[i].start;
  }

  /** The predecessor lookup finds a key exactly when some range covers it. */
  lemma GetRangeCorrect<D>(es: seq<Range<D>>, key: Key)
    requires Disjoint(es)
    ensures match GetRange(es, key)
            case Some(r) => r in es && Covers(r, key) && forall s :: s in es && Covers(s, key) ==> s == r
            case None => forall s :: s in es ==> !Covers(s, key)
  {
    forall s | s in es && Covers(s, key)
      ensures GetRange(es, key) == Some(s)
    {
      var i :| 0 <= i < |es| && es[i] == s;
      GetRangeAt(es, i, key);
    }
  }

  /** Disjoint lists with the same members find the same ranges. */
  lemma GetRangeByMembers<D>(es: seq<Range<D>>, key: Key, r: Range<D>)
    requires Disjoint(es)
    ensures GetRange(es, key) == Some(r) <==> r in es && Covers(r, key)
  {
    GetRangeCorrect(es, key);
  }

  // ----- Insertion and removal, point by point -----

  /** No key of [start, end] is covered. */
  ghost predicate Free<D>(es: seq<Range<D>>, start: Key, end: Key) {
    forall r :: r in es ==> r.end < start || end < r.start
  }

  lemma EmplaceKeepsDisjoint<D>(es: seq<Range<D>>, r: Range<D>)
    requires Disjoint(es) && r.start <= r.end && Free(es, r.start, r.end)
    ensures Disjoint(Emplace(es, r))
    ensures forall s :: s in Emplace(es, r) <==> s in es || s == r
  {
    var i := LowerBound(es, r.start);
    var a, b := es[..i], es[i..];
    EmplaceFits(es, r, i);
    DisjointJoin(a, r, b);
    EmplaceMembers(a, r, b);
    assert es == a + b;
  }

  /** The new entry goes between the entries that end before it and those that start after it. */
  lemma EmplaceFits<D>(es: seq<Range<D>>, r: Range<D>, i: nat)
    requires Disjoint(es) && r.start <= r.end && Free(es, r.start, r.end) && i == LowerBound(es, r.start)
    ensures Emplace(es, r) == es[..i] + [r] + es[i..]
    ensures EndsBefore(es[..i], r.start) && StartsAfter(es[i..], r.end)
    ensures Disjoint(es[..i]) && Disjoint(es[i..])
  {
    FreeByIndex(es, r.start, r.end);
    StartsFromIndex(es, i, r.end);
  }

  lemma FreeByIndex<D>(es: seq<Range<D>>, start: Key, end: Key)
    requires Free(es, start, end)
    ensures forall j :: 0 <= j < |es| ==> es[j].end < start || end < es[j].start
  {
    assert forall j :: 0 <= j < |es| ==> es[j] in es;
  }

  lemma StartsFromIndex<D>(es: seq<Range<D>>, i: nat, key: Key)
    requires Disjoint(es) && i <= |es| && (i < |es| ==> key < es[i].start)
    ensures StartsAfter(es[i..], key)
  {
    forall j | 0 <= j < |es[i..]|
      ensures key < es[i..][j].start
    {
      assert j == 0 || es[i].end < es[i + j].start;
    }
  }

  ghost predicate EndsBefore<D>(es: seq<Range<D>>, key: Key) {
    forall j :: 0 <= j < |es| ==> es[j].end < key
  }

  ghost predicate StartsAfter<D>(es: seq<Range<D>>, key: Key) {
    forall j :: 0 <= j < |es| ==> key < es[j].start
  }

  lemma DisjointJoin<D>(a: seq<Range<D>>, r: Range<D>, b: seq<Range<D>>)
    requires Disjoint(a) && Disjoint(b) && r.start <= r.end
    requires EndsBefore(a, r.start) && StartsAfter(b, r.end)
    ensures Disjoint(a + [r] + b)
  {
    var s := a + [r] + b;
    assert forall j :: 0 <= j < |s| ==> s[j] == if j < |a| then a[j] else if j == |a| then r else b[j - |a| - 1];
  }

  lemma EmplaceMembers<D>(a: seq<Range<D>>, r: Range<D>, b: seq<Range<D>>)
    ensures forall s :: s in a + [r] + b <==> s in a + b || s == r
  {
  }

  lemma InsertPointwise<D>(es: seq<Range<D>>, r: Range<D>, key: Key)
    requires Disjoint(es) && r.start <= r.end && Free(es, r.start, r.end)
    ensures GetRange(Emplace(es, r), key) == if Covers(r, key) then Some(r) else GetRange(es, key)
  {
    EmplaceKeepsDisjoint(es, r);
    GetRangeCorrect(es, key);
    GetRangeCorrect(Emplace(es, r), key);
  }

  lemma {:induction false} EraseKeepsDisjoint<D>(es: seq<Range<D>>, i: nat)
    requires Disjoint(es) && i < |es|
    ensures Erase(es, es[i].start) == es[..i] + es[i + 1..]
    ensures Disjoint(Erase(es, es[i].start))
  {
    assert forall j :: 0 <= j < i ==> es[j].start < es[i].start;
    assert LowerBound(es, es[i].start) == i;
    WithoutOneDisjoint(es, i);
  }

  lemma WithoutOneDisjoint<D>(es: seq<Range<D>>, i: nat)
    requires Disjoint(es) && i < |es|
    ensures Disjoint(es[..i] + es[i + 1..])
  {
    var after := es[..i] + es[i + 1..];
    assert forall j :: 0 <= j < |after| ==> after[j] == es[if j < i then j else j + 1];
  }

  lemma EraseMembers<D>(es: seq<Range<D>>, i: nat)
    requires Disjoint(es) && i < |es|
    ensures forall s :: s in es[..i] + es[i + 1..] <==> s in es && s.start != es[i].start
  {
    var a, b := es[..i], es[i + 1..];
    assert es == a + [es[i]] + b;
    assert forall j :: 0 <= j < |a| ==> a[j].start < es[i].start;
    assert forall j :: 0 <= j < |b| ==> es[i].start < b[j].start;
  }

  /** remove(start) succeeds exactly when a range starts there, and takes out that range only. */
  lemma RemoveMembers<D>(es: seq<Range<D>>, start: Key)
    requires Disjoint(es)
    ensures var (after, ok) := RemoveAt(es, start);
            && Disjoint(after)
            && (ok <==> exists r :: r in es && r.start == start)
            && (forall s :: s in after <==> s in es && s.start != start)
  {
    StartFound(es, start);
    var (after, ok) := RemoveAt(es, start);
    if ok {
      var i :| 0 <= i < |es| && es[i] == GetRange(es, start).value;
      EraseKeepsDisjoint(es, i);
      EraseMembers(es, i);
    }
  }

  /** And it clears the keys of that range only. */
  lemma RemovePointwise<D>(es: seq<Range<D>>, start: Key)
    requires Disjoint(es)
    ensures var (after, ok) := RemoveAt(es, start);
            && Disjoint(after)
            && (!ok ==> after == es)
            && (forall key :: GetRange(after, key) ==
                              if ok && Covers(GetRange(es, start).value, key) then None else GetRange(es, key))
  {
    RemoveMembers(es, start);
    StartFound(es, start);
    var (after, ok) := RemoveAt(es, start);
    if ok {
      var r := GetRange(es, start).value;
      var i :| 0 <= i < |es| && es[i] == r;
      forall key: Key
        ensures GetRange(after, key) == if Covers(r, key) then None else GetRange(es, key)
      {
        ErasePointwise(es, i, key);
      }
    }
  }

  lemma ErasePointwise<D>(es: seq<Range<D>>, i: nat, key: Key)
    requires Disjoint(es) && i < |es|
    ensures GetRange(Erase(es, es[i].start), key) == if Covers(es[i], key) then None else GetRange(es, key)
  {
    var after := Erase(es, es[i].start);
    EraseKeepsDisjoint(es, i);
    EraseMembers(es, i);
    GetRangeCorrect(es, key);
    GetRangeCorrect(after, key);
    assert es[i] in es && es[i] !in after;
  }

  /** A range starting at the key is the one found there. */
  lemma StartFound<D>(es: seq<Range<D>>, start: Key)
    requires Disjoint(es)
    ensures GetRange(es, start).Some? ==> GetRange(es, start).value in es
    ensures forall r :: r in es && r.start == start ==> GetRange(es, start) == Some(r)
  {
    GetRangeCorrect(es, start);
    forall r | r in es && r.start == start
      ensures GetRange(es, start) == Some(r)
    {
      var i :| 0 <= i < |es| && es[i] == r;
      GetRangeAt(es, i, start);
    }
  }

  // ----- Ranges inside a window -----

  lemma {:induction false} InsideMembers<D>(es: seq<Range<D>>, start: Key, end: Key)
    ensures forall r :: r in Inside(es, start, end) <==> r in es && IsInside(r, start, end)
  {
    if es != [] {
      var before := es[..|es| - 1];
      InsideMembers(before, start, end);
      assert es == before + [es[|es| - 1]];
    }
  }

  lemma InsideNext<D>(es: seq<Range<D>>, i: nat, start: Key, end: Key)
    requires i < |es|
    ensures var before := Inside(es[..i], start, end);
            Inside(es[..i + 1], start, end) == if IsInside(es[i], start, end) then before + [es[i]] else before
  {
    assert es[..i + 1][..i] == es[..i];
  }

  /** From index `i` on nothing is inside. */
  lemma {:induction false} InsideStops<D>(es: seq<Range<D>>, i: nat, start: Key, end: Key)
    requires i <= |es|
    requires forall j :: i <= j < |es| ==> !IsInside(es[j], start, end)
    ensures Inside(es, start, end) == Inside(es[..i], start, end)
  {
    if i < |es| {
      var before := es[..|es| - 1];
      InsideStops(before, i, start, end);
      assert before[..i] == es[..i];
    } else {
      assert es[..i] == es;
    }
  }

  /** Past a range that ends beyond `end` nothing is inside. */
  lemma PastEnd<D>(es: seq<Range<D>>, i: nat, start: Key, end: Key)
    requires Disjoint(es) && i < |es| && end < es[i].end
    ensures Inside(es, start, end) == Inside(es[..i], start, end)
  {
    forall j | i <= j < |es|
      ensures !IsInside(es[j], start, end)
    {
      assert i < j ==> es[i].end < es[j].start;
    }
    InsideStops(es, i, start, end);
  }

  /** A stored range is the only one inside its own bounds. */
  lemma InsideItself<D>(es: seq<Range<D>>, i: nat)
    requires Disjoint(es) && i < |es|
    ensures Inside(es, es[i].start, es[i].end) == [es[i]]
  {
    var lo, hi := es[i].start, es[i].end;
    forall j | 0 <= j < |es| && j != i
      ensures !IsInside(es[j], lo, hi)
    {
      assert if j < i then es[j].end < es[i].start else es[i].end < es[j].start;
    }
    InsideStops(es[..i], 0, lo, hi);
    assert es[..i][..0] == [];
    InsideNext(es, i, lo, hi);
    InsideStops(es, i + 1, lo, hi);
  }

  lemma {:induction false} WalkIsInside<D>(es: seq<Range<D>>, i: nat, start: Key, end: Key)
    requires Disjoint(es) && LowerBound(es, start) <= i <= |es|
    ensures Walk(es, i, end, Inside(es[..i], start, end)) == Inside(es, start, end)
    decreases |es| - i
  {
    var first := LowerBound(es, start);
    if i == |es| {
      assert es[..i] == es;
    } else if end < es[i].end {
      PastEnd(es, i, start, end);
    } else {
      assert IsInside(es[i], start, end) by {
        assert first < i ==> es[first].end < es[i].start;
      }
      InsideNext(es, i, start, end);
      var inside := Inside(es[..i], start, end);
      assert Walk(es, i, end, inside) == Walk(es, i + 1, end, inside + [es[i]]);
      WalkIsInside(es, i + 1, start, end);
    }
  }

  /** Despite its early break the walk returns exactly the contained ranges, in order. */
  lemma {:induction false} RangesInsideCorrect<D>(es: seq<Range<D>>, start: Key, end: Key)
    requires Disjoint(es)
    ensures RangesInside(es, start, end) == Inside(es, start, end)
    ensures forall r :: r in RangesInside(es, start, end) <==> r in es && start <= r.start && r.end <= end
  {
    var first := LowerBound(es, start);
    InsideStops(es[..first], 0, start, end);
    assert es[..first][..0] == [];
    WalkIsInside(es, first, start, end);
    InsideMembers(es, start, end);
  }

  lemma ExactlyInside<D>(es: seq<Range<D>>, start: Key, end: Key)
    requires Disjoint(es)
    ensures IsExactly(RangesInside(es, start, end), start, end) <==>
            exists r :: r in es && r.start == start && r.end == end
    ensures IsExactly(RangesInside(es, start, end), start, end) <==>
            var r := GetRange(es, start); r.Some? && r.value.start == start && r.value.end == end
  {
    var inside := RangesInside(es, start, end);
    RangesInsideCorrect(es, start, end);
    if IsExactly(inside, start, end) {
      assert inside[0] in es;
    }
    StartFound(es, start);
    if r :| r in es && r.start == start && r.end == end {
      var i :| 0 <= i < |es| && es[i] == r;
      InsideItself(es, i);
    }
  }

  class RangeSet<D> {
    var startMap: seq<Range<D>>

    constructor ()
      ensures startMap == []
    {
      startMap := [];
    }

    predicate IsEmpty()
      reads this
    {
      startMap == []
    }

    /** Answers true always; the Range constructor asserts its bounds are in order. */
    method Insert(start: Key, end: Key, data: D) returns (ok: bool)
      requires start <= end
      modifies this
      ensures ok && startMap == Emplace(old(startMap), Range(start, end, data))
      ensures Disjoint(old(startMap)) && Free(old(startMap), start, end) ==>
                && Disjoint(startMap)
                && forall key: Key :: GetRange(startMap, key) ==
                                 if start <= key <= end then Some(Range(start, end, data))
                                 else GetRange(old(startMap), key)
    {
      if Disjoint(startMap) && Free(startMap, start, end) {
        EmplaceKeepsDisjoint(startMap, Range(start, end, data));
        forall key: Key
          ensures GetRange(Emplace(startMap, Range(start, end, data)), key) ==
                  if start <= key <= end then Some(Range(start, end, data)) else GetRange(startMap, key)
        {
          InsertPointwise(startMap, Range(start, end, data), key);
        }
      }
      startMap := Emplace(startMap, Range(start, end, data));
      ok := true;
    }

    method GetRangesInside(start: Key, end: Key) returns (inside: seq<Range<D>>)
      requires start <= end
      ensures inside == RangesInside(startMap, start, end)
      ensures Disjoint(startMap) ==> inside == Inside(startMap, start, end)
    {
      if Disjoint(startMap) {
        RangesInsideCorrect(startMap, start, end);
      }
      inside := [];
      var i := LowerBound(startMap, start);
      while i < |startMap|
        invariant i <= |startMap|
        invariant Walk(startMap, i, end, inside) == RangesInside(startMap, start, end)
      {
        if startMap[i].end <= end {
          inside := inside + [startMap[i]];
        } else {
          break;
        }
        i := i + 1;
      }
    }

    method RemoveRange(start: Key, end: Key) returns (ok: bool)
      requires start <= end
      modifies this
      ensures (startMap, ok) == RemoveBetween(old(startMap), start, end)
      ensures Disjoint(old(startMap)) ==>
                (ok <==> exists r :: r in old(startMap) && r.start == start && r.end == end)
    {
      if Disjoint(startMap) {
        ExactlyInside(startMap, start, end);
      }
      var inside := GetRangesInside(start, end);
      if |inside| != 1 {
        return false;
      }
      if inside[0].start == start && inside[0].end == end {
        startMap := Erase(startMap, inside[0].start);
        return true;
      }
      return false;
    }

    method Remove(start: Key) returns (ok: bool)
      modifies this
      ensures (startMap, ok) == RemoveAt(old(startMap), start)
    {
      var probe := GetRange(startMap, start);
      if probe.Some? {
        if probe.value.start == start {
          startMap := Erase(startMap, start);
          return true;
        }
      }
      return false;
    }
  }

  // ----- Whole runs -----

  datatype Op<D> = InsertOp(start: Key, end: Key, data: D) | RemoveOp(at: Key) | RemoveRangeOp(lo: Key, hi: Key)

  /** What a key maps to: the range around it. */
  type PointMap<!D> = Key -> Option<Range<D>>

  /** The operation's effect on a partial map, and its answer. */
  ghost function PointStep<D(!new)>(f: PointMap<D>, op: Op<D>): (PointMap<D>, bool) {
    match op
    case InsertOp(start, end, data) =>
      ((key: Key) => if start <= key <= end then Some(Range(start, end, data)) else f(key), true)
    case RemoveOp(at) =>
      if f(at).Some? && f(at).value.start == at then
        ((key: Key) => if Covers(f(at).value, key) then None else f(key), true)
      else (f, false)
    case RemoveRangeOp(lo, hi) =>
      if f(lo).Some? && f(lo).value.start == lo && f(lo).value.end == hi then
        ((key: Key) => if Covers(f(lo).value, key) then None else f(key), true)
      else (f, false)
  }

  /** The inserted range covers no key already covered; bounds are in order. */
  ghost predicate Admissible<D(!new)>(f: PointMap<D>, op: Op<D>) {
    match op
    case InsertOp(start, end, _) => start <= end && forall key :: start <= key <= end ==> f(key).None?
    case RemoveOp(_) => true
    case RemoveRangeOp(lo, hi) => lo <= hi
  }

  function EntriesStep<D>(es: seq<Range<D>>, op: Op<D>): (seq<Range<D>>, bool) {
    match op
    case InsertOp(start, end, data) => (Emplace(es, Range(start, end, data)), true)
    case RemoveOp(at) => RemoveAt(es, at)
    case RemoveRangeOp(lo, hi) =>
      RemoveBetween(es, lo, hi)
  }

  ghost predicate Represents<D(!new)>(es: seq<Range<D>>, f: PointMap<D>) {
    Disjoint(es) && forall key :: GetRange(es, key) == f(key)
  }

  lemma StepRefines<D(!new)>(es: seq<Range<D>>, f: PointMap<D>, op: Op<D>)
    requires Represents(es, f) && Admissible(f, op)
    ensures Represents(EntriesStep(es, op).0, PointStep(f, op).0)
    ensures EntriesStep(es, op).1 == PointStep(f, op).1
  {
    match op
    case InsertOp(start, end, data) =>
      InsertRefines(es, f, start, end, data);
    case RemoveOp(at) =>
      RemoveRefines(es, f, at);
    case RemoveRangeOp(lo, hi) =>
      ExactlyInside(es, lo, hi);
      RemoveRefines(es, f, lo);
  }

  lemma RemoveRefines<D(!new)>(es: seq<Range<D>>, f: PointMap<D>, at: Key)
    requires Represents(es, f)
    ensures GetRange(es, at) == f(at)
    ensures Represents(RemoveAt(es, at).0, PointStep(f, RemoveOp(at)).0)
    ensures RemoveAt(es, at).1 == PointStep(f, RemoveOp(at)).1
  {
    RemovePointwise(es, at);
  }

  lemma InsertRefines<D(!new)>(es: seq<Range<D>>, f: PointMap<D>, start: Key, end: Key, data: D)
    requires Represents(es, f) && Admissible(f, InsertOp(start, end, data))
    ensures Represents(Emplace(es, Range(start, end, data)), PointStep(f, InsertOp(start, end, data)).0)
  {
    FreeByPoints(es, start, end);
    var r := Range(start, end, data);
    EmplaceKeepsDisjoint(es, r);
    forall key: Key
      ensures GetRange(Emplace(es, r), key) == if start <= key <= end then Some(r) else f(key)
    {
      InsertPointwise(es, r, key);
    }
  }

  lemma FreeByPoints<D>(es: seq<Range<D>>, start: Key, end: Key)
    requires Disjoint(es) && start <= end
    requires forall key :: start <= key <= end ==> GetRange(es, key).None?
    ensures Free(es, start, end)
  {
    forall s | s in es
      ensures s.end < start || end < s.start
    {
      var i :| 0 <= i < |es| && es[i] == s;
      if start <= s.end && s.start <= end {
        GetRangeAt(es, i, if s.start < start then start else s.start);
      }
    }
  }

  ghost function PointRun<D(!new)>(ops: seq<Op<D>>): PointMap<D> {
    if ops == [] then (key: Key) => None
    else PointStep(PointRun(ops[..|ops| - 1]), ops[|ops| - 1]).0
  }

  function EntriesRun<D>(ops: seq<Op<D>>): seq<Range<D>> {
    if ops == [] then [] else EntriesStep(EntriesRun(ops[..|ops| - 1]), ops[|ops| - 1]).0
  }

  ghost predicate AdmissibleRun<D(!new)>(ops: seq<Op<D>>) {
    forall i :: 0 <= i < |ops| ==> Admissible(PointRun(ops[..i]), ops[i])
  }

  /** After any run of disjoint inserts and of removes, lookups are those of the partial map. */
  lemma {:induction false} RunRefines<D(!new)>(ops: seq<Op<D>>)
    requires AdmissibleRun(ops)
    ensures Represents(EntriesRun(ops), PointRun(ops))
    decreases |ops|
  {
    if ops != [] {
      var before := ops[..|ops| - 1];
      AdmissiblePrefix(ops, |ops| - 1);
      RunRefines(before);
      StepRefines(EntriesRun(before), PointRun(before), ops[|ops| - 1]);
    }
  }

  lemma AdmissiblePrefix<D(!new)>(ops: seq<Op<D>>, n: nat)
    requires AdmissibleRun(ops) && n <= |ops|
    ensures AdmissibleRun(ops[..n])
  {
    forall i | 0 <= i < n
      ensures Admissible(PointRun(ops[..n][..i]), ops[..n][i])
    {
      assert ops[..n][..i] == ops[..i];
    }
  }

  /** Each answer in the run is the one the partial map gives. */
  lemma AnswersRefine<D(!new)>(ops: seq<Op<D>>, i: nat)
    requires AdmissibleRun(ops) && i < |ops|
    ensures EntriesStep(EntriesRun(ops[..i]), ops[i]).1 == PointStep(PointRun(ops[..i]), ops[i]).1
  {
    AdmissiblePrefix(ops, i);
    RunRefines(ops[..i]);
    StepRefines(EntriesRun(ops[..i]), PointRun(ops[..i]), ops[i]);
  }
}
