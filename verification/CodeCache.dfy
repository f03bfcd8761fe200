/**
 The code cache: methods by id, by start address within an id, and by address range.

 This module says what each access to the shared tables does, as functions on `Cache`
 values, and has the objects that do it in place. `CodeCacheProtocol` interleaves them.
 */
module CodeCache {
  import opened Wrappers
  import opened WordArithmetic
  import opened RangeSets

  type MethodId = nat

  /** A compiled method. `serial` is history: it was the serial-th addition to its group. */
  datatype Method = Method(id: MethodId, version: nat, start: Key, size: nat, serial: nat)

  /** All versions of one method id. `issued` is history: how many additions were numbered. */
  datatype Group = Group(recentVersion: nat, issued: nat, byAddr: map<Key, Method>)

  datatype Cache = Cache(groups: map<MethodId, Group>, ranges: seq<Range<Method>>)

  const EMPTY_GROUP := Group(0, 0, map[])
  const EMPTY_CACHE := Cache(map[], [])

  /** The code of a non-empty method that does not reach the top of the address space. */
  predicate GoodSpan(start: Key, size: nat) {
    0 < size && start + size < TWO_64
  }

  /** isAddrIn, with the sum in uint64_t. */
  predicate IsAddrIn(m: Method, addr: Key) {
    m.start <= addr < (m.start + m.size) % TWO_64
  }

  /** isAddrIn means the code interval exactly when the interval stays below 2^64. */
  lemma IsAddrInExact(m: Method)
    requires 0 < m.size && m.start < TWO_64 && m.start + m.size <= TWO_64
    ensures (forall addr: Key :: IsAddrIn(m, addr) <==> m.start <= addr < m.start + m.size) <==>
            GoodSpan(m.start, m.size)
  {
    if !GoodSpan(m.start, m.size) {
      assert !IsAddrIn(m, m.start);
    }
  }

  function RangeOf(m: Method): Range<Method>
    requires 0 < m.size
  {
    Range(m.start, m.start + m.size - 1, m)
  }

  ghost predicate IsLive(c: Cache, m: Method) {
    m.id in c.groups && m.start in c.groups[m.id].byAddr && c.groups[m.id].byAddr[m.start] == m
  }

  // ----- One access each -----

  /** Find the group, or create it. */
  function WithGroup(c: Cache, id: MethodId): Cache {
    if id in c.groups then c else c.(groups := c.groups[id := EMPTY_GROUP])
  }

  /** ++_recent_version, in uint32_t. */
  function Number(c: Cache, id: MethodId, start: Key, size: nat): (Cache, Method)
    requires id in c.groups
  {
    var g := c.groups[id];
    var version := (g.recentVersion + 1) % TWO_32;
    (c.(groups := c.groups[id := g.(recentVersion := version, issued := g.issued + 1)]),
     Method(id, version, start, size, g.issued + 1))
  }

  function Publish(c: Cache, m: Method): Cache
    requires m.id in c.groups
  {
    var g := c.groups[m.id];
    c.(groups := c.groups[m.id := g.(byAddr := g.byAddr[m.start := m])])
  }

  function AddToRanges(c: Cache, m: Method): Cache
    requires 0 < m.size
  {
    c.(ranges := Emplace(c.ranges, RangeOf(m)))
  }

  /** The method that removeMethodByAddr deletes, if any. */
  function Found(c: Cache, id: MethodId, start: Key): Option<Method> {
    if id in c.groups && start in c.groups[id].byAddr then Some(c.groups[id].byAddr[start]) else None
  }

  function Unpublish(c: Cache, id: MethodId, start: Key): Cache
    requires id in c.groups
  {
    var g := c.groups[id];
    c.(groups := c.groups[id := g.(byAddr := g.byAddr - {start})])
  }

  // ----- Lookups -----

  datatype Query = ByAddr(addr: Key) | ById(id: MethodId)

  /** `answer` is a method of the group whose version no other exceeds; None for an empty group. */
  ghost predicate HasLargestVersion(g: Group, answer: Option<Method>) {
    match answer
    case None => g.byAddr == map[]
    case Some(m) =>
      && (exists a :: a in g.byAddr && g.byAddr[a] == m)
      && forall a :: a in g.byAddr ==> g.byAddr[a].version <= m.version
  }

  /** What the two getMethod functions may return. */
  ghost predicate CodeAnswers(c: Cache, q: Query, answer: Option<Method>) {
    match q
    case ByAddr(addr) => answer == GetData(c.ranges, addr)
    case ById(id) => if id in c.groups then HasLargestVersion(c.groups[id], answer) else answer == None
  }

  // ----- The objects -----

  /** The lock word is 0 or 1. */
  class SpinLock {
    var word: int

    constructor ()
      ensures word == 0
    {
      word := 0;
    }

    method TryLock() returns (ok: bool)
      modifies this
      ensures ok == (old(word) == 0)
      ensures word == if ok then 1 else old(word)
    {
      ok := word == 0;
      if ok {
        word := 1;
      }
    }

    method Unlock()
      modifies this
      ensures word == if old(word) == 1 then 0 else old(word)
    {
      if word == 1 {
        word := 0;
      }
    }

    predicate IsLocked()
      reads this
    {
      word > 0
    }
  }

  /** getMethodByVersion: version 0 asks for the most recent one. */
  method GetMethodByVersion(g: Group, version: nat) returns (found: Option<Method>)
    ensures version == 0 ==> HasLargestVersion(g, found)
    ensures version != 0 && found.Some? ==>
              found.value.version == version && exists a :: a in g.byAddr && g.byAddr[a] == found.value
    ensures version != 0 && found.None? ==> forall a :: a in g.byAddr ==> g.byAddr[a].version != version
  {
    found := None;
    var rest := g.byAddr.Keys;
    while rest != {}
      invariant rest <= g.byAddr.Keys
      invariant version == 0 ==>
                  if found.None? then rest == g.byAddr.Keys
                  else
                    && (exists a :: a in g.byAddr && g.byAddr[a] == found.value)
                    && forall a :: a in g.byAddr && a !in rest ==> g.byAddr[a].version <= found.value.version
      invariant version != 0 ==> found.None?
                                 && forall a :: a in g.byAddr && a !in rest ==> g.byAddr[a].version != version
      decreases rest
    {
      var a :| a in rest;
      var m := g.byAddr[a];
      rest := rest - {a};
      if version == 0 {
        if found.None? || found.value.version < m.version {
          found := Some(m);
        }
      } else if m.version == version {
        return Some(m);
      }
    }
    if version == 0 && found.None? {
      assert g.byAddr.Keys == {};
    }
  }

  class CodeCacheManager {
    var methodIdMap: map<MethodId, Group>
    const methodRangeSet: RangeSet<Method>
    const lock: SpinLock

    ghost function View(): Cache
      reads this, methodRangeSet
    {
      Cache(methodIdMap, methodRangeSet.startMap)
    }

    ghost predicate LockFree()
      reads lock
    {
      lock.word == 0
    }

    constructor ()
      ensures View() == EMPTY_CACHE && LockFree()
      ensures fresh(methodRangeSet) && fresh(lock)
    {
      methodIdMap := map[];
      var r := new RangeSet<Method>();
      methodRangeSet := r;
      var l := new SpinLock();
      lock := l;
    }

    /** addMethod up to where it lets go of the lock. */
    method BeginAdd(id: MethodId, start: Key, size: nat) returns (m: Method)
      requires LockFree()
      modifies this, lock
      ensures LockFree()
      ensures (View(), m) == Number(WithGroup(old(View()), id), id, start, size)
    {
      var _ := lock.TryLock();
      if id !in methodIdMap {
        methodIdMap := methodIdMap[id := EMPTY_GROUP];
      }
      var g := methodIdMap[id];
      var version := (g.recentVersion + 1) % TWO_32;
      methodIdMap := methodIdMap[id := g.(recentVersion := version, issued := g.issued + 1)];
      m := Method(id, version, start, size, g.issued + 1);
      assert lock.IsLocked();
      lock.Unlock();
    }

    /**
     The rest of addMethod, from where it takes the lock again. Answers false when the
     assertion in the constructor of the range fails, with the end computed in uint64_t.
     */
    method FinishAdd(m: Method) returns (ok: bool)
      requires LockFree() && m.id in methodIdMap
      modifies this, lock, methodRangeSet
      ensures var end := (m.start + m.size - 1) % TWO_64;
              && (ok <==> m.start <= end)
              && (ok ==> LockFree())
              && (ok ==>
                     View() == Publish(old(View()), m).(ranges := Emplace(old(View().ranges), Range(m.start, end, m))))
      ensures 0 < m.size && m.start + m.size <= TWO_64 ==> ok && View() == AddToRanges(Publish(old(View()), m), m)
    {
      var _ := lock.TryLock();
      var g := methodIdMap[m.id];
      methodIdMap := methodIdMap[m.id := g.(byAddr := g.byAddr[m.start := m])];
      var end := (m.start + m.size - 1) % TWO_64;
      if end < m.start {
        return false;
      }
      ok := methodRangeSet.Insert(m.start, end, m);
      lock.Unlock();
    }

    /** Answers false when the assertion that the range was there fails. */
    method RemoveMethod(id: MethodId, start: Key) returns (ok: bool)
      requires LockFree()
      modifies this, lock, methodRangeSet
      ensures LockFree()
      ensures var c := old(View());
              if id in c.groups then
                var (ranges, found) := RemoveAt(c.ranges, start);
                View() == Unpublish(c, id, start).(ranges := ranges) && ok == found
              else View() == c && ok
    {
      var _ := lock.TryLock();
      ok := true;
      if id in methodIdMap {
        var g := methodIdMap[id];
        if start in g.byAddr {
          methodIdMap := methodIdMap[id := g.(byAddr := g.byAddr - {start})];
        } else {
          assert g.byAddr - {start} == g.byAddr;
          assert methodIdMap == methodIdMap[id := g];
        }
        ok := methodRangeSet.Remove(start);
      }
      lock.Unlock();
    }

    method GetMethodByAddr(addr: Key) returns (m: Option<Method>)
      requires LockFree()
      modifies lock
      ensures LockFree() && CodeAnswers(View(), ByAddr(addr), m)
    {
      var _ := lock.TryLock();
      m := GetData(methodRangeSet.startMap, addr);
      lock.Unlock();
    }

    method GetMethodById(id: MethodId) returns (m: Option<Method>)
      requires LockFree()
      modifies lock
      ensures LockFree() && CodeAnswers(View(), ById(id), m)
    {
      var _ := lock.TryLock();
      if id !in methodIdMap {
        m := None;
      } else {
        m := GetMethodByVersion(methodIdMap[id], 0);
      }
      lock.Unlock();
    }
  }
}
