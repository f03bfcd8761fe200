/**
 Any number of threads adding, removing and looking up methods. Each step is one access to
 the lock word or to one shared table, in any interleaving; adding releases the lock midway.
 */
module CodeCacheProtocol {
  import opened Wrappers
  import opened WordArithmetic
  import opened RangeSets
  import opened CodeCache

  /** Where a thread is. A thread past `AddNumber` knows the method object it makes. */
  datatype Pc =
    | Idle
    | AddWait(id: MethodId, start: Key, size: nat)
    | AddFind(id: MethodId, start: Key, size: nat)
    | AddNumber(id: MethodId, start: Key, size: nat)
    | AddRelease(m: Method)
    | AddBuild(m: Method)
    | AddPublish(m: Method)
    | AddRange(m: Method)
    | AddUnlock
    | RemoveWait(rid: MethodId, rstart: Key)
    | RemoveFind(rid: MethodId, rstart: Key)
    | RemoveRange(rstart: Key, gone: Option<Method>)
    | RemoveUnlock
    | LookWait(q: Query)
    | LookRead(q: Query)
    | LookUnlock(q: Query, answer: Option<Method>)
    | Aborted

  /**
   `lock` is the lock word together with the thread whose compare-and-swap set it. `log` is
   history: every method ever numbered.
   */
  datatype State = State(lock: Option<nat>, cache: Cache, threads: seq<Pc>, log: set<Method>)

  datatype Event =
    | Begin(thread: nat, pc: Pc)
    | Go(thread: nat)
    | Answer(thread: nat, found: Option<Method>)

  function Init(threads: nat): State {
    State(None, EMPTY_CACHE, seq(threads, _ => Idle), {})
  }

  predicate Holds(pc: Pc) {
    pc.AddFind? || pc.AddNumber? || pc.AddRelease? || pc.AddPublish? || pc.AddRange? || pc.AddUnlock?
    || pc.RemoveFind? || pc.RemoveRange? || pc.RemoveUnlock? || pc.LookRead? || pc.LookUnlock?
  }

  function To(s: State, t: nat, pc: Pc): State
    requires t < |s.threads|
  {
    s.(threads := s.threads[t := pc])
  }

  /** One compare-and-swap on the lock word: the spinning thread goes on or tries again. */
  function Acquire(s: State, t: nat, pc: Pc): State
    requires t < |s.threads|
  {
    if s.lock.None? then To(s, t, pc).(lock := Some(t)) else s
  }

  function Release(s: State, t: nat, pc: Pc): State
    requires t < |s.threads|
  {
    To(s, t, pc).(lock := None)
  }

  /** The next access of thread `t`. */
  function Advance(s: State, t: nat): State
    requires t < |s.threads|
  {
    match s.threads[t]
    case AddWait(id, start, size) => Acquire(s, t, AddFind(id, start, size))
    case AddFind(id, start, size) => To(s, t, AddNumber(id, start, size)).(cache := WithGroup(s.cache, id))
    case AddNumber(id, start, size) =>
      if id !in s.cache.groups then To(s, t, Aborted)
      else
        var (c, m) := Number(s.cache, id, start, size);
        To(s, t, AddRelease(m)).(cache := c, log := s.log + {m})
    case AddRelease(m) => Release(s, t, AddBuild(m))
    case AddBuild(m) => Acquire(s, t, AddPublish(m))
    case AddPublish(m) =>
      if m.id !in s.cache.groups then To(s, t, Aborted)
      else To(s, t, AddRange(m)).(cache := Publish(s.cache, m))
    case AddRange(m) =>
      if !GoodSpan(m.start, m.size) then To(s, t, Aborted)
      else To(s, t, AddUnlock).(cache := AddToRanges(s.cache, m))
    case AddUnlock => Release(s, t, Idle)
    case RemoveWait(id, start) => Acquire(s, t, RemoveFind(id, start))
    case RemoveFind(id, start) =>
      if id !in s.cache.groups then To(s, t, RemoveUnlock)
      else To(s, t, RemoveRange(start, Found(s.cache, id, start))).(cache := Unpublish(s.cache, id, start))
    case RemoveRange(start, _) =>
      var (ranges, found) := RemoveAt(s.cache.ranges, start);
      if found then To(s, t, RemoveUnlock).(cache := s.cache.(ranges := ranges)) else To(s, t, Aborted)
    case RemoveUnlock => Release(s, t, Idle)
    case LookWait(q) => Acquire(s, t, LookRead(q))
    case LookUnlock(_, _) => Release(s, t, Idle)
    case _ => s
  }

  function Next(s: State, e: Event): State
    requires e.thread < |s.threads|
  {
    match e
    case Begin(t, pc) => To(s, t, pc)
    case Go(t) => Advance(s, t)
    case Answer(t, found) =>
      if s.threads[t].LookRead? then To(s, t, LookUnlock(s.threads[t].q, found)) else s
  }

  // ----- What the virtual machine promises -----

  datatype Span = Span(start: Key, size: nat)

  predicate Apart(a: Span, b: Span) {
    a.start + a.size <= b.start || b.start + b.size <= a.start
  }

  function SpanOf(m: Method): Span {
    Span(m.start, m.size)
  }

  /** The code a thread has been handed and has not published yet. */
  function Flight(pc: Pc): Option<Span> {
    match pc
    case AddWait(_, start, size) => Some(Span(start, size))
    case AddFind(_, start, size) => Some(Span(start, size))
    case AddNumber(_, start, size) => Some(Span(start, size))
    case AddRelease(m) => Some(SpanOf(m))
    case AddBuild(m) => Some(SpanOf(m))
    case AddPublish(m) => Some(SpanOf(m))
    case _ => None
  }

  predicate FlightApart(f: Option<Span>, b: Span) {
    f.Some? ==> Apart(f.value, b)
  }

  /** The method a thread is about to remove. */
  predicate Removing(pc: Pc) {
    pc.RemoveWait? || pc.RemoveFind?
  }

  /** The span is clear of every published method and of every other one on its way. */
  ghost predicate FreshSpan(s: State, span: Span) {
    && GoodSpan(span.start, span.size)
    && (forall m :: IsLive(s.cache, m) ==> Apart(span, SpanOf(m)))
    && (forall t :: 0 <= t < |s.threads| ==> FlightApart(Flight(s.threads[t]), span))
  }

  /** The removal names a published method that no other thread is removing. */
  ghost predicate NamesPublished(s: State, id: MethodId, start: Key) {
    && Found(s.cache, id, start).Some?
    && (forall t :: 0 <= t < |s.threads| && Removing(s.threads[t]) ==> s.threads[t].rstart != start)
  }

  ghost predicate MayBegin(s: State, pc: Pc) {
    match pc
    case AddWait(_, start, size) => FreshSpan(s, Span(start, size))
    case RemoveWait(id, start) => NamesPublished(s, id, start)
    case LookWait(_) => true
    case _ => false
  }

  ghost predicate Admissible(s: State, e: Event) {
    && e.thread < |s.threads|
    && match e
       case Begin(t, pc) => s.threads[t] == Idle && MayBegin(s, pc)
       case Go(_) => true
       case Answer(t, found) => s.threads[t].LookRead? ==> CodeAnswers(s.cache, s.threads[t].q, found)
  }

  // ----- What every step keeps -----

  ghost predicate LockOk(s: State) {
    && (forall t :: 0 <= t < |s.threads| ==> s.threads[t] != Aborted && (Holds(s.threads[t]) <==> s.lock == Some(t)))
    && (s.lock.Some? ==> s.lock.value < |s.threads|)
  }

  ghost predicate MethodOk(s: State, m: Method) {
    GoodSpan(m.start, m.size) && m in s.log
  }

  /** Every method is filed under its own id and address. */
  ghost predicate GroupsOk(s: State) {
    forall id, a :: id in s.cache.groups && a in s.cache.groups[id].byAddr ==>
      var m := s.cache.groups[id].byAddr[a]; m.id == id && m.start == a && MethodOk(s, m)
  }

  /** `m` was numbered: its serial is in use, and its version is that serial in uint32_t. */
  ghost predicate Numbered(c: Cache, m: Method) {
    && m.id in c.groups && 1 <= m.serial <= c.groups[m.id].issued
    && m.version == m.serial % TWO_32
  }

  ghost predicate Issued(log: set<Method>, id: MethodId, serial: nat) {
    exists m :: m in log && m.id == id && m.serial == serial
  }

  /** Within a group the serials 1 to `issued` are each in the log exactly once. */
  ghost predicate LogOk(s: State) {
    && (forall m :: m in s.log ==> Numbered(s.cache, m))
    && (forall m, n :: m in s.log && n in s.log && m.id == n.id && m.serial == n.serial ==> m == n)
    && (forall id :: id in s.cache.groups ==>
          s.cache.groups[id].recentVersion == s.cache.groups[id].issued % TWO_32)
    && (forall id, k: nat :: id in s.cache.groups && 1 <= k <= s.cache.groups[id].issued ==> Issued(s.log, id, k))
  }

  /** What the thread with the lock is doing. */
  function Holder(s: State): Pc {
    if s.lock.Some? && s.lock.value < |s.threads| then s.threads[s.lock.value] else Idle
  }

  /** Whether the range set lists `m`, given where the thread with the lock is. */
  ghost predicate Listed(c: Cache, holder: Pc, m: Method) {
    match holder
    case AddRange(x) => IsLive(c, m) && m != x
    case RemoveRange(_, gone) => IsLive(c, m) || Some(m) == gone
    case _ => IsLive(c, m)
  }

  ghost predicate RangesOk(c: Cache, holder: Pc) {
    && Disjoint(c.ranges)
    && (forall r :: r in c.ranges ==> r.data.size > 0 && r == RangeOf(r.data) && Listed(c, holder, r.data))
    && (forall m :: Listed(c, holder, m) ==> m.size > 0 && RangeOf(m) in c.ranges)
  }

  /** Live methods and methods on their way take up disjoint code. */
  ghost predicate LiveApart(s: State) {
    forall m, n :: IsLive(s.cache, m) && IsLive(s.cache, n) && m != n ==> Apart(SpanOf(m), SpanOf(n))
  }

  ghost predicate FlightsApartFromLive(s: State) {
    forall m, t :: IsLive(s.cache, m) && 0 <= t < |s.threads| ==> FlightApart(Flight(s.threads[t]), SpanOf(m))
  }

  ghost predicate FlightsApart(s: State) {
    forall t, u :: 0 <= t < |s.threads| && 0 <= u < |s.threads| && t != u && Flight(s.threads[u]).Some? ==>
      FlightApart(Flight(s.threads[t]), Flight(s.threads[u]).value)
  }

  ghost predicate RemovalsOk(s: State) {
    && (forall t :: 0 <= t < |s.threads| && Removing(s.threads[t]) ==>
          Found(s.cache, s.threads[t].rid, s.threads[t].rstart).Some?)
    && (forall t, u :: 0 <= t < |s.threads| && 0 <= u < |s.threads| && t != u
                       && Removing(s.threads[t]) && Removing(s.threads[u]) ==>
                         s.threads[t].rstart != s.threads[u].rstart)
  }

  /** Local facts of one thread. */
  ghost predicate ThreadOk(s: State, pc: Pc) {
    match pc
    case AddWait(_, start, size) => GoodSpan(start, size)
    case AddFind(_, start, size) => GoodSpan(start, size)
    case AddNumber(id, start, size) => GoodSpan(start, size) && id in s.cache.groups
    case AddRelease(m) => MethodOk(s, m)
    case AddBuild(m) => MethodOk(s, m)
    case AddPublish(m) => MethodOk(s, m)
    case AddRange(m) => MethodOk(s, m) && IsLive(s.cache, m)
    case RemoveRange(start, gone) =>
      gone.Some? && gone.value.start == start && MethodOk(s, gone.value) && !IsLive(s.cache, gone.value)
    case _ => true
  }

  ghost predicate ThreadsOk(s: State) {
    forall t :: 0 <= t < |s.threads| ==> ThreadOk(s, s.threads[t])
  }

  ghost predicate Inv(s: State) {
    && LockOk(s) && GroupsOk(s) && LogOk(s) && RangesOk(s.cache, Holder(s))
    && LiveApart(s) && FlightsApartFromLive(s) && FlightsApart(s) && RemovalsOk(s) && ThreadsOk(s)
  }

  // ----- Steps that leave the tables alone -----

  /** Between the two writes of an addition or a removal. */
  predicate MidWrite(pc: Pc) {
    pc.AddRange? || pc.RemoveRange?
  }

  /** `s'` is `s` with thread `t` moved on, the lock perhaps taken or released by it. */
  ghost predicate Moved(s: State, t: nat, s': State) {
    && t < |s.threads| && |s'.threads| == |s.threads|
    && (forall u :: 0 <= u < |s.threads| && u != t ==> s'.threads[u] == s.threads[u])
    && LockOk(s')
    && (s'.lock == s.lock || s'.lock == Some(t) || s.lock == Some(t))
  }

  /** The thread claims nothing it did not claim before. */
  predicate ClaimsNoMore(p: Pc, p': Pc) {
    && (Flight(p').Some? ==> Flight(p') == Flight(p))
    && (Removing(p') ==> Removing(p) && p'.rid == p.rid && p'.rstart == p.rstart)
  }

  lemma HolderSame(s: State, t: nat, s': State)
    requires LockOk(s) && Moved(s, t, s') && !MidWrite(s.threads[t]) && !MidWrite(s'.threads[t])
    ensures Holder(s) == Holder(s') || (!MidWrite(Holder(s)) && !MidWrite(Holder(s')))
  {
  }

  lemma SpansCarryOver(s: State, t: nat, s': State)
    requires Inv(s) && Moved(s, t, s') && ClaimsNoMore(s.threads[t], s'.threads[t])
    requires SameLive(s.cache, s'.cache)
    ensures LiveApart(s') && FlightsApartFromLive(s') && FlightsApart(s')
  {
  }

  lemma RemovalsCarryOver(s: State, t: nat, s': State)
    requires Inv(s) && Moved(s, t, s') && ClaimsNoMore(s.threads[t], s'.threads[t])
    requires forall u :: 0 <= u < |s'.threads| && Removing(s'.threads[u]) ==>
               Found(s'.cache, s'.threads[u].rid, s'.threads[u].rstart).Some?
    ensures RemovalsOk(s')
  {
  }

  /** The other threads' facts do not depend on what the thread with the lock writes. */
  lemma ThreadsCarryOver(s: State, t: nat, s': State)
    requires LockOk(s) && ThreadsOk(s) && Moved(s, t, s') && s.lock == Some(t)
    requires s.log <= s'.log && ThreadOk(s', s'.threads[t])
    ensures ThreadsOk(s')
  {
    forall u | 0 <= u < |s'.threads|
      ensures ThreadOk(s', s'.threads[u])
    {
      assert ThreadOk(s, s.threads[u]);
    }
  }

  /** Numbering facts depend on the counters only. */
  lemma LogCarriesOver(s: State, s': State)
    requires LogOk(s) && s'.log == s.log
    requires forall id :: id in s.cache.groups ==>
               && id in s'.cache.groups
               && s'.cache.groups[id].issued == s.cache.groups[id].issued
    requires forall id :: id in s'.cache.groups ==>
               if id in s.cache.groups then s'.cache.groups[id].recentVersion == s.cache.groups[id].recentVersion
               else s'.cache.groups[id] == EMPTY_GROUP
    ensures LogOk(s')
  {
    forall id, k: nat | id in s'.cache.groups && 1 <= k <= s'.cache.groups[id].issued
      ensures Issued(s'.log, id, k)
    {
      assert Issued(s.log, id, k);
    }
    assert forall m :: m in s.log ==> Numbered(s.cache, m);
  }

  lemma LiveIsOk(s: State, m: Method)
    requires GroupsOk(s) && IsLive(s.cache, m)
    ensures MethodOk(s, m)
  {
  }

  ghost predicate SameLive(c: Cache, c': Cache) {
    forall m :: IsLive(c', m) <==> IsLive(c, m)
  }

  /** Nothing is listed differently when neither the live methods nor the pending write change. */
  lemma RangesCarryOver(c: Cache, holder: Pc, c': Cache, holder': Pc)
    requires RangesOk(c, holder) && c'.ranges == c.ranges && SameLive(c, c')
    requires holder == holder' || (!MidWrite(holder) && !MidWrite(holder'))
    ensures RangesOk(c', holder')
  {
    assert forall m :: Listed(c', holder', m) <==> Listed(c, holder, m);
  }

  lemma MoveKeepsInv(s: State, t: nat, s': State)
    requires Inv(s) && Moved(s, t, s') && s'.cache == s.cache && s'.log == s.log
    requires !MidWrite(s.threads[t]) && !MidWrite(s'.threads[t])
    requires ClaimsNoMore(s.threads[t], s'.threads[t]) && ThreadOk(s', s'.threads[t])
    ensures Inv(s')
  {
    HolderSame(s, t, s');
    SpansCarryOver(s, t, s');
    RemovalsCarryOver(s, t, s');
    RangesCarryOver(s.cache, Holder(s), s'.cache, Holder(s'));
    assert ThreadsOk(s');
  }

  lemma BeginKeepsInv(s: State, t: nat, pc: Pc)
    requires Inv(s) && Admissible(s, Begin(t, pc))
    ensures Inv(To(s, t, pc))
  {
    var s' := To(s, t, pc);
    assert Moved(s, t, s');
    HolderSame(s, t, s');
    RangesCarryOver(s.cache, Holder(s), s'.cache, Holder(s'));
    BeginKeepsClaims(s, t, pc);
    BeginKeepsThreads(s, t, pc);
  }

  lemma BeginKeepsThreads(s: State, t: nat, pc: Pc)
    requires ThreadsOk(s) && t < |s.threads| && MayBegin(s, pc)
    ensures ThreadsOk(To(s, t, pc))
  {
    assert forall p :: ThreadOk(To(s, t, pc), p) <==> ThreadOk(s, p);
  }

  lemma BeginKeepsClaims(s: State, t: nat, pc: Pc)
    requires FlightsApartFromLive(s) && FlightsApart(s) && RemovalsOk(s)
    requires t < |s.threads| && s.threads[t] == Idle && MayBegin(s, pc)
    ensures FlightsApartFromLive(To(s, t, pc)) && FlightsApart(To(s, t, pc)) && RemovalsOk(To(s, t, pc))
  {
    var s' := To(s, t, pc);
    assert FlightsApartFromLive(s');
    assert FlightsApart(s');
    assert RemovalsOk(s');
  }

  // ----- The first half of an addition -----

  lemma FindKeepsInv(s: State, t: nat)
    requires Inv(s) && t < |s.threads| && s.threads[t].AddFind?
    ensures Inv(Advance(s, t))
  {
    var s', id := Advance(s, t), s.threads[t].id;
    assert Moved(s, t, s');
    assert SameLive(s.cache, s'.cache);
    assert forall i, a :: Found(s'.cache, i, a) == Found(s.cache, i, a);
    HolderSame(s, t, s');
    SpansCarryOver(s, t, s');
    RemovalsCarryOver(s, t, s');
    LogCarriesOver(s, s');
    RangesCarryOver(s.cache, Holder(s), s'.cache, Holder(s'));
    ThreadsCarryOver(s, t, s');
    FindKeepsGroups(s, s', id);
  }

  lemma FindKeepsGroups(s: State, s': State, id: MethodId)
    requires GroupsOk(s) && s'.log == s.log && s'.cache == WithGroup(s.cache, id)
    ensures GroupsOk(s')
  {
  }

  lemma NumberKeepsLog(s: State, t: nat)
    requires Inv(s) && t < |s.threads| && s.threads[t].AddNumber?
    ensures LogOk(Advance(s, t))
  {
    var s', id := Advance(s, t), s.threads[t].id;
    var m := Number(s.cache, id, s.threads[t].start, s.threads[t].size).1;
    assert s'.log == s.log + {m};
    assert (s.cache.groups[id].issued % TWO_32 + 1) % TWO_32 == (s.cache.groups[id].issued + 1) % TWO_32;
    assert m.serial == s'.cache.groups[id].issued;
    forall i, k: nat | i in s'.cache.groups && 1 <= k <= s'.cache.groups[i].issued
      ensures Issued(s'.log, i, k)
    {
      if i == id && k == m.serial {
        assert m in s'.log;
      } else {
        assert Issued(s.log, i, k);
        var n :| n in s.log && n.id == i && n.serial == k;
        assert n in s'.log;
      }
    }
  }

  lemma NumberKeepsInv(s: State, t: nat)
    requires Inv(s) && t < |s.threads| && s.threads[t].AddNumber?
    ensures Inv(Advance(s, t))
  {
    var s', id := Advance(s, t), s.threads[t].id;
    NumberKeepsLog(s, t);
    assert ThreadOk(s, s.threads[t]);
    assert Moved(s, t, s');
    assert SameLive(s.cache, s'.cache);
    assert forall i, a :: Found(s'.cache, i, a) == Found(s.cache, i, a);
    HolderSame(s, t, s');
    SpansCarryOver(s, t, s');
    RemovalsCarryOver(s, t, s');
    RangesCarryOver(s.cache, Holder(s), s'.cache, Holder(s'));
    ThreadsCarryOver(s, t, s');
    NumberKeepsGroups(s, s', id);
  }

  lemma NumberKeepsGroups(s: State, s': State, id: MethodId)
    requires GroupsOk(s) && s.log <= s'.log && id in s.cache.groups
    requires s'.cache.groups.Keys == s.cache.groups.Keys
    requires forall i :: i in s.cache.groups ==> s'.cache.groups[i].byAddr == s.cache.groups[i].byAddr
    ensures GroupsOk(s')
  {
  }

  // ----- The second half of an addition -----

  lemma PublishAddsOne(s: State, t: nat)
    requires Inv(s) && t < |s.threads| && s.threads[t].AddPublish?
    ensures var x, s' := s.threads[t].m, Advance(s, t);
            && !IsLive(s.cache, x) && x.id in s.cache.groups
            && (forall m :: IsLive(s'.cache, m) <==> IsLive(s.cache, m) || m == x)
            && (forall i, a :: Found(s.cache, i, a).Some? ==> Found(s'.cache, i, a).Some?)
  {
    var x, s' := s.threads[t].m, Advance(s, t);
    assert MethodOk(s, x) && Numbered(s.cache, x);
    assert Flight(s.threads[t]) == Some(SpanOf(x));
    forall m | IsLive(s.cache, m)
      ensures m.id != x.id || m.start != x.start
    {
      assert FlightApart(Flight(s.threads[t]), SpanOf(m));
    }
    if x.start in s.cache.groups[x.id].byAddr {
      assert IsLive(s.cache, s.cache.groups[x.id].byAddr[x.start]);
    }
    forall m
      ensures IsLive(s'.cache, m) <==> IsLive(s.cache, m) || m == x
    {
    }
  }

  lemma PublishKeepsSpans(s: State, t: nat)
    requires Inv(s) && t < |s.threads| && s.threads[t].AddPublish?
    ensures var s' := Advance(s, t); LiveApart(s') && FlightsApartFromLive(s') && FlightsApart(s')
  {
    var x, s' := s.threads[t].m, Advance(s, t);
    PublishAddsOne(s, t);
    PublishedIsApart(s, t);
    assert LiveApart(s');
    assert FlightsApartFromLive(s') by {
      assert forall u :: 0 <= u < |s'.threads| ==>
        Flight(s'.threads[u]) == if u == t then None else Flight(s.threads[u]);
    }
    assert FlightsApart(s') by {
      assert forall u :: 0 <= u < |s'.threads| ==>
        Flight(s'.threads[u]) == if u == t then None else Flight(s.threads[u]);
    }
  }

  lemma PublishedIsApart(s: State, t: nat)
    requires Inv(s) && t < |s.threads| && s.threads[t].AddPublish?
    ensures var x := SpanOf(s.threads[t].m);
            && (forall m :: IsLive(s.cache, m) ==> Apart(x, SpanOf(m)))
            && (forall u :: 0 <= u < |s.threads| && u != t ==> FlightApart(Flight(s.threads[u]), x))
  {
    assert Flight(s.threads[t]) == Some(SpanOf(s.threads[t].m));
    forall m | IsLive(s.cache, m)
      ensures Apart(SpanOf(s.threads[t].m), SpanOf(m))
    {
      assert FlightApart(Flight(s.threads[t]), SpanOf(m));
    }
  }

  lemma PublishKeepsInv(s: State, t: nat)
    requires Inv(s) && t < |s.threads| && s.threads[t].AddPublish?
    ensures Inv(Advance(s, t))
  {
    var x, s' := s.threads[t].m, Advance(s, t);
    PublishAddsOne(s, t);
    PublishKeepsSpans(s, t);
    assert Moved(s, t, s');
    RemovalsCarryOver(s, t, s');
    LogCarriesOver(s, s');
    assert ThreadOk(s, s.threads[t]);
    ThreadsCarryOver(s, t, s');
    PublishKeepsGroups(s, s', x);
    assert Holder(s) == AddPublish(x) && Holder(s') == AddRange(x);
    PublishKeepsRanges(s.cache, s'.cache, x);
  }

  lemma PublishKeepsGroups(s: State, s': State, x: Method)
    requires GroupsOk(s) && s'.log == s.log && x.id in s.cache.groups
    requires s'.cache == Publish(s.cache, x) && MethodOk(s, x)
    ensures GroupsOk(s')
  {
  }

  lemma PublishKeepsRanges(c: Cache, c': Cache, x: Method)
    requires RangesOk(c, AddPublish(x)) && c'.ranges == c.ranges && !IsLive(c, x)
    requires forall m :: IsLive(c', m) <==> IsLive(c, m) || m == x
    ensures RangesOk(c', AddRange(x))
  {
    assert forall m :: Listed(c', AddRange(x), m) <==> Listed(c, AddPublish(x), m);
  }

  lemma AddRangeKeepsRanges(s: State, t: nat)
    requires Inv(s) && t < |s.threads| && s.threads[t].AddRange?
    ensures RangesOk(Advance(s, t).cache, Holder(Advance(s, t)))
  {
    var x, s' := s.threads[t].m, Advance(s, t);
    assert Holder(s) == AddRange(x) && Holder(s') == AddUnlock;
    assert ThreadOk(s, s.threads[t]);
    assert SameLive(s.cache, s'.cache);
    forall m | Listed(s.cache, AddRange(x), m)
      ensures Apart(SpanOf(m), SpanOf(x))
    {
    }
    ListOne(s.cache, s'.cache, x);
  }

  lemma ListOne(c: Cache, c': Cache, x: Method)
    requires RangesOk(c, AddRange(x)) && IsLive(c, x) && GoodSpan(x.start, x.size)
    requires c' == AddToRanges(c, x)
    requires forall m :: Listed(c, AddRange(x), m) ==> Apart(SpanOf(m), SpanOf(x))
    ensures RangesOk(c', AddUnlock)
  {
    var r := RangeOf(x);
    forall q | q in c.ranges
      ensures q.end < r.start || r.end < q.start
    {
      assert Listed(c, AddRange(x), q.data);
    }
    EmplaceKeepsDisjoint(c.ranges, r);
    assert SameLive(c, c');
    assert forall m :: Listed(c', AddUnlock, m) <==> Listed(c, AddRange(x), m) || m == x;
  }

  lemma AddRangeKeepsInv(s: State, t: nat)
    requires Inv(s) && t < |s.threads| && s.threads[t].AddRange?
    ensures Inv(Advance(s, t))
  {
    var s' := Advance(s, t);
    assert ThreadOk(s, s.threads[t]);
    AddRangeKeepsRanges(s, t);
    TablesKept(s, t, s');
  }

  /** A step of the thread with the lock that writes the range set only. */
  lemma TablesKept(s: State, t: nat, s': State)
    requires Inv(s) && Moved(s, t, s') && s.lock == Some(t) && ClaimsNoMore(s.threads[t], s'.threads[t])
    requires s'.cache.groups == s.cache.groups && s'.log == s.log
    requires RangesOk(s'.cache, Holder(s')) && ThreadOk(s', s'.threads[t])
    ensures Inv(s')
  {
    assert SameLive(s.cache, s'.cache);
    SpansCarryOver(s, t, s');
    assert forall i, a :: Found(s'.cache, i, a) == Found(s.cache, i, a);
    RemovalsCarryOver(s, t, s');
    LogCarriesOver(s, s');
    ThreadsCarryOver(s, t, s');
    assert GroupsOk(s');
  }

  // ----- A removal -----

  lemma UnpublishTakesOne(s: State, t: nat)
    requires Inv(s) && t < |s.threads| && s.threads[t].RemoveFind?
    ensures var s', id, start := Advance(s, t), s.threads[t].rid, s.threads[t].rstart;
            && id in s.cache.groups
            && s'.threads[t].RemoveRange? && s'.threads[t].gone.Some?
            && var x := s'.threads[t].gone.value;
               && IsLive(s.cache, x) && x.id == id && x.start == start && MethodOk(s, x)
               && (forall m :: IsLive(s'.cache, m) <==> IsLive(s.cache, m) && m != x)
               && (forall i, a :: a != start ==> Found(s'.cache, i, a) == Found(s.cache, i, a))
  {
    var id, start := s.threads[t].rid, s.threads[t].rstart;
    assert Removing(s.threads[t]);
    assert Found(s.cache, id, start).Some?;
  }

  lemma UnpublishKeepsInv(s: State, t: nat)
    requires Inv(s) && t < |s.threads| && s.threads[t].RemoveFind?
    ensures Inv(Advance(s, t))
  {
    var s' := Advance(s, t);
    UnpublishTakesOne(s, t);
    var x := s'.threads[t].gone.value;
    assert Moved(s, t, s');
    UnpublishKeepsClaims(s, t, s', x);
    LogCarriesOver(s, s');
    UnpublishKeepsGroups(s, s', s.threads[t].rid, s.threads[t].rstart);
    assert Holder(s) == s.threads[t] && Holder(s') == s'.threads[t];
    UnpublishKeepsRanges(s.cache, Holder(s), s'.cache, x);
    ThreadsCarryOver(s, t, s');
  }

  lemma UnpublishKeepsClaims(s: State, t: nat, s': State, x: Method)
    requires Inv(s) && t < |s.threads| && s.threads[t].RemoveFind? && s' == Advance(s, t) && Moved(s, t, s')
    requires s'.threads[t].RemoveRange?
    requires forall m :: IsLive(s'.cache, m) <==> IsLive(s.cache, m) && m != x
    requires forall i, a :: a != s.threads[t].rstart ==> Found(s'.cache, i, a) == Found(s.cache, i, a)
    ensures LiveApart(s') && FlightsApartFromLive(s') && FlightsApart(s') && RemovalsOk(s')
  {
    forall u | 0 <= u < |s'.threads| && Removing(s'.threads[u])
      ensures Found(s'.cache, s'.threads[u].rid, s'.threads[u].rstart).Some?
    {
      assert u != t && Removing(s.threads[t]) && Removing(s.threads[u]);
      assert s.threads[u].rstart != s.threads[t].rstart;
    }
    RemovalsCarryOver(s, t, s');
  }

  lemma UnpublishKeepsGroups(s: State, s': State, id: MethodId, start: Key)
    requires GroupsOk(s) && s'.log == s.log && id in s.cache.groups && s'.cache == Unpublish(s.cache, id, start)
    ensures GroupsOk(s')
  {
  }

  lemma UnpublishKeepsRanges(c: Cache, holder: Pc, c': Cache, x: Method)
    requires RangesOk(c, holder) && !MidWrite(holder) && c'.ranges == c.ranges && IsLive(c, x)
    requires forall m :: IsLive(c', m) <==> IsLive(c, m) && m != x
    ensures RangesOk(c', RemoveRange(x.start, Some(x)))
  {
    assert forall m :: Listed(c', RemoveRange(x.start, Some(x)), m) <==> Listed(c, holder, m);
  }

  /** The assertion in removeMethod holds: the range is there. */
  lemma RemoveRangeKeepsRanges(s: State, t: nat)
    requires Inv(s) && t < |s.threads| && s.threads[t].RemoveRange?
    ensures var s' := Advance(s, t);
            RemoveAt(s.cache.ranges, s.threads[t].rstart).1 && RangesOk(s'.cache, Holder(s'))
  {
    assert ThreadOk(s, s.threads[t]);
    var start, x, s' := s.threads[t].rstart, s.threads[t].gone.value, Advance(s, t);
    assert Holder(s) == RemoveRange(start, Some(x));
    UnlistOne(s.cache, x);
    assert Holder(s') == RemoveUnlock;
  }

  lemma UnlistOne(c: Cache, x: Method)
    requires RangesOk(c, RemoveRange(x.start, Some(x))) && !IsLive(c, x)
    ensures var (ranges, found) := RemoveAt(c.ranges, x.start);
            found && RangesOk(c.(ranges := ranges), RemoveUnlock)
  {
    var ranges := RemoveAt(c.ranges, x.start).0;
    assert Listed(c, RemoveRange(x.start, Some(x)), x);
    assert RangeOf(x) in c.ranges && RangeOf(x).start == x.start;
    RemoveMembers(c.ranges, x.start);
    forall m
      ensures IsLive(c, m) <==> m.size > 0 && RangeOf(m) in ranges
    {
      UnlistedMember(c, x, ranges, m);
    }
    RangesByMembers(c, c.(ranges := ranges));
  }

  lemma UnlistedMember(c: Cache, x: Method, ranges: seq<Range<Method>>, m: Method)
    requires RangesOk(c, RemoveRange(x.start, Some(x))) && !IsLive(c, x) && x.size > 0 && RangeOf(x) in c.ranges
    requires forall s :: s in ranges <==> s in c.ranges && s.start != x.start
    ensures IsLive(c, m) <==> m.size > 0 && RangeOf(m) in ranges
  {
    OnlyOneStarts(c.ranges, x, m);
    assert Listed(c, RemoveRange(x.start, Some(x)), m) <==> IsLive(c, m) || m == x;
  }

  lemma RangesByMembers(c: Cache, c': Cache)
    requires c'.groups == c.groups && Disjoint(c'.ranges)
    requires forall r :: r in c'.ranges ==> r.data.size > 0 && r == RangeOf(r.data)
    requires forall m :: IsLive(c, m) <==> m.size > 0 && RangeOf(m) in c'.ranges
    ensures RangesOk(c', RemoveUnlock)
  {
    assert SameLive(c, c');
  }

  lemma OnlyOneStarts(es: seq<Range<Method>>, x: Method, m: Method)
    requires Disjoint(es) && x.size > 0 && RangeOf(x) in es
    ensures m.size > 0 && RangeOf(m) in es && m.start == x.start ==> m == x
  {
    StartFound(es, x.start);
  }

  lemma RemoveRangeKeepsInv(s: State, t: nat)
    requires Inv(s) && t < |s.threads| && s.threads[t].RemoveRange?
    ensures Inv(Advance(s, t))
  {
    RemoveRangeKeepsRanges(s, t);
    TablesKept(s, t, Advance(s, t));
  }

  // ----- All steps and all runs -----

  lemma AdvanceKeepsInv(s: State, t: nat)
    requires Inv(s) && t < |s.threads|
    ensures Inv(Advance(s, t))
  {
    var s' := Advance(s, t);
    match s.threads[t]
    case AddFind(_, _, _) => FindKeepsInv(s, t);
    case AddNumber(_, _, _) => NumberKeepsInv(s, t);
    case AddPublish(_) => PublishKeepsInv(s, t);
    case AddRange(_) => AddRangeKeepsInv(s, t);
    case RemoveFind(_, _) => UnpublishKeepsInv(s, t);
    case RemoveRange(_, _) => RemoveRangeKeepsInv(s, t);
    case AddWait(_, _, _) => QuietAdvance(s, t);
    case AddRelease(_) => QuietAdvance(s, t);
    case AddBuild(_) => QuietAdvance(s, t);
    case RemoveWait(_, _) => QuietAdvance(s, t);
    case LookWait(_) => QuietAdvance(s, t);
    case AddUnlock => MoveKeepsInv(s, t, s');
    case RemoveUnlock => MoveKeepsInv(s, t, s');
    case LookUnlock(_, _) => MoveKeepsInv(s, t, s');
    case _ =>
  }

  /** Taking the lock, failing to, or letting go of it in the middle of an addition. */
  lemma QuietAdvance(s: State, t: nat)
    requires Inv(s) && t < |s.threads|
    requires var p := s.threads[t];
             p.AddWait? || p.AddRelease? || p.AddBuild? || p.RemoveWait? || p.LookWait?
    ensures Inv(Advance(s, t))
  {
    var s' := Advance(s, t);
    assert ThreadOk(s, s.threads[t]);
    if s' != s {
      assert LockOk(s');
      assert ThreadOk(s', s'.threads[t]);
      MoveKeepsInv(s, t, s');
    }
  }

  lemma NextKeepsInv(s: State, e: Event)
    requires Inv(s) && Admissible(s, e)
    ensures Inv(Next(s, e))
  {
    match e
    case Begin(t, pc) => BeginKeepsInv(s, t, pc);
    case Go(t) => AdvanceKeepsInv(s, t);
    case Answer(t, found) =>
      if s.threads[t].LookRead? {
        MoveKeepsInv(s, t, Next(s, e));
      }
  }

  /** `states` is a run of the events from the initial state, under the promises above. */
  ghost predicate IsRun(threads: nat, events: seq<Event>, states: seq<State>) {
    && |states| == |events| + 1 && states[0] == Init(threads)
    && forall i :: 0 <= i < |events| ==> Admissible(states[i], events[i]) && states[i + 1] == Next(states[i], events[i])
  }

  lemma {:induction false} RunKeepsInv(threads: nat, events: seq<Event>, states: seq<State>, i: nat)
    requires IsRun(threads, events, states) && i < |states|
    ensures Inv(states[i])
  {
    if i == 0 {
      assert forall m :: !IsLive(EMPTY_CACHE, m);
    } else {
      RunKeepsInv(threads, events, states, i - 1);
      NextKeepsInv(states[i - 1], events[i - 1]);
    }
  }

  /** The two address indices describe the same live methods. */
  ghost predicate IndicesAgree(c: Cache) {
    && (forall m :: IsLive(c, m) <==> m.size > 0 && RangeOf(m) in c.ranges)
    && (forall r :: r in c.ranges ==> r.data.size > 0 && r == RangeOf(r.data))
    && (forall addr: Key, m :: GetData(c.ranges, addr) == Some(m) <==> IsLive(c, m) && IsAddrIn(m, addr))
  }

  /** No assertion fails in any run, and whenever the lock is free the indices agree. */
  lemma LockFreeAgreement(threads: nat, events: seq<Event>, states: seq<State>, i: nat)
    requires IsRun(threads, events, states) && i < |states|
    ensures forall t :: 0 <= t < |states[i].threads| ==> states[i].threads[t] != Aborted
    ensures states[i].lock.None? ==> IndicesAgree(states[i].cache)
  {
    RunKeepsInv(threads, events, states, i);
    if states[i].lock.None? {
      QuietAgreement(states[i]);
    }
  }

  lemma QuietAgreement(s: State)
    requires Inv(s) && !MidWrite(Holder(s))
    ensures IndicesAgree(s.cache)
  {
    assert forall m :: Listed(s.cache, Holder(s), m) <==> IsLive(s.cache, m);
    forall addr: Key, m
      ensures GetData(s.cache.ranges, addr) == Some(m) <==> IsLive(s.cache, m) && IsAddrIn(m, addr)
    {
      QuietLookup(s, addr, m);
    }
  }

  lemma QuietLookup(s: State, addr: Key, m: Method)
    requires GroupsOk(s) && RangesOk(s.cache, Holder(s)) && !MidWrite(Holder(s))
    ensures GetData(s.cache.ranges, addr) == Some(m) <==> IsLive(s.cache, m) && IsAddrIn(m, addr)
  {
    DataByMembers(s.cache.ranges, addr, m);
    QuietMember(s.cache, Holder(s), m);
    if IsLive(s.cache, m) {
      LiveIsOk(s, m);
      GoodSpanAddrIn(m, addr);
    }
  }

  lemma GoodSpanAddrIn(m: Method, addr: Key)
    requires GoodSpan(m.start, m.size)
    ensures IsAddrIn(m, addr) <==> m.start <= addr < m.start + m.size
  {
  }

  lemma QuietMember(c: Cache, holder: Pc, m: Method)
    requires RangesOk(c, holder) && !MidWrite(holder)
    ensures IsLive(c, m) <==> m.size > 0 && RangeOf(m) in c.ranges
  {
    assert Listed(c, holder, m) <==> IsLive(c, m);
  }

  lemma DataByMembers(es: seq<Range<Method>>, addr: Key, m: Method)
    requires Disjoint(es) && forall r :: r in es ==> r.data.size > 0 && r == RangeOf(r.data)
    ensures GetData(es, addr) == Some(m) <==> m.size > 0 && RangeOf(m) in es && m.start <= addr < m.start + m.size
  {
    GetRangeCorrect(es, addr);
    if m.size > 0 {
      GetRangeByMembers(es, addr, RangeOf(m));
    }
  }

  /** What a lookup must return, said about live methods only. */
  ghost predicate RightAnswer(c: Cache, q: Query, answer: Option<Method>) {
    match q
    case ByAddr(addr) =>
      (match answer
       case Some(m) => IsLive(c, m) && IsAddrIn(m, addr)
       case None => forall m :: IsLive(c, m) ==> !IsAddrIn(m, addr))
    case ById(id) =>
      (match answer
       case Some(m) => IsLive(c, m) && m.id == id
                       && forall n :: IsLive(c, n) && n.id == id ==> n.version <= m.version
       case None => forall m :: IsLive(c, m) ==> m.id != id)
  }

  /** Whatever the other threads are in the middle of, a lookup that has the lock answers rightly. */
  lemma LookupsAreRight(threads: nat, events: seq<Event>, states: seq<State>, i: nat)
    requires IsRun(threads, events, states) && i < |events|
    requires events[i].Answer? && states[i].threads[events[i].thread].LookRead?
    ensures RightAnswer(states[i].cache, states[i].threads[events[i].thread].q, events[i].found)
  {
    var s, t, found := states[i], events[i].thread, events[i].found;
    RunKeepsInv(threads, events, states, i);
    assert Holder(s) == s.threads[t];
    QuietAgreement(s);
    var c := s.cache;
    match s.threads[t].q
    case ByAddr(addr) =>
    case ById(id) =>
      if id in c.groups {
        forall n | IsLive(c, n) && n.id == id
          ensures n.start in c.groups[id].byAddr && c.groups[id].byAddr[n.start] == n
        {
        }
        if found.Some? {
          var a :| a in c.groups[id].byAddr && c.groups[id].byAddr[a] == found.value;
          assert IsLive(c, found.value);
        }
      }
  }

  // ----- Versions -----

  /** No two methods ever numbered in the group have the same version. */
  ghost predicate VersionsUnique(s: State, id: MethodId) {
    forall m, n :: m in s.log && n in s.log && m.id == id && n.id == id && m.version == n.version ==> m == n
  }

  /** Versions in a group are never reused, live or removed, exactly as long as 2^32 have been issued at most. */
  lemma VersionsUniqueExactly(threads: nat, events: seq<Event>, states: seq<State>, i: nat, id: MethodId)
    requires IsRun(threads, events, states) && i < |states| && id in states[i].cache.groups
    ensures VersionsUnique(states[i], id) <==> states[i].cache.groups[id].issued <= TWO_32
  {
    RunKeepsInv(threads, events, states, i);
    NumbersDecideVersions(states[i], id);
  }

  lemma NumbersDecideVersions(s: State, id: MethodId)
    requires LogOk(s) && id in s.cache.groups
    ensures VersionsUnique(s, id) <==> s.cache.groups[id].issued <= TWO_32
  {
    if s.cache.groups[id].issued <= TWO_32 {
      forall m, n | m in s.log && n in s.log && m.id == id && n.id == id && m.version == n.version
        ensures m == n
      {
        assert Numbered(s.cache, m) && Numbered(s.cache, n);
      }
    } else {
      assert Issued(s.log, id, 1) && Issued(s.log, id, TWO_32 + 1);
      var m :| m in s.log && m.id == id && m.serial == 1;
      var n :| n in s.log && n.id == id && n.serial == TWO_32 + 1;
      assert Numbered(s.cache, m) && Numbered(s.cache, n);
    }
  }

  /**
   While versions do not wrap, the live method with the largest version is the one whose
   addition was numbered last, in whatever order the additions were published.
   */
  lemma LargestVersionIsLatest(threads: nat, events: seq<Event>, states: seq<State>, i: nat, m: Method)
    requires IsRun(threads, events, states) && i < |states| && IsLive(states[i].cache, m)
    requires states[i].cache.groups[m.id].issued < TWO_32
    ensures (forall n :: IsLive(states[i].cache, n) && n.id == m.id ==> n.version <= m.version) <==>
            (forall n :: IsLive(states[i].cache, n) && n.id == m.id ==> n.serial <= m.serial)
  {
    RunKeepsInv(threads, events, states, i);
    LiveVersionsAreSerials(states[i], m.id);
  }

  lemma LiveVersionsAreSerials(s: State, id: MethodId)
    requires GroupsOk(s) && LogOk(s) && id in s.cache.groups && s.cache.groups[id].issued < TWO_32
    ensures forall n :: IsLive(s.cache, n) && n.id == id ==> n.version == n.serial
  {
    forall n | IsLive(s.cache, n) && n.id == id
      ensures n.version == n.serial
    {
      LiveVersion(s, n);
    }
  }

  lemma LiveVersion(s: State, n: Method)
    requires GroupsOk(s) && LogOk(s) && IsLive(s.cache, n)
    ensures n.version == n.serial % TWO_32 && 1 <= n.serial <= s.cache.groups[n.id].issued
  {
    LiveIsOk(s, n);
    assert Numbered(s.cache, n);
  }
}
