/**
 Particular runs of the code-cache protocol: what the bound on versions excludes does happen,
 and additions may be published out of order.
 */
module CodeCacheRuns {
  import opened Wrappers
  import opened WordArithmetic
  import RangeSets
  import opened CodeCache
  import opened CodeCacheProtocol

  /** Some admissible events lead from `s` to `s'`. */
  ghost predicate Leads(s: State, s': State) {
    exists events, states :: IsWay(s, events, states, s')
  }

  ghost predicate IsWay(s: State, events: seq<Event>, states: seq<State>, s': State) {
    && |states| == |events| + 1 && states[0] == s && states[|events|] == s'
    && forall i :: 0 <= i < |events| ==> Admissible(states[i], events[i]) && states[i + 1] == Next(states[i], events[i])
  }

  ghost predicate Reachable(threads: nat, s: State) {
    Leads(Init(threads), s)
  }

  lemma LeadsHere(s: State)
    ensures Leads(s, s)
  {
    assert IsWay(s, [], [s], s);
  }

  lemma LeadsOn(s: State, s': State, e: Event)
    requires Leads(s, s') && Admissible(s', e)
    ensures Leads(s, Next(s', e))
  {
    var events, states :| IsWay(s, events, states, s');
    assert IsWay(s, events + [e], states + [Next(s', e)], Next(s', e));
  }

  lemma LeadsFurther(a: State, b: State, c: State)
    requires Leads(a, b) && Leads(b, c)
    ensures Leads(a, c)
  {
    var events, states :| IsWay(a, events, states, b);
    var events', states' :| IsWay(b, events', states', c);
    assert IsWay(a, events + events', states + states'[1..], c);
  }

  /** Reachable states are the states of runs, so they have the invariant. */
  lemma ReachableInv(threads: nat, s: State)
    requires Reachable(threads, s)
    ensures Inv(s)
  {
    var events, states :| IsWay(Init(threads), events, states, s);
    RunKeepsInv(threads, events, states, |events|);
  }

  /** Thread `t` goes on for `n` steps, alone. */
  function Walk(s: State, t: nat, n: nat): (s': State)
    requires t < |s.threads|
    ensures |s'.threads| == |s.threads|
  {
    if n == 0 then s else Advance(Walk(s, t, n - 1), t)
  }

  lemma {:induction false} WalkLeads(s: State, t: nat, n: nat)
    requires t < |s.threads|
    ensures Leads(s, Walk(s, t, n))
  {
    if n == 0 {
      LeadsHere(s);
    } else {
      WalkLeads(s, t, n - 1);
      LeadsOn(s, Walk(s, t, n - 1), Go(t));
    }
  }

  lemma BeginAndWalk(s: State, t: nat, pc: Pc, n: nat)
    requires Admissible(s, Begin(t, pc))
    ensures Leads(s, Walk(To(s, t, pc), t, n))
  {
    LeadsHere(s);
    LeadsOn(s, s, Begin(t, pc));
    WalkLeads(To(s, t, pc), t, n);
    LeadsFurther(s, To(s, t, pc), Walk(To(s, t, pc), t, n));
  }

  /** A thread numbers a method and lets go of the lock. */
  lemma NumberFirst(s: State, t: nat, id: MethodId, start: RangeSets.Key, size: nat) returns (s': State, m: Method)
    requires t < |s.threads| && s.threads[t] == Idle && s.lock.None? && FreshSpan(s, Span(start, size))
    ensures Leads(s, s')
    ensures var (c, x) := Number(WithGroup(s.cache, id), id, start, size);
            m == x && s' == State(None, c, s.threads[t := AddBuild(m)], s.log + {m})
  {
    var pc := AddWait(id, start, size);
    var s0 := To(s, t, pc);
    BeginAndWalk(s, t, pc, 4);
    s' := Walk(s0, t, 4);
    assert Walk(s0, t, 1) == To(s0, t, AddFind(id, start, size)).(lock := Some(t));
    var s2 := Walk(s0, t, 2);
    assert s2 == To(Walk(s0, t, 1), t, AddNumber(id, start, size)).(cache := WithGroup(s.cache, id));
    m := Number(s2.cache, id, start, size).1;
    assert Walk(s0, t, 3).threads[t] == AddRelease(m);
    assert s'.threads == s.threads[t := AddBuild(m)];
  }

  /** It takes the lock again and publishes. */
  lemma PublishNext(s: State, t: nat, m: Method) returns (s': State)
    requires t < |s.threads| && s.threads[t] == AddBuild(m) && s.lock.None?
    requires m.id in s.cache.groups && GoodSpan(m.start, m.size)
    ensures Leads(s, s')
    ensures s' == To(s, t, Idle).(cache := AddToRanges(Publish(s.cache, m), m))
  {
    WalkLeads(s, t, 4);
    s' := Walk(s, t, 4);
    assert Walk(s, t, 1) == To(s, t, AddPublish(m)).(lock := Some(t));
    assert Walk(s, t, 2) == To(Walk(s, t, 1), t, AddRange(m)).(cache := Publish(s.cache, m));
    assert Walk(s, t, 3).threads[t] == AddUnlock;
    assert s'.threads == s.threads[t := Idle];
  }

  lemma RemoveWhole(threads: nat, s: State, t: nat, id: MethodId, start: RangeSets.Key) returns (s': State)
    requires Reachable(threads, s) && t < |s.threads| && s.threads[t] == Idle && s.lock.None?
    requires NamesPublished(s, id, start)
    ensures Leads(s, s')
    ensures s'.threads == s.threads && s'.lock.None?
    ensures s'.cache.groups == Unpublish(s.cache, id, start).groups
  {
    var pc := RemoveWait(id, start);
    var s0 := To(s, t, pc);
    assert Admissible(s, Begin(t, pc));
    BeginAndWalk(s, t, pc, 3);
    LeadsFurther(Init(threads), s, Walk(s0, t, 3));
    ReachableInv(threads, Walk(s0, t, 3));
    BeginAndWalk(s, t, pc, 4);
    s' := Walk(s0, t, 4);
    RemovalSteps(s0, t, id, start);
    assert s'.threads == s.threads[t := Idle] == s.threads;
  }

  /** The steps of a removal whose assertion holds. */
  lemma RemovalSteps(s: State, t: nat, id: MethodId, start: RangeSets.Key)
    requires t < |s.threads| && s.threads[t] == RemoveWait(id, start) && s.lock.None? && id in s.cache.groups
    requires Walk(s, t, 3).threads[t] != Aborted
    ensures var s' := Walk(s, t, 4);
            && s'.threads == s.threads[t := Idle] && s'.lock.None?
            && s'.cache.groups == Unpublish(s.cache, id, start).groups
  {
    assert Walk(s, t, 1) == To(s, t, RemoveFind(id, start)).(lock := Some(t));
    assert Walk(s, t, 2).threads[t].RemoveRange?;
    assert Walk(s, t, 3).threads[t] == RemoveUnlock;
  }

  // ----- Any number of additions -----

  /** Nothing is under way, and the one group has had `n` additions and holds `byAddr`. */
  ghost predicate Quiet(threads: nat, s: State, id: MethodId, n: nat, byAddr: map<RangeSets.Key, Method>) {
    && Reachable(threads, s) && s.lock.None? && |s.threads| == threads
    && (forall t :: 0 <= t < threads ==> s.threads[t] == Idle)
    && WithGroup(s.cache, id).groups == map[id := Group(n % TWO_32, n, byAddr)]
  }

  lemma StartsQuiet(threads: nat, id: MethodId)
    ensures Quiet(threads, Init(threads), id, 0, map[])
  {
    LeadsHere(Init(threads));
  }

  /** What can be found in a quiet state. */
  lemma QuietFound(threads: nat, s: State, id: MethodId, n: nat, byAddr: map<RangeSets.Key, Method>,
                   i: MethodId, a: RangeSets.Key)
    requires Quiet(threads, s, id, n, byAddr)
    ensures Found(s.cache, i, a) == if i == id && a in byAddr then Some(byAddr[a]) else None
  {
    var groups := WithGroup(s.cache, id).groups;
    assert groups[id].byAddr == byAddr;
    assert i in s.cache.groups ==> i in groups;
    assert id !in s.cache.groups ==> groups[id] == EMPTY_GROUP;
  }

  ghost predicate SpanFree(byAddr: map<RangeSets.Key, Method>, span: Span) {
    GoodSpan(span.start, span.size) && forall a :: a in byAddr ==> Apart(span, SpanOf(byAddr[a]))
  }

  lemma QuietSpan(threads: nat, s: State, id: MethodId, n: nat, byAddr: map<RangeSets.Key, Method>, span: Span)
    requires Quiet(threads, s, id, n, byAddr) && SpanFree(byAddr, span)
    ensures FreshSpan(s, span)
  {
    forall m | IsLive(s.cache, m)
      ensures Apart(span, SpanOf(m))
    {
      QuietFound(threads, s, id, n, byAddr, m.id, m.start);
    }
  }

  /** What addition number `n + 1` makes. */
  function Made(id: MethodId, n: nat, span: Span): Method {
    Method(id, (n + 1) % TWO_32, span.start, span.size, n + 1)
  }

  lemma AddOne(threads: nat, s: State, id: MethodId, n: nat, byAddr: map<RangeSets.Key, Method>, span: Span)
    returns (s': State)
    requires threads > 0 && Quiet(threads, s, id, n, byAddr) && SpanFree(byAddr, span)
    ensures Leads(s, s') && Quiet(threads, s', id, n + 1, byAddr[span.start := Made(id, n, span)])
  {
    QuietSpan(threads, s, id, n, byAddr, span);
    var s1, m := NumberFirst(s, 0, id, span.start, span.size);
    NumberOne(s.cache, id, n, byAddr, span);
    s' := PublishNext(s1, 0, m);
    PublishOne(s1.cache, id, n, byAddr, span);
    LeadsFurther(s, s1, s');
    LeadsFurther(Init(threads), s, s');
    assert s'.threads == s.threads;
  }

  lemma NumberOne(c: Cache, id: MethodId, n: nat, byAddr: map<RangeSets.Key, Method>, span: Span)
    requires WithGroup(c, id).groups == map[id := Group(n % TWO_32, n, byAddr)]
    ensures var (c', m) := Number(WithGroup(c, id), id, span.start, span.size);
            m == Made(id, n, span) && c'.groups == map[id := Group((n + 1) % TWO_32, n + 1, byAddr)]
  {
  }

  lemma PublishOne(c: Cache, id: MethodId, n: nat, byAddr: map<RangeSets.Key, Method>, span: Span)
    requires c.groups == map[id := Group((n + 1) % TWO_32, n + 1, byAddr)] && 0 < span.size
    ensures var m := Made(id, n, span);
            AddToRanges(Publish(c, m), m).groups ==
            map[id := Group((n + 1) % TWO_32, n + 1, byAddr[span.start := m])]
  {
  }

  /** Adding and removing again counts, and leaves the group's methods as they were. */
  lemma AddAndRemove(threads: nat, s: State, id: MethodId, n: nat, byAddr: map<RangeSets.Key, Method>, span: Span)
    returns (s': State)
    requires threads > 0 && Quiet(threads, s, id, n, byAddr) && SpanFree(byAddr, span) && span.start !in byAddr
    ensures Leads(s, s') && Quiet(threads, s', id, n + 1, byAddr)
  {
    var s1 := AddOne(threads, s, id, n, byAddr, span);
    QuietFound(threads, s1, id, n + 1, byAddr[span.start := Made(id, n, span)], id, span.start);
    s' := RemoveWhole(threads, s1, 0, id, span.start);
    LeadsFurther(s, s1, s');
    LeadsFurther(Init(threads), s1, s');
    assert byAddr[span.start := Made(id, n, span)] - {span.start} == byAddr;
  }

  lemma {:induction false} AddAndRemoveMany(threads: nat, s: State, id: MethodId, n: nat, more: nat,
                                            byAddr: map<RangeSets.Key, Method>, span: Span)
    returns (s': State)
    requires threads > 0 && Quiet(threads, s, id, n, byAddr) && SpanFree(byAddr, span) && span.start !in byAddr
    ensures Leads(s, s') && Quiet(threads, s', id, n + more, byAddr)
    decreases more
  {
    if more == 0 {
      LeadsHere(s);
      s' := s;
    } else {
      var s1 := AddAndRemove(threads, s, id, n, byAddr, span);
      s' := AddAndRemoveMany(threads, s1, id, n + 1, more - 1, byAddr, span);
      LeadsFurther(s, s1, s');
    }
  }

  /** A single thread can make any number of additions; so the bound on versions can be passed. */
  lemma AnyNumberIssued(threads: nat, id: MethodId, n: nat) returns (s: State)
    requires threads > 0
    ensures Reachable(threads, s)
    ensures n > 0 ==> id in s.cache.groups && s.cache.groups[id].issued == n
  {
    StartsQuiet(threads, id);
    s := AddAndRemoveMany(threads, Init(threads), id, 0, n, map[], Span(1, 1));
    assert id !in s.cache.groups ==> WithGroup(s.cache, id).groups[id] == EMPTY_GROUP;
  }

  /** The run in which addition number 2^32 + 1 is given version 1 again. */
  lemma VersionIsReused(threads: nat, id: MethodId) returns (s: State, m: Method, n: Method)
    requires threads > 0
    ensures Reachable(threads, s)
    ensures m in s.log && n in s.log && m.id == n.id == id
    ensures m.serial == 1 && n.serial == TWO_32 + 1 && m.version == n.version == 1
  {
    s := AnyNumberIssued(threads, id, TWO_32 + 1);
    ReachableInv(threads, s);
    assert Issued(s.log, id, 1) && Issued(s.log, id, TWO_32 + 1);
    m :| m in s.log && m.id == id && m.serial == 1;
    n :| n in s.log && n.id == id && n.serial == TWO_32 + 1;
    assert Numbered(s.cache, m) && Numbered(s.cache, n);
  }

  // ----- When the largest version is the latest -----

  /** Among the live methods of the group, largest version means numbered last. */
  ghost predicate LargestIsLatest(c: Cache, id: MethodId) {
    forall m :: IsLive(c, m) && m.id == id ==> (HasTopVersion(c, m) <==> HasTopSerial(c, m))
  }

  ghost predicate HasTopVersion(c: Cache, m: Method) {
    forall n :: IsLive(c, n) && n.id == m.id ==> n.version <= m.version
  }

  ghost predicate HasTopSerial(c: Cache, m: Method) {
    forall n :: IsLive(c, n) && n.id == m.id ==> n.serial <= m.serial
  }

  /**
   Looking for the largest version finds the latest addition in every run, exactly as long as
   the group has had fewer than 2^32 additions.
   */
  lemma LargestIsLatestExactly(threads: nat, id: MethodId, n: nat)
    requires threads > 0
    ensures (forall s :: Reachable(threads, s) && id in s.cache.groups && s.cache.groups[id].issued == n ==>
                           LargestIsLatest(s.cache, id)) <==> n < TWO_32
  {
    if n < TWO_32 {
      forall s | Reachable(threads, s) && id in s.cache.groups && s.cache.groups[id].issued == n
        ensures LargestIsLatest(s.cache, id)
      {
        FewAreInOrder(threads, s, id);
      }
    } else {
      var s, m, x := OldestWins(threads, id, n);
      assert HasTopVersion(s.cache, m) && !HasTopSerial(s.cache, m);
    }
  }

  lemma FewAreInOrder(threads: nat, s: State, id: MethodId)
    requires Reachable(threads, s) && id in s.cache.groups && s.cache.groups[id].issued < TWO_32
    ensures LargestIsLatest(s.cache, id)
  {
    var events, states :| IsWay(Init(threads), events, states, s);
    forall m | IsLive(s.cache, m) && m.id == id
      ensures HasTopVersion(s.cache, m) <==> HasTopSerial(s.cache, m)
    {
      LargestVersionIsLatest(threads, events, states, |events|, m);
    }
  }

  /** For every larger number of additions, a run in which an older live method has the largest version. */
  lemma OldestWins(threads: nat, id: MethodId, n: nat) returns (s: State, m: Method, x: Method)
    requires threads > 0 && n >= TWO_32
    ensures Reachable(threads, s) && id in s.cache.groups && s.cache.groups[id].issued == n
    ensures IsLive(s.cache, m) && IsLive(s.cache, x) && m.id == x.id == id
    ensures m.serial < x.serial && HasTopVersion(s.cache, m)
  {
    var s1 := OneLive(threads, id);
    m := OldMethod(id);
    var b := Span(2, 1);
    var s2 := AddAndRemoveMany(threads, s1, id, TWO_32 - 1, n - TWO_32, map[1 := m], b);
    s := AddOne(threads, s2, id, n - 1, map[1 := m], b);
    x := Made(id, n - 1, b);
    TwoLive(threads, s, id, n, m, x);
  }

  /** Addition number 2^32 - 1, whose version is the largest there is. */
  function OldMethod(id: MethodId): Method {
    Made(id, TWO_32 - 2, Span(1, 1))
  }

  lemma OneLive(threads: nat, id: MethodId) returns (s: State)
    requires threads > 0
    ensures Quiet(threads, s, id, TWO_32 - 1, map[1 := OldMethod(id)])
  {
    StartsQuiet(threads, id);
    var before := AddAndRemoveMany(threads, Init(threads), id, 0, TWO_32 - 2, map[], Span(1, 1));
    s := AddOne(threads, before, id, TWO_32 - 2, map[], Span(1, 1));
  }

  lemma TwoLive(threads: nat, s: State, id: MethodId, n: nat, m: Method, x: Method)
    requires Quiet(threads, s, id, n, map[1 := m][2 := x]) && n > 0
    requires m.id == x.id == id && m.start == 1 && x.start == 2 && x.version <= m.version
    ensures id in s.cache.groups && s.cache.groups[id].issued == n
    ensures IsLive(s.cache, m) && IsLive(s.cache, x) && HasTopVersion(s.cache, m)
  {
    var byAddr := map[1 := m][2 := x];
    QuietFound(threads, s, id, n, byAddr, id, 1);
    QuietFound(threads, s, id, n, byAddr, id, 2);
    assert s.cache.groups[id] == Group(n % TWO_32, n, byAddr);
    forall y | IsLive(s.cache, y) && y.id == id
      ensures y.version <= m.version
    {
      QuietFound(threads, s, id, n, byAddr, id, y.start);
    }
  }

  // ----- Publishing out of order -----

  /**
   Two threads: the one that was given version 2 publishes while the other is still in its
   unlocked window, and version 1 is published after it. Version 2 stays the answer by id.
   */
  lemma LaterVersionPublishedFirst(id: MethodId) returns (s: State, s': State, one: Method, two: Method)
    ensures Reachable(2, s) && Leads(s, s')
    ensures one.id == two.id == id && one.version == 1 && two.version == 2
    ensures s.threads == [AddBuild(one), Idle] && IsLive(s.cache, two) && !IsLive(s.cache, one)
    ensures s'.threads == [Idle, Idle] && IsLive(s'.cache, two) && IsLive(s'.cache, one)
    ensures CodeAnswers(s'.cache, ById(id), Some(two)) && !CodeAnswers(s'.cache, ById(id), Some(one))
  {
    var s2;
    s2, one, two := BothNumbered(id);
    s := PublishNext(s2, 1, two);
    LeadsFurther(Init(2), s2, s);
    PublishGroups(s2.cache, id, map[], two);
    s' := PublishNext(s, 0, one);
    PublishGroups(s.cache, id, map[2 := two], one);
    var byAddr := map[2 := two][1 := one];
    assert byAddr[2] == two && byAddr[1] == one;
  }

  lemma PublishGroups(c: Cache, id: MethodId, byAddr: map<RangeSets.Key, Method>, m: Method)
    requires c.groups == map[id := Group(2, 2, byAddr)] && m.id == id && 0 < m.size
    ensures AddToRanges(Publish(c, m), m).groups == map[id := Group(2, 2, byAddr[m.start := m])]
  {
  }

  lemma BothNumbered(id: MethodId) returns (s: State, one: Method, two: Method)
    ensures Reachable(2, s)
    ensures one == Method(id, 1, 1, 1, 1) && two == Method(id, 2, 2, 1, 2)
    ensures s.threads == [AddBuild(one), AddBuild(two)] && s.lock.None?
    ensures s.cache.groups == map[id := Group(2, 2, map[])]
  {
    var s0 := Init(2);
    LeadsHere(s0);
    var s1;
    s1, one := NumberFirst(s0, 0, id, 1, 1);
    NextNumber(s0.cache, id, 1, 1, 0);
    s, two := NumberFirst(s1, 1, id, 2, 1);
    NextNumber(s1.cache, id, 2, 1, 1);
    LeadsFurther(s0, s1, s);
  }

  lemma NextNumber(c: Cache, id: MethodId, start: RangeSets.Key, size: nat, n: nat)
    requires n < 2 && c.groups == if n == 0 then map[] else map[id := Group(n, n, map[])]
    ensures var (c', m) := Number(WithGroup(c, id), id, start, size);
            m == Method(id, n + 1, start, size, n + 1) && c'.groups == map[id := Group(n + 1, n + 1, map[])]
  {
  }
}
