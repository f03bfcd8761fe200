/**
 The kernel fills the ring while the consumer reads and skips. Steps are single memory
 accesses, in any interleaving: the kernel writes a byte ahead of the head or publishes the
 head; the consumer loads the head, copies one byte, or stores the tail.
 */
module PerfProtocol {
  import opened WordArithmetic
  import opened PerfRing

  /** Where the consumer is. `seen` is the head it loaded and `seenAt`, history, its stream position. */
  datatype Pc =
    | Idle
    | Checking(n: Word, seen: Word, seenAt: nat)
    | Copying(n: Word, got: seq<Byte>)
    | Skipping(n: Word, seen: Word, seenAt: nat)

  /**
   `produced` and `pending` are the stream: bytes published and bytes written ahead of the
   head. Two positions in it are history: `at`, for which the tail stands, and `due`, at which
   it would be had every read and skip passed the bytes asked for, as far as they were there.
   */
  datatype State = State(ring: Ring, produced: seq<Byte>, pending: seq<Byte>, at: nat, due: nat, pc: Pc)

  datatype Event =
    | Write(b: Byte)
    | Publish(count: nat)
    | StartRead(n: Word)
    | StartSkip(m: Word)
    | Go

  function Init(data: seq<Byte>): State {
    State(Ring(data, 0, 0), [], [], 0, 0, Idle)
  }

  function Written(s: State): nat {
    |s.produced| + |s.pending|
  }

  /** Where byte `i` of an `n`-byte read comes from: the right piece, or the left edge after it. */
  function CopyIndex(size: nat, offset: nat, n: nat, i: nat): int {
    var atRight := size - offset;
    var right := if atRight < n then atRight else n;
    if i < right then offset + i else i - right
  }

  /** The position of a tail moved on by `m`, which goes round when that is past what was seen. */
  function Moved(at: nat, m: Word, seenAt: nat): nat {
    if at + m <= seenAt then at + m else if TWO_64 <= at + m then at + m - TWO_64 else at
  }

  function Consume(s: State): State {
    match s.pc
    case Checking(n, seen, _) =>
      if n > Minus(seen, s.ring.tail) then s.(pc := Idle) else s.(pc := Copying(n, []))
    case Copying(n, got) =>
      if |got| < n then
        if s.ring.data == [] then s
        else
          var i := CopyIndex(|s.ring.data|, Offset(s.ring), n, |got|);
          if 0 <= i < |s.ring.data| then s.(pc := Copying(n, got + [s.ring.data[i]])) else s
      else s.(ring := s.ring.(tail := Plus(s.ring.tail, n)), at := s.at + n, due := s.due + n, pc := Idle)
    case Skipping(n, seen, seenAt) =>
      var available := Minus(seen, s.ring.tail);
      var m := if Plus(s.ring.tail, n) > seen then available else n;
      s.(ring := s.ring.(tail := Plus(s.ring.tail, m)), at := Moved(s.at, m, seenAt),
         due := s.due + (if n <= available then n else available), pc := Idle)
    case Idle => s
  }

  function Next(s: State, e: Event): State {
    match e
    case Write(b) =>
      if s.ring.data == [] then s
      else
        var i := Written(s) % |s.ring.data|;
        s.(ring := s.ring.(data := s.ring.data[i := b]), pending := s.pending + [b])
    case Publish(n) =>
      if |s.pending| < n then s
      else
        s.(ring := s.ring.(head := (s.ring.head + n) % TWO_64),
           produced := s.produced + s.pending[..n],
           pending := s.pending[n..])
    case StartRead(n) => s.(pc := Checking(n, s.ring.head, |s.produced|))
    case StartSkip(n) => s.(pc := Skipping(n, s.ring.head, |s.produced|))
    case Go => Consume(s)
  }

  /**
   The kernel writes only up to a buffer ahead of the tail it sees, and publishes any part of
   what it has written; the consumer is one thread.
   */
  predicate Admissible(s: State, e: Event) {
    match e
    case Write(_) => Minus(Written(s) % TWO_64, s.ring.tail) < |s.ring.data|
    case Publish(_) => true
    case StartRead(_) => s.pc.Idle?
    case StartSkip(_) => s.pc.Idle?
    case Go => true
  }

  /** The skip that the event completes fails the condition of `SkipExact` for the head it loaded. */
  predicate FailingSkip(s: State, e: Event) {
    e.Go? && s.pc.Skipping? && !SkipsWell(s.ring.(head := s.pc.seen), s.pc.n)
  }

  /** Nothing from the tail on has been written over. */
  predicate Room(s: State) {
    Written(s) <= s.at + |s.ring.data|
  }

  predicate InStep(s: State) {
    s.at == s.due
  }

  // ----- What every step keeps -----

  /** The buffer holds the last bytes of the stream. */
  ghost predicate InRing(data: seq<Byte>, stream: seq<Byte>) {
    data != [] && forall i :: 0 <= i < |stream| <= i + |data| ==> data[i % |data|] == stream[i]
  }

  /** `got` is the beginning of what is at the tail. */
  predicate Fresh(s: State, got: seq<Byte>) {
    s.at + |got| <= |s.produced| && got == s.produced[s.at..s.at + |got|]
  }

  predicate PcOk(s: State) {
    match s.pc
    case Idle => true
    case Checking(_, seen, seenAt) => s.at <= seenAt <= |s.produced| && seen == seenAt % TWO_64
    case Skipping(_, seen, seenAt) => s.at <= seenAt <= |s.produced| && seen == seenAt % TWO_64
    case Copying(n, got) => |got| <= n && s.at + n <= |s.produced| && (Room(s) ==> Fresh(s, got))
  }

  ghost predicate Inv(s: State, k: nat) {
    && k < 31 && |s.ring.data| == Pow2(k) && s.at <= |s.produced|
    && s.ring.head == |s.produced| % TWO_64 && s.ring.tail == s.at % TWO_64
    && InRing(s.ring.data, s.produced + s.pending)
    && PcOk(s)
  }

  lemma WriteKeepsInv(s: State, k: nat, b: Byte)
    requires Inv(s, k) && Admissible(s, Write(b))
    ensures Inv(Next(s, Write(b)), k)
    ensures Room(s) ==> Room(Next(s, Write(b)))
  {
    var s' := Next(s, Write(b));
    var stream, stream', size := s.produced + s.pending, s'.produced + s'.pending, |s.ring.data|;
    assert stream' == stream + [b];
    forall i | 0 <= i < |stream'| <= i + size
      ensures s'.ring.data[i % size] == stream'[i]
    {
      if i < |stream| {
        OffsetsDiffer(i, |stream|, size);
      }
    }
    SizeBound(k);
    if Room(s) {
      WrappedDistance(Written(s), s.at);
    }
  }

  lemma PublishKeepsInv(s: State, k: nat, n: nat)
    requires Inv(s, k)
    ensures Inv(Next(s, Publish(n)), k)
    ensures Room(s) ==> Room(Next(s, Publish(n)))
  {
    var s' := Next(s, Publish(n));
    if |s.pending| < n {
      return;
    }
    assert s'.produced + s'.pending == s.produced + s.pending;
    HeadStep(|s.produced|, n);
    if s.pc.Copying? {
      var at, g := s.at, |s.pc.got|;
      assert s'.produced[at..at + g] == s.produced[at..at + g];
    }
  }

  lemma HeadStep(x: nat, n: nat)
    ensures (x % TWO_64 + n) % TWO_64 == (x + n) % TWO_64
  {
    var q, r := x / TWO_64, x % TWO_64;
    DivModUnique(x + n, TWO_64, q + (r + n) / TWO_64, (r + n) % TWO_64);
  }

  /** The wrapped difference never shows more than there is. */
  lemma DifferenceBound(x: nat, y: nat)
    requires y <= x
    ensures Minus(x % TWO_64, y % TWO_64) <= x - y
    ensures x < y + TWO_64 ==> Minus(x % TWO_64, y % TWO_64) == x - y
  {
    if x < y + TWO_64 {
      WrappedDistance(x, y);
    }
  }

  /** The check sees at most what has been published. */
  lemma CheckKeepsInv(s: State, k: nat)
    requires Inv(s, k) && s.pc.Checking?
    ensures Inv(Next(s, Go), k)
  {
    DifferenceBound(s.pc.seenAt, s.at);
    assert s.produced[s.at..s.at + 0] == [];
  }

  /** With room, the byte copied is the next one of the stream, whatever the kernel wrote meanwhile. */
  lemma CopyKeepsInv(s: State, k: nat)
    requires Inv(s, k) && s.pc.Copying? && |s.pc.got| < s.pc.n
    ensures Inv(Next(s, Go), k)
    ensures Room(s) ==> Next(s, Go).pc == Copying(s.pc.n, s.pc.got + [s.produced[s.at + |s.pc.got|]])
  {
    var at, g, size := s.at, |s.pc.got|, |s.ring.data|;
    if Room(s) {
      OffsetIsRemainder(s.ring, k);
      OffsetOfWrapped(at, k);
      OffsetStep(at, g, size);
      assert CopyIndex(size, Offset(s.ring), s.pc.n, g) == (at + g) % size;
      assert (s.produced + s.pending)[at + g] == s.produced[at + g];
      assert s.produced[at..at + (g + 1)] == s.produced[at..at + g] + [s.produced[at + g]];
    }
  }

  /** Moving the tail hands over exactly the bytes copied. */
  lemma CommitKeepsInv(s: State, k: nat)
    requires Inv(s, k) && s.pc.Copying? && |s.pc.got| == s.pc.n
    ensures Inv(Next(s, Go), k)
    ensures Room(s) ==> Fresh(s, s.pc.got) && Room(Next(s, Go))
  {
    WrappedStep(s.at, s.pc.n);
  }

  /** After any skip the tail stands for a position of the published stream. */
  lemma SkipKeepsInv(s: State, k: nat)
    requires Inv(s, k) && s.pc.Skipping?
    ensures Inv(Next(s, Go), k)
  {
    var at, tail, n, seen := s.at, s.ring.tail, s.pc.n, s.pc.seen;
    DifferenceBound(s.pc.seenAt, at);
    var m := if Plus(tail, n) > seen then Minus(seen, tail) else n;
    WrappedStep(at, m);
    if s.pc.seenAt < at + m {
      assert tail + m >= TWO_64 && tail <= at;
      SameWord(at + m - TWO_64);
    }
  }

  lemma SameWord(x: nat)
    ensures (x + TWO_64) % TWO_64 == x % TWO_64
  {
    DivModUnique(x + TWO_64, TWO_64, x / TWO_64 + 1, x % TWO_64);
  }

  lemma NextKeepsInv(s: State, k: nat, e: Event)
    requires Inv(s, k) && Admissible(s, e)
    ensures Inv(Next(s, e), k)
  {
    match e
    case Write(b) => WriteKeepsInv(s, k, b);
    case Publish(n) => PublishKeepsInv(s, k, n);
    case StartRead(_) =>
    case StartSkip(_) =>
    case Go =>
      match s.pc {
        case Idle =>
        case Checking(_, _, _) => CheckKeepsInv(s, k);
        case Copying(n, got) =>
          if |got| < n {
            CopyKeepsInv(s, k);
          } else {
            CommitKeepsInv(s, k);
          }
        case Skipping(_, _, _) => SkipKeepsInv(s, k);
      }
  }

  // ----- Skips that fail -----

  /**
   What a skip does for the head it loaded: it passes what it was asked to, as far as that was
   there, or, with the head wrapped and the sum not, goes to the head and loses what is between,
   or, with the sum carried and the head not wrapped, goes back to bytes already passed.
   */
  lemma SkipEffect(s: State, k: nat)
    requires Inv(s, k) && Room(s) && s.pc.Skipping?
    ensures var s', n, available := Next(s, Go), s.pc.n, s.pc.seenAt - s.at;
            && s'.due == s.due + (if n <= available then n else available)
            && (!FailingSkip(s, Go) ==> s'.at == s.at + if n <= available then n else available)
            && (FailingSkip(s, Go) ==> n != available)
            && (FailingSkip(s, Go) && n < available ==> s'.at == s.pc.seenAt)
            && (FailingSkip(s, Go) && n > available ==> s'.at == s.at + n - TWO_64 < s.at)
  {
    SizeBound(k);
    WrappedDistance(s.pc.seenAt, s.at);
  }

  /** Only a skip that goes back can leave the tail where bytes have been written over. */
  predicate Overrun(s: State, e: Event) {
    && FailingSkip(s, e) && s.pc.seenAt < s.at + s.pc.n
    && s.at + s.pc.n + |s.ring.data| < Written(s) + TWO_64
  }

  lemma RoomKeptExactly(s: State, k: nat, e: Event)
    requires Inv(s, k) && Room(s) && Admissible(s, e)
    ensures Room(Next(s, e)) <==> !Overrun(s, e)
  {
    match e
    case Write(b) => WriteKeepsInv(s, k, b);
    case Publish(n) => PublishKeepsInv(s, k, n);
    case StartRead(_) =>
    case StartSkip(_) =>
    case Go =>
      if s.pc.Skipping? {
        SkipEffect(s, k);
      }
  }

  /** A step leaves the tail where it is due exactly when it is no failing skip. */
  lemma StepInStep(s: State, k: nat, e: Event)
    requires Inv(s, k) && Room(s) && InStep(s) && Admissible(s, e)
    ensures InStep(Next(s, e)) <==> !FailingSkip(s, e)
    ensures !FailingSkip(s, e) ==> Room(Next(s, e))
  {
    RoomKeptExactly(s, k, e);
    if e.Go? && s.pc.Skipping? {
      SkipEffect(s, k);
    }
  }

  // ----- Whole runs -----

  ghost predicate IsRun(data: seq<Byte>, events: seq<Event>, states: seq<State>) {
    && |states| == |events| + 1 && states[0] == Init(data)
    && forall i :: 0 <= i < |events| ==> Admissible(states[i], events[i]) && states[i + 1] == Next(states[i], events[i])
  }

  lemma {:induction false} RunKeepsInv(data: seq<Byte>, k: nat, events: seq<Event>, states: seq<State>, i: nat)
    requires k < 31 && |data| == Pow2(k) && IsRun(data, events, states) && i < |states|
    ensures Inv(states[i], k)
  {
    if i > 0 {
      RunKeepsInv(data, k, events, states, i - 1);
      NextKeepsInv(states[i - 1], k, events[i - 1]);
    }
  }

  /** None of the first `i` events completes a skip that fails. */
  predicate SkipsAllWell(events: seq<Event>, states: seq<State>, i: nat)
    requires i <= |events| <= |states|
  {
    forall j :: 0 <= j < i ==> !FailingSkip(states[j], events[j])
  }

  lemma {:induction false} WellRunsInStep(data: seq<Byte>, k: nat, events: seq<Event>, states: seq<State>, i: nat)
    requires k < 31 && |data| == Pow2(k) && IsRun(data, events, states) && i <= |events|
    requires SkipsAllWell(events, states, i)
    ensures InStep(states[i]) && Room(states[i])
  {
    if i > 0 {
      WellRunsInStep(data, k, events, states, i - 1);
      RunKeepsInv(data, k, events, states, i - 1);
      StepInStep(states[i - 1], k, events[i - 1]);
    }
  }

  /**
   In every interleaving the tail has always been where the bytes read and skipped put it, none
   lost and none passed twice, if and only if no skip failed the condition of `SkipExact` for
   the head it loaded.
   */
  lemma InStepExactly(data: seq<Byte>, k: nat, events: seq<Event>, states: seq<State>, i: nat)
    requires k < 31 && |data| == Pow2(k) && IsRun(data, events, states) && i <= |events|
    ensures (forall j :: 0 <= j <= i ==> InStep(states[j])) <==> SkipsAllWell(events, states, i)
  {
    if SkipsAllWell(events, states, i) {
      forall j | 0 <= j <= i
        ensures InStep(states[j])
      {
        WellRunsInStep(data, k, events, states, j);
      }
    } else {
      var f := FirstFailing(events, states, i);
      WellRunsInStep(data, k, events, states, f);
      RunKeepsInv(data, k, events, states, f);
      StepInStep(states[f], k, events[f]);
      assert !InStep(states[f + 1]);
    }
  }

  lemma {:induction false} FirstFailing(events: seq<Event>, states: seq<State>, i: nat) returns (f: nat)
    requires i <= |events| <= |states| && !SkipsAllWell(events, states, i)
    ensures f < i && FailingSkip(states[f], events[f]) && SkipsAllWell(events, states, f)
  {
    if SkipsAllWell(events, states, i - 1) {
      f := i - 1;
    } else {
      f := FirstFailing(events, states, i - 1);
    }
  }

  /**
   The bytes a finishing read hands over are the next `n` of the stream, unless some of them
   have been written over; without failing skips none have.
   */
  lemma ReadReturnsNextBytes(data: seq<Byte>, k: nat, events: seq<Event>, states: seq<State>, i: nat)
    requires k < 31 && |data| == Pow2(k) && IsRun(data, events, states) && i < |events|
    requires events[i].Go? && states[i].pc.Copying? && |states[i].pc.got| == states[i].pc.n
    ensures var at, n := states[i].at, states[i].pc.n;
            && (SkipsAllWell(events, states, i) ==> Room(states[i]) && at == states[i].due)
            && at + n <= |states[i].produced| && states[i + 1].at == at + n
            && (Room(states[i]) ==> states[i].pc.got == states[i].produced[at..at + n])
  {
    RunKeepsInv(data, k, events, states, i);
    if SkipsAllWell(events, states, i) {
      WellRunsInStep(data, k, events, states, i);
    }
  }

  /** What is published stays published, and the tail stays within it. */
  lemma {:induction false} ProducedGrows(data: seq<Byte>, k: nat, events: seq<Event>, states: seq<State>,
                                         i: nat, j: nat)
    requires k < 31 && |data| == Pow2(k) && IsRun(data, events, states) && i <= j < |states|
    ensures states[i].produced <= states[j].produced && states[j].at <= |states[j].produced|
    decreases j
  {
    RunKeepsInv(data, k, events, states, j);
    if i < j {
      ProducedGrows(data, k, events, states, i, j - 1);
    }
  }
}
