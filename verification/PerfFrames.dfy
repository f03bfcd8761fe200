/**
 The drain loop on the records that the kernel writes for the events of this program. The event
 asks for a call chain too, so a sample record is longer than the fields the reader takes, and
 the loop comes to the rest of it as if it were a header.
 */
module PerfFrames {
  import opened WordArithmetic
  import opened PerfRing
  import opened PerfRecords
  import opened D = PerfDrain
  import P = PerfProtocol

  // ----- Records by their own size -----

  /** Read as a header, what is at `p` has size 0 and is no sample: the loop drops what it sees. */
  predicate StopsAt(s: seq<Byte>, p: nat) {
    p + HEADER_SIZE <= |s| && DecodeHeader(s, p).kind != RECORD_SAMPLE && DecodeHeader(s, p).size == 0
  }

  function SampleEnd(t: nat, st: SampleType): nat {
    t + HEADER_SIZE + SampleSize(st)
  }

  function FrameEnd(s: seq<Byte>, t: nat): nat {
    if t + HEADER_SIZE <= |s| then t + DecodeHeader(s, t).size else t
  }

  predicate IsSample(s: seq<Byte>, t: nat) {
    t + HEADER_SIZE <= |s| && DecodeHeader(s, t).kind == RECORD_SAMPLE
  }

  /** A complete record. If it is a sample longer than what is read, the rest stops the loop. */
  predicate FrameAt(s: seq<Byte>, t: nat, st: SampleType) {
    && t + HEADER_SIZE <= FrameEnd(s, t) <= |s|
    && (IsSample(s, t) ==>
          SampleEnd(t, st) == FrameEnd(s, t) ||
          (SampleEnd(t, st) + HEADER_SIZE <= FrameEnd(s, t) && StopsAt(s, SampleEnd(t, st))))
  }

  /** From `t` on the stream is such records. */
  predicate Framed(s: seq<Byte>, t: nat, st: SampleType)
    decreases |s| - t
  {
    t == |s| || (FrameAt(s, t, st) && Framed(s, FrameEnd(s, t), st))
  }

  /** Record by record `t` leads to `b`. */
  predicate Leads(s: seq<Byte>, t: nat, b: nat, st: SampleType)
    decreases b - t
  {
    t == b || (FrameAt(s, t, st) && FrameEnd(s, t) <= b && Leads(s, FrameEnd(s, t), b, st))
  }

  /** A position between two records, counted from the beginning of the stream. */
  predicate Boundary(s: seq<Byte>, b: nat, st: SampleType) {
    b <= |s| && Leads(s, 0, b, st)
  }

  lemma FrameKept(s: seq<Byte>, s': seq<Byte>, t: nat, st: SampleType)
    requires FrameAt(s, t, st) && s <= s'
    ensures FrameAt(s', t, st) && FrameEnd(s', t) == FrameEnd(s, t) && IsSample(s', t) == IsSample(s, t)
  {
    HeaderKept(s, s', t);
    if SampleEnd(t, st) + HEADER_SIZE <= |s| {
      HeaderKept(s, s', SampleEnd(t, st));
    }
  }

  lemma {:induction false} LeadsGrows(s: seq<Byte>, s': seq<Byte>, t: nat, b: nat, st: SampleType)
    requires Leads(s, t, b, st) && s <= s'
    ensures Leads(s', t, b, st)
    decreases b - t
  {
    if t < b {
      FrameKept(s, s', t, st);
      LeadsGrows(s, s', FrameEnd(s, t), b, st);
    }
  }

  lemma {:induction false} LeadsNext(s: seq<Byte>, t: nat, b: nat, st: SampleType)
    requires Leads(s, t, b, st) && FrameAt(s, b, st)
    ensures Leads(s, t, FrameEnd(s, b), st)
    decreases b - t
  {
    if t < b {
      LeadsNext(s, FrameEnd(s, t), b, st);
    }
  }

  lemma {:induction false} FramedFrom(s: seq<Byte>, t: nat, b: nat, st: SampleType)
    requires Framed(s, t, st) && Leads(s, t, b, st)
    ensures Framed(s, b, st)
    decreases b - t
  {
    if t < b {
      FramedFrom(s, FrameEnd(s, t), b, st);
    }
  }

  lemma {:induction false} LeadsToEnd(s: seq<Byte>, t: nat, st: SampleType)
    requires Framed(s, t, st)
    ensures Leads(s, t, |s|, st)
    decreases |s| - t
  {
    if t != |s| {
      LeadsToEnd(s, FrameEnd(s, t), st);
    }
  }

  lemma BoundaryNext(s: seq<Byte>, b: nat, st: SampleType)
    requires Framed(s, 0, st) && Boundary(s, b, st) && b < |s|
    ensures FrameAt(s, b, st) && Boundary(s, FrameEnd(s, b), st)
  {
    FramedFrom(s, 0, b, st);
    LeadsNext(s, 0, b, st);
  }

  // ----- The loop on such a stream -----

  /** Behind what is read of a longer sample record. */
  predicate Inside(s: seq<Byte>, u: nat, st: SampleType) {
    && SampleEnd(0, st) <= u
    && var b := u - SampleEnd(0, st);
       Boundary(s, b, st) && FrameAt(s, b, st) && IsSample(s, b) && u < FrameEnd(s, b)
  }

  /** At a record of which the loop has seen the end. */
  predicate AtFrame(s: seq<Byte>, u: nat, st: SampleType) {
    Boundary(s, u, st) && FrameAt(s, u, st)
  }

  predicate FrameOk(s: seq<Byte>, pc: P.Pc, ctl: Ctl, st: SampleType, u: nat) {
    match ctl
    case GotFields(_, _, _) => AtFrame(s, u, st)
    case AwaitField(_, _, _) => AtFrame(s, u, st) && (pc.Checking? ==> FrameEnd(s, u) <= pc.seenAt)
    case AwaitRecord(_) =>
      AtFrame(s, u, st) && pc.Skipping? && FrameEnd(s, u) <= pc.seenAt && Boundary(s, pc.seenAt, st)
    case SkipAll(_) => true
    case SkipNow(_, n) => Boundary(s, u + n, st)
    case AwaitSkip(_) => pc.Skipping? && Boundary(s, u + pc.n, st) && Boundary(s, pc.seenAt, st)
    case Aborted => false
    case _ => Boundary(s, u, st) || Inside(s, u, st)
  }

  predicate Framing(s: State, st: SampleType) {
    FrameOk(s.base.produced, s.base.pc, s.ctl, st, Start(s))
  }

  lemma BoundaryKept(s: seq<Byte>, s': seq<Byte>, b: nat, st: SampleType)
    requires Boundary(s, b, st) && s <= s'
    ensures Boundary(s', b, st)
    ensures FrameAt(s, b, st) ==>
              FrameAt(s', b, st) && FrameEnd(s', b) == FrameEnd(s, b) && IsSample(s', b) == IsSample(s, b)
  {
    LeadsGrows(s, s', 0, b, st);
    if FrameAt(s, b, st) {
      FrameKept(s, s', b, st);
    }
  }

  lemma InsideKept(s: seq<Byte>, s': seq<Byte>, u: nat, st: SampleType)
    requires Inside(s, u, st) && s <= s'
    ensures Inside(s', u, st)
  {
    BoundaryKept(s, s', u - SampleEnd(0, st), st);
  }

  lemma FrameOkGrows(s: seq<Byte>, s': seq<Byte>, pc: P.Pc, ctl: Ctl, st: SampleType, u: nat)
    requires FrameOk(s, pc, ctl, st, u) && s <= s'
    ensures FrameOk(s', pc, ctl, st, u)
  {
    match ctl
    case SkipAll(_) =>
    case SkipNow(_, n) => BoundaryKept(s, s', u + n, st);
    case AwaitSkip(_) =>
      BoundaryKept(s, s', u + pc.n, st);
      BoundaryKept(s, s', pc.seenAt, st);
    case AwaitRecord(_) =>
      BoundaryKept(s, s', u, st);
      BoundaryKept(s, s', pc.seenAt, st);
    case _ =>
      if Boundary(s, u, st) {
        BoundaryKept(s, s', u, st);
      } else {
        InsideKept(s, s', u, st);
      }
  }

  /** A step within a record: the loop stays at the same record, and has seen as much of it. */
  predicate Stays(s: State, s': State) {
    && s'.base.produced == s.base.produced && Start(s') == Start(s)
    && match s'.ctl
       case TakeHeader => s.ctl.Top?
       case AwaitHeader => s.ctl.TakeHeader? || s.ctl.AwaitHeader?
       case GotHeader(_) => s.ctl.AwaitHeader?
       case GotFields(_, _, _) => s.ctl.GotFields? || s.ctl.AwaitField?
       case AwaitField(_, _, _) =>
         || (s.ctl.GotFields? && (s'.base.pc.Checking? ==> s'.base.pc.seenAt == |s.base.produced|))
         || (s.ctl.AwaitField? && (s'.base.pc.Checking? ==> s'.base.pc == s.base.pc))
       case SkipAll(_) => true
       case _ => false
  }

  lemma StaysKeepsFraming(s: State, s': State, st: SampleType)
    requires Framing(s, st) && Stays(s, s')
    ensures Framing(s', st)
  {
  }

  lemma HeaderStays(s: State, st: SampleType)
    requires Placed(s, st) && s.ctl.AwaitHeader? && ReadStep(s.base, P.Next(s.base, P.Go))
    ensures Stays(s, Loop(s, st))
  {
  }

  /** The field to be read is within what has been published of the record. */
  lemma FieldIsThere(s: State, st: SampleType)
    requires Placed(s, st) && Framing(s, st) && s.ctl.AwaitField? && s.base.pc.Checking?
    ensures s.base.at + s.ctl.rest[0] <= s.base.pc.seenAt
  {
    FieldBound(s.ctl.got, s.ctl.rest, st);
  }

  lemma FieldBound(got: seq<Byte>, rest: seq<nat>, st: SampleType)
    requires |got| + Sum(rest) == SampleSize(st) && rest != []
    ensures |got| + rest[0] <= SampleSize(st) <= 28
  {
    assert Sum(rest) == rest[0] + Sum(rest[1..]);
  }

  lemma FieldStays(s: State, st: SampleType)
    requires Placed(s, st) && s.ctl.AwaitField? && ReadStep(s.base, P.Next(s.base, P.Go))
    requires s.base.pc.Checking? ==> s.base.at + s.ctl.rest[0] <= s.base.pc.seenAt
    ensures Stays(s, Loop(s, st))
  {
  }

  lemma NextFieldStays(s: State, st: SampleType)
    requires Placed(s, st) && s.ctl.GotFields? && s.ctl.rest != []
    ensures Stays(s, Loop(s, st))
  {
    FieldBound(s.ctl.got, s.ctl.rest, st);
  }

  lemma ReadStays(s: State, k: nat, st: SampleType)
    requires PlaceInv(s, k, st) && Framing(s, st) && (s.ctl.AwaitHeader? || s.ctl.AwaitField?)
    ensures Stays(s, Loop(s, st)) && Loop(s, st).places == s.places
  {
    ReadGoes(s.base, k);
    if s.ctl.AwaitHeader? {
      HeaderStays(s, st);
    } else {
      if s.base.pc.Checking? {
        FieldIsThere(s, st);
      }
      FieldStays(s, st);
    }
  }

  lemma ReadKeepsFraming(s: State, k: nat, st: SampleType)
    requires PlaceInv(s, k, st) && Framing(s, st) && (s.ctl.AwaitHeader? || s.ctl.AwaitField?)
    ensures Framing(Loop(s, st), st)
  {
    ReadStays(s, k, st);
    StaysKeepsFraming(s, Loop(s, st), st);
  }

  /** Where the loop goes with all that has been published. */
  predicate Looks(s: State, s': State) {
    var left := |s.base.produced| - s.base.at;
    && s'.base == s.base
    && if left == 0 then s'.ctl.Done? || s'.ctl.Top?
       else if s.ctl.Top? then s'.ctl.TakeHeader? || s'.ctl.SkipAll?
       else s'.ctl.SkipNow? && s'.ctl.n == left
  }

  lemma RemainingLooks(s: State, k: nat, st: SampleType)
    requires PlaceInv(s, k, st) && (s.ctl.Top? || s.ctl.SkipAll?)
    ensures Looks(s, Loop(s, st))
  {
    RemainingIsUnread(s.base, k);
  }

  lemma LooksKeepsFraming(s: State, s': State, st: SampleType)
    requires Framing(s, st) && Framed(s.base.produced, 0, st) && (s.ctl.Top? || s.ctl.SkipAll?) && Looks(s, s')
    requires s.base.at <= |s.base.produced|
    ensures Framing(s', st)
  {
    LeadsToEnd(s.base.produced, 0, st);
  }

  lemma RemainingKeepsFraming(s: State, k: nat, st: SampleType)
    requires PlaceInv(s, k, st) && Framing(s, st) && Framed(s.base.produced, 0, st) && (s.ctl.Top? || s.ctl.SkipAll?)
    ensures Framing(Loop(s, st), st)
  {
    RemainingLooks(s, k, st);
    LooksKeepsFraming(s, Loop(s, st), st);
  }

  /** A sample or a record to skip stands at its beginning, and it has been published whole. */
  lemma GotHeaderKeepsFraming(s: State, st: SampleType)
    requires Placed(s, st) && Framing(s, st) && Framed(s.base.produced, 0, st) && s.ctl.GotHeader?
    ensures Framing(Loop(s, st), st)
  {
    var u, produced := Start(s), s.base.produced;
    if !Inside(produced, u, st) {
      BoundaryNext(produced, u, st);
      LeadsToEnd(produced, 0, st);
      ShortBound(produced, u + 6);
    } else {
      assert StopsAt(produced, u);
    }
  }

  lemma FieldsEndKeepsFraming(s: State, s': State, st: SampleType)
    requires Placed(s, st) && Framing(s, st) && s.ctl.GotFields? && HandsOn(s, s', st)
    ensures Framing(s', st)
  {
    SampleEndIsPlace(s.base.produced, Start(s), st);
  }

  lemma SampleEndIsPlace(s: seq<Byte>, u: nat, st: SampleType)
    requires AtFrame(s, u, st) && IsSample(s, u)
    ensures Boundary(s, SampleEnd(u, st), st) || Inside(s, SampleEnd(u, st), st)
  {
    LeadsNext(s, 0, u, st);
  }

  lemma GotFieldsKeepsFraming(s: State, st: SampleType)
    requires Placed(s, st) && Framing(s, st) && s.ctl.GotFields?
    ensures Framing(Loop(s, st), st)
  {
    if s.ctl.rest == [] {
      FieldsHandOn(s, st);
      FieldsEndKeepsFraming(s, Loop(s, st), st);
    } else {
      NextFieldStays(s, st);
      StaysKeepsFraming(s, Loop(s, st), st);
    }
  }

  lemma AwaitRecordKeepsFraming(s: State, k: nat, st: SampleType)
    requires PlaceInv(s, k, st) && Framing(s, st) && s.ctl.AwaitRecord?
    ensures Framing(Loop(s, st), st) && P.Room(Loop(s, st).base)
    ensures Loop(s, st).base.at == FrameEnd(s.base.produced, Start(s)) ||
            (P.FailingSkip(s.base, P.Go) && Loop(s, st).base.at == s.base.pc.seenAt)
  {
    RecordPassed(s, k, st, FrameEnd(s.base.produced, Start(s)));
    PassedKeepsFraming(s, Loop(s, st), st);
  }

  /** The skip goes to the end of the record, or, failing, to the head it loaded. */
  lemma RecordPassed(s: State, k: nat, st: SampleType, end: nat)
    requires PlaceInv(s, k, st) && s.ctl.AwaitRecord? && end == Start(s) + s.ctl.h.size
    requires HEADER_SIZE <= s.ctl.h.size && end <= s.base.pc.seenAt
    ensures var s' := Loop(s, st);
            && s'.ctl.Top? && s'.base.produced == s.base.produced && P.Room(s'.base)
            && (s'.base.at == end || (P.FailingSkip(s.base, P.Go) && s'.base.at == s.base.pc.seenAt))
  {
    P.SkipEffect(s.base, k);
  }

  lemma PassedKeepsFraming(s: State, s': State, st: SampleType)
    requires Framing(s, st) && s.ctl.AwaitRecord? && s'.ctl.Top? && s'.base.produced == s.base.produced
    requires s'.base.at == FrameEnd(s.base.produced, Start(s)) || s'.base.at == s.base.pc.seenAt
    ensures Framing(s', st)
  {
    LeadsNext(s.base.produced, 0, Start(s), st);
  }

  lemma AwaitSkipKeepsFraming(s: State, k: nat, st: SampleType)
    requires PlaceInv(s, k, st) && Framing(s, st) && s.ctl.AwaitSkip?
    ensures Framing(Loop(s, st), st)
  {
    AwaitSkipKeepsPlace(s, k, st);
  }

  lemma LoopKeepsFraming(s: State, k: nat, st: SampleType)
    requires PlaceInv(s, k, st) && Framing(s, st) && Framed(s.base.produced, 0, st)
    ensures Framing(Loop(s, st), st)
  {
    match s.ctl
    case Top => RemainingKeepsFraming(s, k, st);
    case SkipAll(_) => RemainingKeepsFraming(s, k, st);
    case AwaitHeader => ReadKeepsFraming(s, k, st);
    case GotHeader(_) => GotHeaderKeepsFraming(s, st);
    case GotFields(_, _, _) => GotFieldsKeepsFraming(s, st);
    case AwaitField(_, _, _) => ReadKeepsFraming(s, k, st);
    case AwaitRecord(_) => AwaitRecordKeepsFraming(s, k, st);
    case SkipNow(_, _) => LeadsToEnd(s.base.produced, 0, st);
    case AwaitSkip(_) => AwaitSkipKeepsFraming(s, k, st);
    case _ =>
  }

  lemma LoopKeepsRoom(s: State, k: nat, st: SampleType)
    requires PlaceInv(s, k, st) && Framing(s, st)
    ensures P.Room(Loop(s, st).base)
  {
    RoomKeptExactly(s, k, Step, st);
  }

  // ----- What is handed on -----

  /** The first `n` places are beginnings of sample records. */
  predicate AreRecords(s: seq<Byte>, st: SampleType, places: seq<nat>, n: nat) {
    && n <= |places|
    && (n == 0 || (AtFrame(s, places[n - 1], st) && IsSample(s, places[n - 1]) && AreRecords(s, st, places, n - 1)))
  }

  lemma {:induction false} RecordsGrow(s: seq<Byte>, s': seq<Byte>, st: SampleType,
                                       places: seq<nat>, places': seq<nat>, n: nat)
    requires AreRecords(s, st, places, n) && s <= s' && places <= places'
    ensures AreRecords(s', st, places', n)
    decreases n
  {
    if n > 0 {
      BoundaryKept(s, s', places[n - 1], st);
      RecordsGrow(s, s', st, places, places', n - 1);
    }
  }

  lemma {:induction false} RecordOf(s: seq<Byte>, st: SampleType, places: seq<nat>, n: nat, i: nat)
    requires AreRecords(s, st, places, n) && i < n
    ensures AtFrame(s, places[i], st) && IsSample(s, places[i])
    decreases n
  {
    if i < n - 1 {
      RecordOf(s, st, places, n - 1, i);
    }
  }

  predicate RecordsHanded(s: State, st: SampleType) {
    AreRecords(s.base.produced, st, s.places, |s.places|)
  }

  lemma LoopKeepsRecords(s: State, k: nat, st: SampleType)
    requires PlaceInv(s, k, st) && Framing(s, st) && RecordsHanded(s, st) && P.Room(Loop(s, st).base)
    ensures RecordsHanded(Loop(s, st), st)
  {
    LoopKeepsPlace(s, k, st);
    var s' := Loop(s, st);
    if s'.places != s.places {
      RecordsGrow(s.base.produced, s.base.produced, st, s.places, s'.places, |s.places|);
      OnlyFieldsHandOn(s, st);
    }
  }

  lemma OnlyFieldsHandOn(s: State, st: SampleType)
    requires Loop(s, st).places != s.places
    ensures s.ctl.GotFields?
  {
  }

  lemma KernelKeepsFraming(s: State, e: P.Event, st: SampleType)
    requires Framing(s, st) && RecordsHanded(s, st) && (e.Write? || e.Publish?)
    ensures Framing(Next(s, Kernel(e), st), st) && RecordsHanded(Next(s, Kernel(e), st), st)
  {
    BaseGrows(s.base, e);
    FramingGrows(s, P.Next(s.base, e), st);
  }

  lemma FramingGrows(s: State, b': P.State, st: SampleType)
    requires Framing(s, st) && RecordsHanded(s, st)
    requires s.base.produced <= b'.produced && b'.pc == s.base.pc && b'.at == s.base.at
    ensures Framing(s.(base := b'), st) && RecordsHanded(s.(base := b'), st)
  {
    FrameOkGrows(s.base.produced, b'.produced, b'.pc, s.ctl, st, Start(s));
    RecordsGrow(s.base.produced, b'.produced, st, s.places, s.places, |s.places|);
  }

  ghost predicate FramedInv(s: State, k: nat, st: SampleType) {
    Inv(s, k, st) && Framing(s, st) && RecordsHanded(s, st)
  }

  lemma NextKeepsFraming(s: State, k: nat, e: Event, st: SampleType)
    requires PlaceInv(s, k, st) && Framing(s, st) && RecordsHanded(s, st)
    requires Admissible(s, e) && Framed(s.base.produced, 0, st)
    ensures Framing(Next(s, e, st), st) && RecordsHanded(Next(s, e, st), st) && P.Room(Next(s, e, st).base)
  {
    match e
    case Kernel(x) =>
      P.RoomKeptExactly(s.base, k, x);
      KernelKeepsFraming(s, x, st);
    case Signal =>
    case Step =>
      LoopKeepsFraming(s, k, st);
      LoopKeepsRoom(s, k, st);
      LoopKeepsRecords(s, k, st);
  }

  lemma NextKeepsFramedInv(s: State, k: nat, e: Event, st: SampleType)
    requires FramedInv(s, k, st) && Admissible(s, e) && Framed(s.base.produced, 0, st)
    ensures FramedInv(Next(s, e, st), k, st)
  {
    NextKeepsFraming(s, k, e, st);
    NextKeepsInv(s, k, e, st);
  }

  // ----- Whole runs -----

  /** What has been published in the first states is complete records. */
  predicate FramedRun(st: SampleType, states: seq<State>, i: nat)
    requires i < |states|
  {
    forall j :: 0 <= j <= i ==> Framed(states[j].base.produced, 0, st)
  }

  lemma {:induction false} RunKeepsFramedInv(data: seq<Byte>, k: nat, st: SampleType,
                                             events: seq<Event>, states: seq<State>, i: nat)
    requires k < 31 && |data| == Pow2(k) && IsRun(data, st, events, states) && i < |states|
    requires FramedRun(st, states, i)
    ensures FramedInv(states[i], k, st)
  {
    if i > 0 {
      RunKeepsFramedInv(data, k, st, events, states, i - 1);
      NextKeepsFramedInv(states[i - 1], k, events[i - 1], st);
    }
  }

  /**
   In every interleaving, with any number of complete records published at a time, no assertion
   of the loop fails and each sample handed on is that of a sample record of the stream.
   */
  lemma HandsOnRecords(data: seq<Byte>, k: nat, st: SampleType, events: seq<Event>, states: seq<State>, i: nat)
    requires k < 31 && |data| == Pow2(k) && IsRun(data, st, events, states) && i < |states|
    requires FramedRun(st, states, i)
    ensures var s := states[i];
            && !s.ctl.Aborted? && |s.places| == |s.samples|
            && forall a :: 0 <= a < |s.places| ==>
                 AtFrame(s.base.produced, s.places[a], st) && SampleAt(s.base.produced, s.places[a], s.samples[a], st)
  {
    RunKeepsFramedInv(data, k, st, events, states, i);
    var s := states[i];
    forall a | 0 <= a < |s.places|
      ensures AtFrame(s.base.produced, s.places[a], st) && SampleAt(s.base.produced, s.places[a], s.samples[a], st)
    {
      RecordOf(s.base.produced, st, s.places, |s.places|, a);
      HandedApart(s.base.produced, st, s.samples, s.places, |s.samples|, Start(s), a);
    }
  }

  // ----- What is dropped -----

  /**
   The first `n` samples have been handed on, the last of them from a record longer than what is
   read, when `h` bytes had been published: the next will be from behind those.
   */
  predicate Dropping(s: State, st: SampleType, n: nat, h: nat) {
    && h <= |s.base.produced| && n <= |s.places|
    && (n < |s.places| ==> h <= s.places[n])
    && (n == |s.places| ==> Dropped(s.base.produced, s.base.pc, s.ctl, st, Start(s), h))
  }

  predicate Dropped(s: seq<Byte>, pc: P.Pc, ctl: Ctl, st: SampleType, u: nat, h: nat) {
    match ctl
    case SkipAll(_) => true
    case SkipNow(_, n) => h <= u + n
    case AwaitSkip(_) => pc.Skipping? && h <= u + pc.n && h <= pc.seenAt
    case GotFields(_, _, _) => h <= u
    case AwaitField(_, _, _) => h <= u
    case AwaitRecord(_) => h <= u
    case _ => h <= u || Inside(s, u, st)
  }

  lemma StaysKeepsDropping(s: State, s': State, st: SampleType, n: nat, h: nat)
    requires Dropping(s, st, n, h) && Stays(s, s') && s'.places == s.places
    ensures Dropping(s', st, n, h)
  {
  }

  lemma KernelKeepsDropping(s: State, e: P.Event, st: SampleType, n: nat, h: nat)
    requires Dropping(s, st, n, h) && (e.Write? || e.Publish?)
    ensures Dropping(Next(s, Kernel(e), st), st, n, h)
  {
    BaseGrows(s.base, e);
    DroppingGrows(s, P.Next(s.base, e), st, n, h);
  }

  lemma DroppingGrows(s: State, b': P.State, st: SampleType, n: nat, h: nat)
    requires Dropping(s, st, n, h)
    requires s.base.produced <= b'.produced && b'.pc == s.base.pc && b'.at == s.base.at
    ensures Dropping(s.(base := b'), st, n, h)
  {
    if Inside(s.base.produced, Start(s), st) {
      InsideKept(s.base.produced, b'.produced, Start(s), st);
    }
  }

  lemma ReadKeepsDropping(s: State, k: nat, st: SampleType, n: nat, h: nat)
    requires PlaceInv(s, k, st) && Framing(s, st) && (s.ctl.AwaitHeader? || s.ctl.AwaitField?) && Dropping(s, st, n, h)
    ensures Dropping(Loop(s, st), st, n, h)
  {
    ReadStays(s, k, st);
    StaysKeepsDropping(s, Loop(s, st), st, n, h);
  }

  lemma GotFieldsKeepsDropping(s: State, st: SampleType, n: nat, h: nat)
    requires Placed(s, st) && s.ctl.GotFields? && Dropping(s, st, n, h)
    ensures Dropping(Loop(s, st), st, n, h)
  {
    if s.ctl.rest == [] {
      FieldsHandOn(s, st);
    } else {
      NextFieldStays(s, st);
      StaysKeepsDropping(s, Loop(s, st), st, n, h);
    }
  }

  lemma SkipKeepsDropping(s: State, k: nat, st: SampleType, n: nat, h: nat)
    requires PlaceInv(s, k, st) && Framing(s, st) && Dropping(s, st, n, h)
    requires s.ctl.AwaitRecord? || s.ctl.AwaitSkip?
    ensures Dropping(Loop(s, st), st, n, h)
  {
    if s.ctl.AwaitRecord? {
      LoopKeepsRoom(s, k, st);
      AwaitRecordKeepsPlace(s, k, st);
    } else {
      AwaitSkipKeepsPlace(s, k, st);
    }
  }

  lemma StartKeepsDropping(s: State, st: SampleType, n: nat, h: nat)
    requires Dropping(s, st, n, h) && (s.ctl.SkipNow? || s.ctl.Done? || s.ctl.Aborted?)
    ensures Dropping(Loop(s, st), st, n, h)
  {
  }

  lemma LooksKeepsDropping(s: State, s': State, st: SampleType, n: nat, h: nat)
    requires Dropping(s, st, n, h) && (s.ctl.Top? || s.ctl.SkipAll?) && Looks(s, s') && s'.places == s.places
    requires s.base.at <= |s.base.produced|
    ensures Dropping(s', st, n, h)
  {
  }

  lemma RemainingKeepsDropping(s: State, k: nat, st: SampleType, n: nat, h: nat)
    requires PlaceInv(s, k, st) && Dropping(s, st, n, h) && (s.ctl.Top? || s.ctl.SkipAll?)
    ensures Dropping(Loop(s, st), st, n, h)
  {
    RemainingLooks(s, k, st);
    LooksKeepsDropping(s, Loop(s, st), st, n, h);
  }

  lemma GotHeaderKeepsDropping(s: State, st: SampleType, n: nat, h: nat)
    requires Placed(s, st) && Dropping(s, st, n, h) && s.ctl.GotHeader?
    ensures Dropping(Loop(s, st), st, n, h)
  {
    if Inside(s.base.produced, Start(s), st) {
      assert StopsAt(s.base.produced, Start(s));
    }
  }

  lemma LoopKeepsDropping(s: State, k: nat, st: SampleType, n: nat, h: nat)
    requires PlaceInv(s, k, st) && Framing(s, st) && Dropping(s, st, n, h)
    ensures Dropping(Loop(s, st), st, n, h)
  {
    match s.ctl
    case Top => RemainingKeepsDropping(s, k, st, n, h);
    case TakeHeader => StaysKeepsDropping(s, Loop(s, st), st, n, h);
    case AwaitHeader => ReadKeepsDropping(s, k, st, n, h);
    case GotHeader(_) => GotHeaderKeepsDropping(s, st, n, h);
    case SkipAll(_) => RemainingKeepsDropping(s, k, st, n, h);
    case GotFields(_, _, _) => GotFieldsKeepsDropping(s, st, n, h);
    case AwaitField(_, _, _) => ReadKeepsDropping(s, k, st, n, h);
    case AwaitRecord(_) => SkipKeepsDropping(s, k, st, n, h);
    case AwaitSkip(_) => SkipKeepsDropping(s, k, st, n, h);
    case _ => StartKeepsDropping(s, st, n, h);
  }

  lemma NextKeepsDropping(s: State, k: nat, e: Event, st: SampleType, n: nat, h: nat)
    requires FramedInv(s, k, st) && Admissible(s, e) && Dropping(s, st, n, h)
    ensures Dropping(Next(s, e, st), st, n, h)
  {
    match e
    case Kernel(x) => KernelKeepsDropping(s, x, st, n, h);
    case Step => LoopKeepsDropping(s, k, st, n, h);
    case Signal =>
  }

  lemma {:induction false} RunKeepsDropping(data: seq<Byte>, k: nat, st: SampleType,
                                            events: seq<Event>, states: seq<State>,
                                            i: nat, j: nat, n: nat, h: nat)
    requires k < 31 && |data| == Pow2(k) && IsRun(data, st, events, states) && i <= j < |states|
    requires FramedRun(st, states, j) && Dropping(states[i], st, n, h)
    ensures Dropping(states[j], st, n, h)
    decreases j
  {
    if i < j {
      RunKeepsDropping(data, k, st, events, states, i, j - 1, n, h);
      RunStepKeepsDropping(data, k, st, events, states, j - 1, n, h);
    }
  }

  lemma RunStepKeepsDropping(data: seq<Byte>, k: nat, st: SampleType, events: seq<Event>, states: seq<State>,
                             j: nat, n: nat, h: nat)
    requires k < 31 && |data| == Pow2(k) && IsRun(data, st, events, states) && j < |events|
    requires FramedRun(st, states, j) && Dropping(states[j], st, n, h)
    ensures Dropping(states[j + 1], st, n, h)
  {
    RunKeepsFramedInv(data, k, st, events, states, j);
    NextKeepsDropping(states[j], k, events[j], st, n, h);
  }

  /**
   When the loop hands on a sample whose record is longer than what is read of it, it never hands
   on a record that has been published by then: the next sample is from behind all of those.
   */
  lemma DropsPublished(data: seq<Byte>, k: nat, st: SampleType, events: seq<Event>, states: seq<State>, i: nat, j: nat)
    requires k < 31 && |data| == Pow2(k) && IsRun(data, st, events, states) && i < j < |states|
    requires FramedRun(st, states, j) && |states[i].places| < |states[i + 1].places| < |states[j].places|
    requires SampleEnd(Start(states[i]), st) < FrameEnd(states[i].base.produced, Start(states[i]))
    ensures var n := |states[i + 1].places|;
            n == |states[i].places| + 1 && |states[i].base.produced| <= states[j].places[n]
  {
    RunKeepsFramedInv(data, k, st, events, states, i);
    HandingStarts(states[i], k, events[i], st);
    RunKeepsDropping(data, k, st, events, states, i + 1, j, |states[i + 1].places|, |states[i].base.produced|);
  }

  lemma HandingStarts(s: State, k: nat, e: Event, st: SampleType)
    requires FramedInv(s, k, st) && Admissible(s, e) && |s.places| < |Next(s, e, st).places|
    requires SampleEnd(Start(s), st) < FrameEnd(s.base.produced, Start(s))
    ensures |Next(s, e, st).places| == |s.places| + 1
    ensures Dropping(Next(s, e, st), st, |s.places| + 1, |s.base.produced|)
  {
    OnlyFieldsHandOn(s, st);
    FieldsHandOn(s, st);
    DroppingStarts(s, Loop(s, st), st);
  }

  lemma DroppingStarts(s: State, s': State, st: SampleType)
    requires Framing(s, st) && s.ctl.GotFields? && HandsOn(s, s', st)
    requires SampleEnd(Start(s), st) < FrameEnd(s.base.produced, Start(s))
    ensures |s'.places| == |s.places| + 1 && Dropping(s', st, |s.places| + 1, |s.base.produced|)
  {
  }

  // ----- Samples with a call chain -----

  /** What the events of this program ask for, the call chain apart. */
  const THREAD_SAMPLE: SampleType := SampleType(true, true, true, true)

  /**
   A complete record as perf_event_open(2) describes it. In a sample the 32 reserved bits behind
   the cpu number are zero, and a number of 64 bits and that many addresses follow.
   */
  predicate KernelRecord(s: seq<Byte>, t: nat) {
    && t + HEADER_SIZE <= FrameEnd(s, t) <= |s|
    && (IsSample(s, t) ==>
          && t + 48 <= |s| && Field(s, t + 36, 4) == 0
          && FrameEnd(s, t) == t + 48 + 8 * Field(s, t + 40, 8))
  }

  predicate KernelStream(s: seq<Byte>, t: nat)
    decreases |s| - t
  {
    t == |s| || (KernelRecord(s, t) && KernelStream(s, FrameEnd(s, t)))
  }

  /** The record size bounds the length of the call chain, whose upper bits make a size of 0. */
  lemma KernelRecordStops(s: seq<Byte>, t: nat)
    requires KernelRecord(s, t) && IsSample(s, t)
    ensures SampleEnd(t, THREAD_SAMPLE) + HEADER_SIZE <= FrameEnd(s, t) && StopsAt(s, SampleEnd(t, THREAD_SAMPLE))
  {
    ShortBound(s, t + 6);
    UpperBytesAreZero(s, t + 40);
  }

  lemma UpperBytesAreZero(s: seq<Byte>, t: nat)
    requires t + 8 <= |s| && Field(s, t, 8) < 0x1_0000
    ensures Field(s, t + 2, 2) == 0
  {
    var a, b := s[t..t + 8], s[t + 2..t + 4];
    assert LittleEndian(a, 0) == a[0] as nat + 256 * (a[1] as nat + 256 * LittleEndian(a, 2));
    assert LittleEndian(a, 2) == a[2] as nat + 256 * (a[3] as nat + 256 * LittleEndian(a, 4));
    assert a[2] == b[0] == 0 && a[3] == b[1] == 0;
    assert LittleEndian(b, 1) == 0;
  }

  lemma {:induction false} KernelStreamIsFramed(s: seq<Byte>, t: nat)
    requires KernelStream(s, t)
    ensures Framed(s, t, THREAD_SAMPLE)
    decreases |s| - t
  {
    if t != |s| {
      if IsSample(s, t) {
        KernelRecordStops(s, t);
      }
      KernelStreamIsFramed(s, FrameEnd(s, t));
    }
  }

  /** The first sample record from `t` on, or the end. */
  function FirstSample(s: seq<Byte>, t: nat): nat
    decreases |s| - t
  {
    if t + HEADER_SIZE <= FrameEnd(s, t) <= |s| && !IsSample(s, t) then FirstSample(s, FrameEnd(s, t)) else t
  }

  /** With the kernel quiet, only the first sample of what has been published is handed on. */
  lemma {:induction false} OnlyFirstSample(s: seq<Byte>, t: nat, before: seq<Sample>)
    requires KernelStream(s, t)
    ensures var p, parsed := FirstSample(s, t), Parse(s, t, THREAD_SAMPLE, before);
            && !parsed.truncated
            && if p == |s| then parsed.samples == before
               else && IsSample(s, p) && |parsed.samples| == |before| + 1 && before <= parsed.samples
                    && SampleAt(s, p, parsed.samples[|before|], THREAD_SAMPLE)
    decreases |s| - t
  {
    if t != |s| {
      if IsSample(s, t) {
        KernelRecordStops(s, t);
        assert ItemAt(s, SampleEnd(t, THREAD_SAMPLE), THREAD_SAMPLE) == Stop(false);
      } else {
        OnlyFirstSample(s, FrameEnd(s, t), before);
      }
    }
  }

  lemma {:induction false} KernelFrom(s: seq<Byte>, t: nat, b: nat)
    requires KernelStream(s, t) && Leads(s, t, b, THREAD_SAMPLE)
    ensures KernelStream(s, b)
    decreases b - t
  {
    if t < b {
      KernelFrom(s, FrameEnd(s, t), b);
    }
  }

  /**
   With the kernel running: no assertion of the loop fails, and when a sample is handed on, no
   record that has been published by then is handed on later.
   */
  lemma ThreadSamplesDrop(data: seq<Byte>, k: nat, events: seq<Event>, states: seq<State>, i: nat, j: nat)
    requires k < 31 && |data| == Pow2(k) && IsRun(data, THREAD_SAMPLE, events, states) && i < j < |states|
    requires forall m :: 0 <= m <= j ==> KernelStream(states[m].base.produced, 0)
    ensures !states[j].ctl.Aborted?
    ensures var n := |states[i + 1].places|;
            |states[i].places| < n < |states[j].places| ==> |states[i].base.produced| <= states[j].places[n]
  {
    forall m | 0 <= m <= j
      ensures Framed(states[m].base.produced, 0, THREAD_SAMPLE)
    {
      KernelStreamIsFramed(states[m].base.produced, 0);
    }
    HandsOnRecords(data, k, THREAD_SAMPLE, events, states, j);
    if |states[i].places| < |states[i + 1].places| < |states[j].places| {
      RunKeepsFramedInv(data, k, THREAD_SAMPLE, events, states, i);
      HandedIsLonger(states[i], k, events[i]);
      DropsPublished(data, k, THREAD_SAMPLE, events, states, i, j);
    }
  }

  lemma HandedIsLonger(s: State, k: nat, e: Event)
    requires FramedInv(s, k, THREAD_SAMPLE) && KernelStream(s.base.produced, 0)
    requires Admissible(s, e) && |s.places| < |Next(s, e, THREAD_SAMPLE).places|
    ensures SampleEnd(Start(s), THREAD_SAMPLE) < FrameEnd(s.base.produced, Start(s))
  {
    OnlyFieldsHandOn(s, THREAD_SAMPLE);
    KernelFrom(s.base.produced, 0, Start(s));
    KernelRecordStops(s.base.produced, Start(s));
  }
}
