/**
 The drain loop of the signal handler while the kernel goes on producing. The loop issues the
 reads and skips of `PerfProtocol`, one memory access at a time, in any interleaving with the
 kernel's writes and publications, whatever those are.
 */
module PerfDrain {
  import opened WordArithmetic
  import opened PerfRing
  import opened PerfRecords
  import P = PerfProtocol

  // ----- The loop -----

  /** Where the loop is, between its accesses to the ring. */
  datatype Ctl =
    | Top
    | TakeHeader
    | AwaitHeader
    | GotHeader(h: Header)
    | GotFields(h: Header, got: seq<Byte>, rest: seq<nat>)
    | AwaitField(h: Header, got: seq<Byte>, rest: seq<nat>)
    | AwaitRecord(h: Header)
    | SkipAll(last: bool)
    | SkipNow(last: bool, n: Word)
    | AwaitSkip(last: bool)
    | Done
    | Aborted

  /** `samples` are those handed to the callback; `places`, history, is where their headers were read. */
  datatype State = State(base: P.State, ctl: Ctl, samples: seq<Sample>, places: seq<nat>)

  /** A step of the kernel, a step of the loop, or the next signal after the loop is done. */
  datatype Event = Kernel(e: P.Event) | Step | Signal

  /** The sizes of the fields that are read one by one. */
  function FieldSizes(st: SampleType): seq<nat> {
    var cpu: seq<nat> := if st.cpu then [4] else [];
    var addr := if st.addr then [8] + cpu else cpu;
    var tid := if st.tid then [4] + ([4] + addr) else addr;
    if st.ip then [8] + tid else tid
  }

  function Sum(sizes: seq<nat>): nat {
    if sizes == [] then 0 else sizes[0] + Sum(sizes[1..])
  }

  function Init(data: seq<Byte>): State {
    State(P.Init(data), Done, [], [])
  }

  function To(s: State, ctl: Ctl): State {
    s.(ctl := ctl)
  }

  /** The loop loads the head and compares it with the tail. */
  function Remaining(r: Ring): int {
    ToInt32(Minus(r.head, r.tail))
  }

  function StartRead(s: State, n: nat, ctl: Ctl): State {
    if n < TWO_64 then s.(base := P.Next(s.base, P.StartRead(n)), ctl := ctl) else s
  }

  function StartSkip(s: State, n: Word, ctl: Ctl): State {
    s.(base := P.Next(s.base, P.StartSkip(n)), ctl := ctl)
  }

  /** One access of a read under way: `ctl` is where the loop goes when it is complete. */
  function GoRead(s: State, complete: seq<Byte> -> Ctl): State {
    var base := P.Next(s.base, P.Go);
    match s.base.pc
    case Checking(_, _, _) => s.(base := base, ctl := if base.pc.Idle? then Aborted else s.ctl)
    case Copying(_, got) => s.(base := base, ctl := if base.pc.Idle? then complete(got) else s.ctl)
    case _ => s
  }

  function GoSkip(s: State, ctl: Ctl): State {
    s.(base := P.Next(s.base, P.Go), ctl := ctl)
  }

  /** How far the loop is into the record it is at. */
  function Past(ctl: Ctl): nat {
    match ctl
    case GotHeader(_) => HEADER_SIZE
    case GotFields(_, got, _) => HEADER_SIZE + |got|
    case AwaitField(_, got, _) => HEADER_SIZE + |got|
    case AwaitRecord(_) => HEADER_SIZE
    case _ => 0
  }

  /** Where that record starts. */
  function Start(s: State): nat {
    if Past(s.ctl) <= s.base.at then s.base.at - Past(s.ctl) else 0
  }

  function Loop(s: State, st: SampleType): State {
    match s.ctl
    case Top =>
      var remaining := Remaining(s.base.ring);
      To(s, if remaining <= 0 then Done else if remaining < HEADER_SIZE then SkipAll(true) else TakeHeader)
    case TakeHeader => StartRead(s, HEADER_SIZE, AwaitHeader)
    case AwaitHeader =>
      GoRead(s, got => if |got| < HEADER_SIZE then Aborted else GotHeader(DecodeHeader(got, 0)))
    case GotHeader(h) =>
      if h.kind == RECORD_SAMPLE then To(s, GotFields(h, [], FieldSizes(st)))
      else if h.size == 0 then To(s, SkipAll(false))
      else if h.size < TWO_64 then StartSkip(s, Minus(h.size, HEADER_SIZE), AwaitRecord(h))
      else s
    case GotFields(h, got, rest) =>
      if rest == [] then
        if |got| < SampleSize(st) then To(s, Aborted)
        else
          var sample := DecodeSample(got, 0, st, IsPrecise(h));
          s.(ctl := Top, samples := s.samples + [sample], places := s.places + [Start(s)])
      else StartRead(s, rest[0], AwaitField(h, got, rest))
    case AwaitField(h, got, rest) =>
      if rest == [] then s else GoRead(s, bytes => GotFields(h, got + bytes, rest[1..]))
    case AwaitRecord(_) => GoSkip(s, Top)
    case SkipAll(last) =>
      var remaining := Remaining(s.base.ring);
      To(s, if remaining > 0 then SkipNow(last, remaining) else if last then Done else Top)
    case SkipNow(last, n) => StartSkip(s, n, AwaitSkip(last))
    case AwaitSkip(last) => GoSkip(s, if last then Done else Top)
    case _ => s
  }

  function Next(s: State, e: Event, st: SampleType): State {
    match e
    case Kernel(k) => s.(base := P.Next(s.base, k))
    case Step => Loop(s, st)
    case Signal => if s.ctl.Done? then To(s, Top) else s
  }

  /** The kernel keeps within the buffer; what it writes, and how much it publishes at a time, is free. */
  predicate Admissible(s: State, e: Event) {
    e.Kernel? ==> (e.e.Write? || e.e.Publish?) && P.Admissible(s.base, e.e)
  }

  // ----- What has been handed on -----

  /** The reader's sample of the bytes behind the header at `p`. */
  predicate SampleAt(s: seq<Byte>, p: nat, sample: Sample, st: SampleType) {
    && p + HEADER_SIZE + SampleSize(st) <= |s|
    && DecodeHeader(s, p).kind == RECORD_SAMPLE
    && sample == DecodeSample(s, p + HEADER_SIZE, st, IsPrecise(DecodeHeader(s, p)))
  }

  /** The bytes of a sample record with just these numbers. */
  ghost predicate BytesOfSample(s: seq<Byte>, p: nat, st: SampleType, sample: Sample) {
    exists misc, size :: HasSample(s, p, st, misc, size, sample)
  }

  lemma SampleAtExactly(s: seq<Byte>, p: nat, sample: Sample, st: SampleType)
    ensures SampleAt(s, p, sample, st) <==> BytesOfSample(s, p, st, sample)
  {
    if SampleAt(s, p, sample, st) {
      ItemHasSample(s, p, st);
    }
    forall misc, size | HasSample(s, p, st, misc, size, sample)
      ensures SampleAt(s, p, sample, st)
    {
      SampleItem(s, p, st, misc, size, sample);
    }
  }

  /** The first `n` samples are those at the first `n` places, one behind the other, before `end`. */
  predicate Handed(s: seq<Byte>, st: SampleType, samples: seq<Sample>, places: seq<nat>, n: nat, end: nat) {
    && n <= |samples| && n <= |places|
    && (n == 0 ||
        (&& places[n - 1] + HEADER_SIZE + SampleSize(st) <= end
         && SampleAt(s, places[n - 1], samples[n - 1], st)
         && Handed(s, st, samples, places, n - 1, places[n - 1])))
  }

  lemma {:induction false} HandedGrows(s: seq<Byte>, s': seq<Byte>, st: SampleType,
                                       samples: seq<Sample>, places: seq<nat>, n: nat, end: nat)
    requires Handed(s, st, samples, places, n, end) && s <= s'
    ensures Handed(s', st, samples, places, n, end)
    decreases n
  {
    if n > 0 {
      var p := places[n - 1];
      HandedGrows(s, s', st, samples, places, n - 1, p);
      HeaderKept(s, s', p);
      SampleKept(s, s', p + HEADER_SIZE, st, IsPrecise(DecodeHeader(s, p)));
    }
  }

  lemma {:induction false} HandedExtends(s: seq<Byte>, st: SampleType, samples: seq<Sample>, places: seq<nat>,
                                         samples': seq<Sample>, places': seq<nat>, n: nat, end: nat)
    requires Handed(s, st, samples, places, n, end) && samples <= samples' && places <= places'
    ensures Handed(s, st, samples', places', n, end)
    decreases n
  {
    if n > 0 {
      HandedExtends(s, st, samples, places, samples', places', n - 1, places[n - 1]);
    }
  }

  /** Of any two places the later is behind the end of the sample at the earlier. */
  lemma {:induction false} HandedApart(s: seq<Byte>, st: SampleType, samples: seq<Sample>, places: seq<nat>,
                                       n: nat, end: nat, i: nat)
    requires Handed(s, st, samples, places, n, end) && i < n
    ensures SampleAt(s, places[i], samples[i], st) && places[i] + HEADER_SIZE + SampleSize(st) <= end
    ensures forall j :: i < j < n ==> places[i] + HEADER_SIZE + SampleSize(st) <= places[j]
    decreases n
  {
    if i < n - 1 {
      HandedApart(s, st, samples, places, n - 1, places[n - 1], i);
    }
  }

  // ----- What every step keeps -----

  /** The fields read so far of the sample at `u`, and the sizes of those to come. */
  predicate FieldsAt(s: seq<Byte>, u: nat, st: SampleType, h: Header, got: seq<Byte>, rest: seq<nat>) {
    && u + HEADER_SIZE + |got| <= |s| && h == DecodeHeader(s, u) && h.kind == RECORD_SAMPLE
    && |got| + Sum(rest) == SampleSize(st) && got == s[u + HEADER_SIZE..u + HEADER_SIZE + |got|]
  }

  predicate CtlOk(produced: seq<Byte>, pc: P.Pc, ctl: Ctl, st: SampleType, u: nat) {
    match ctl
    case TakeHeader => pc.Idle? && u + HEADER_SIZE <= |produced|
    case AwaitHeader =>
      || (pc.Checking? && pc.n == HEADER_SIZE && u + HEADER_SIZE <= pc.seenAt)
      || (pc.Copying? && pc.n == HEADER_SIZE)
    case GotHeader(h) => pc.Idle? && u + HEADER_SIZE <= |produced| && h == DecodeHeader(produced, u)
    case GotFields(h, got, rest) => pc.Idle? && FieldsAt(produced, u, st, h, got, rest)
    case AwaitField(h, got, rest) =>
      FieldsAt(produced, u, st, h, got, rest) && rest != [] && (pc.Checking? || pc.Copying?) && pc.n == rest[0]
    case AwaitRecord(h) =>
      && u + HEADER_SIZE <= |produced| && h == DecodeHeader(produced, u)
      && 0 < h.size < 0x1_0000 && h.kind != RECORD_SAMPLE && pc.Skipping? && pc.n == Minus(h.size, HEADER_SIZE)
    case SkipNow(_, n) => pc.Idle? && u + n <= |produced|
    case AwaitSkip(_) => pc.Skipping? && u + pc.n <= pc.seenAt
    case _ => pc.Idle?
  }

  /** The loop is where its control says. */
  predicate Placed(s: State, st: SampleType) {
    P.Room(s.base) && Past(s.ctl) <= s.base.at && CtlOk(s.base.produced, s.base.pc, s.ctl, st, Start(s))
  }

  ghost predicate PlaceInv(s: State, k: nat, st: SampleType) {
    P.Inv(s.base, k) && Placed(s, st)
  }

  /** Everything handed on lies before the record the loop is at. */
  predicate AllHanded(s: State, st: SampleType) {
    |s.places| == |s.samples| && Handed(s.base.produced, st, s.samples, s.places, |s.samples|, Start(s))
  }

  ghost predicate Inv(s: State, k: nat, st: SampleType) {
    PlaceInv(s, k, st) && AllHanded(s, st)
  }

  /** A step of the loop that hands nothing on and does not go back before the record it is at. */
  predicate HandsNothing(s: State, s': State) {
    && s'.samples == s.samples && s'.places == s.places && s'.base.produced == s.base.produced
    && Start(s) <= Start(s')
  }

  lemma KernelKeepsPlace(s: State, k: nat, st: SampleType, e: P.Event)
    requires PlaceInv(s, k, st) && Admissible(s, Kernel(e))
    ensures PlaceInv(Next(s, Kernel(e), st), k, st)
  {
    P.NextKeepsInv(s.base, k, e);
    P.RoomKeptExactly(s.base, k, e);
    BaseGrows(s.base, e);
    CtlGrows(s.base.produced, P.Next(s.base, e).produced, s.base.pc, s.ctl, st, Start(s));
  }

  lemma BaseGrows(b: P.State, e: P.Event)
    ensures b.produced <= P.Next(b, e).produced
    ensures e.Write? || e.Publish? ==> P.Next(b, e).pc == b.pc && P.Next(b, e).at == b.at
  {
  }

  lemma CtlGrows(s: seq<Byte>, s': seq<Byte>, pc: P.Pc, ctl: Ctl, st: SampleType, u: nat)
    requires CtlOk(s, pc, ctl, st, u) && s <= s'
    ensures CtlOk(s', pc, ctl, st, u)
  {
    match ctl
    case GotHeader(_) => HeaderKept(s, s', u);
    case GotFields(h, got, rest) => FieldsKept(s, s', u, st, h, got, rest);
    case AwaitField(h, got, rest) => FieldsKept(s, s', u, st, h, got, rest);
    case AwaitRecord(_) => HeaderKept(s, s', u);
    case _ =>
  }

  lemma FieldsKept(s: seq<Byte>, s': seq<Byte>, u: nat, st: SampleType, h: Header, got: seq<Byte>, rest: seq<nat>)
    requires FieldsAt(s, u, st, h, got, rest) && s <= s'
    ensures FieldsAt(s', u, st, h, got, rest)
  {
    HeaderKept(s, s', u);
    assert s'[u + HEADER_SIZE..u + HEADER_SIZE + |got|] == s[u + HEADER_SIZE..u + HEADER_SIZE + |got|];
  }

  /** The remaining size is what it should be. */
  lemma RemainingIsUnread(b: P.State, k: nat)
    requires P.Inv(b, k) && P.Room(b)
    ensures Remaining(b.ring) == |b.produced| - b.at
  {
    SizeBound(k);
    WrappedDistance(|b.produced|, b.at);
  }

  lemma RemainingKeepsPlace(s: State, k: nat, st: SampleType)
    requires PlaceInv(s, k, st) && (s.ctl.Top? || s.ctl.SkipAll?)
    ensures PlaceInv(Loop(s, st), k, st) && HandsNothing(s, Loop(s, st))
    ensures s.ctl.Top? ==> (Loop(s, st).ctl.Done? <==> s.base.at == |s.base.produced|)
  {
    RemainingIsUnread(s.base, k);
  }

  /** What one access of a read does: the check passes exactly when the bytes are there. */
  predicate ReadStep(b: P.State, b': P.State) {
    && P.Room(b') && b'.produced == b.produced
    && match b.pc
       case Checking(n, _, seenAt) => b'.at == b.at && b'.pc == if b.at + n <= seenAt then P.Copying(n, []) else P.Idle
       case Copying(n, got) =>
         if |got| < n then b'.at == b.at && b'.pc.Copying? && b'.pc.n == n
         else b'.at == b.at + n && b'.pc.Idle? && |got| == n && P.Fresh(b, got)
       case _ => false
  }

  lemma ReadGoes(b: P.State, k: nat)
    requires P.Inv(b, k) && P.Room(b) && (b.pc.Checking? || b.pc.Copying?)
    ensures P.Inv(P.Next(b, P.Go), k) && ReadStep(b, P.Next(b, P.Go))
  {
    P.NextKeepsInv(b, k, P.Go);
    P.RoomKeptExactly(b, k, P.Go);
    match b.pc
    case Checking(_, _, seenAt) =>
      SizeBound(k);
      WrappedDistance(seenAt, b.at);
    case Copying(n, got) =>
      if |got| < n {
        P.CopyKeepsInv(b, k);
      } else {
        P.CommitKeepsInv(b, k);
      }
  }

  lemma HeaderKeepsPlace(s: State, k: nat, st: SampleType)
    requires PlaceInv(s, k, st) && s.ctl.AwaitHeader?
    ensures PlaceInv(Loop(s, st), k, st) && HandsNothing(s, Loop(s, st)) && !Loop(s, st).ctl.Aborted?
  {
    ReadGoes(s.base, k);
    HeaderGoes(s, st);
  }

  lemma HeaderGoes(s: State, st: SampleType)
    requires Placed(s, st) && s.ctl.AwaitHeader? && ReadStep(s.base, P.Next(s.base, P.Go))
    ensures Placed(Loop(s, st), st) && HandsNothing(s, Loop(s, st)) && !Loop(s, st).ctl.Aborted?
    ensures Loop(s, st).base == P.Next(s.base, P.Go)
  {
    if s.base.pc.Copying? && |s.base.pc.got| == HEADER_SIZE {
      HeaderMoves(s.base.produced, s.base.at, s.base.pc.got);
    }
  }

  lemma GotHeaderKeepsPlace(s: State, k: nat, st: SampleType)
    requires PlaceInv(s, k, st) && s.ctl.GotHeader?
    ensures PlaceInv(Loop(s, st), k, st) && HandsNothing(s, Loop(s, st))
  {
    var h := s.ctl.h;
    if h.kind == RECORD_SAMPLE || h.size == 0 {
      NoSkip(s, st);
    } else {
      RecordSkip(s, st);
      P.NextKeepsInv(s.base, k, P.StartSkip(Minus(h.size, HEADER_SIZE)));
    }
  }

  lemma NoSkip(s: State, st: SampleType)
    requires Placed(s, st) && s.ctl.GotHeader? && (s.ctl.h.kind == RECORD_SAMPLE || s.ctl.h.size == 0)
    ensures Placed(Loop(s, st), st) && HandsNothing(s, Loop(s, st)) && Loop(s, st).base == s.base
  {
    if s.ctl.h.kind == RECORD_SAMPLE {
      FieldsBegin(s.base.produced, Start(s), st);
    }
  }

  lemma RecordSkip(s: State, st: SampleType)
    requires Placed(s, st) && s.ctl.GotHeader? && s.ctl.h.kind != RECORD_SAMPLE && s.ctl.h.size != 0
    ensures Placed(Loop(s, st), st) && HandsNothing(s, Loop(s, st)) && s.ctl.h.size < TWO_64
    ensures Loop(s, st).base == P.Next(s.base, P.StartSkip(Minus(s.ctl.h.size, HEADER_SIZE)))
  {
    var u := Start(s);
    ShortBound(s.base.produced, u + 6);
  }

  lemma FieldsBegin(produced: seq<Byte>, u: nat, st: SampleType)
    requires u + HEADER_SIZE <= |produced| && DecodeHeader(produced, u).kind == RECORD_SAMPLE
    ensures FieldsAt(produced, u, st, DecodeHeader(produced, u), [], FieldSizes(st))
  {
    FieldSizesSum(st);
    assert produced[u + HEADER_SIZE..u + HEADER_SIZE + 0] == [];
  }

  lemma FieldSizesSum(st: SampleType)
    ensures Sum(FieldSizes(st)) == SampleSize(st)
  {
    var cpu: seq<nat> := if st.cpu then [4] else [];
    var addr := if st.addr then [8] + cpu else cpu;
    var tid := if st.tid then [4] + ([4] + addr) else addr;
    assert Sum(cpu) == if st.cpu then 4 else 0;
    SumStep(8, cpu);
    SumStep(4, addr);
    SumStep(4, [4] + addr);
    SumStep(8, tid);
  }

  lemma SumStep(n: nat, sizes: seq<nat>)
    ensures Sum([n] + sizes) == n + Sum(sizes)
  {
    assert ([n] + sizes)[1..] == sizes;
  }

  lemma GotFieldsKeepsPlace(s: State, k: nat, st: SampleType)
    requires PlaceInv(s, k, st) && s.ctl.GotFields?
    ensures PlaceInv(Loop(s, st), k, st) && !Loop(s, st).ctl.Aborted?
    ensures if s.ctl.rest == [] then HandsOn(s, Loop(s, st), st) else HandsNothing(s, Loop(s, st))
  {
    if s.ctl.rest == [] {
      FieldsHandOn(s, st);
    } else {
      P.NextKeepsInv(s.base, k, P.StartRead(s.ctl.rest[0]));
    }
  }

  /** A step that hands on the sample at the record the loop is at, and goes behind it. */
  predicate HandsOn(s: State, s': State, st: SampleType) {
    && s'.base == s.base && s'.ctl.Top? && |s'.samples| == |s.samples| + 1
    && s'.samples == s.samples + [s'.samples[|s.samples|]] && s'.places == s.places + [Start(s)]
    && Start(s') == Start(s) + HEADER_SIZE + SampleSize(st)
    && SampleAt(s.base.produced, Start(s), s'.samples[|s.samples|], st)
  }

  /** A sample is handed on when all its fields have been read. */
  lemma FieldsHandOn(s: State, st: SampleType)
    requires Placed(s, st) && s.ctl.GotFields? && s.ctl.rest == []
    ensures Placed(Loop(s, st), st) && HandsOn(s, Loop(s, st), st)
  {
    SampleMoves(s.base.produced, Start(s) + HEADER_SIZE, s.ctl.got, st, IsPrecise(s.ctl.h));
  }

  /** Its numbers are those whose bytes are behind the header. */
  lemma FieldsEnd(s: State, st: SampleType)
    requires Placed(s, st) && s.ctl.GotFields? && s.ctl.rest == []
    ensures HandsOn(s, Loop(s, st), st)
    ensures BytesOfSample(s.base.produced, Start(s), st, Loop(s, st).samples[|s.samples|])
  {
    FieldsHandOn(s, st);
    SampleAtExactly(s.base.produced, Start(s), Loop(s, st).samples[|s.samples|], st);
  }

  lemma AwaitFieldKeepsPlace(s: State, k: nat, st: SampleType)
    requires PlaceInv(s, k, st) && s.ctl.AwaitField?
    ensures PlaceInv(Loop(s, st), k, st) && HandsNothing(s, Loop(s, st))
    ensures Loop(s, st).ctl.Aborted? <==> s.base.pc.Checking? && s.base.pc.seenAt < s.base.at + s.ctl.rest[0]
  {
    ReadGoes(s.base, k);
    FieldGoes(s, st);
  }

  lemma FieldGoes(s: State, st: SampleType)
    requires Placed(s, st) && s.ctl.AwaitField? && ReadStep(s.base, P.Next(s.base, P.Go))
    ensures Placed(Loop(s, st), st) && HandsNothing(s, Loop(s, st)) && Loop(s, st).base == P.Next(s.base, P.Go)
    ensures Loop(s, st).ctl.Aborted? <==> s.base.pc.Checking? && s.base.pc.seenAt < s.base.at + s.ctl.rest[0]
  {
    if s.base.pc.Copying? && |s.base.pc.got| == s.base.pc.n {
      FieldEnds(s, st);
    } else {
      FieldWaits(s, st);
    }
  }

  lemma FieldWaits(s: State, st: SampleType)
    requires Placed(s, st) && s.ctl.AwaitField? && ReadStep(s.base, P.Next(s.base, P.Go))
    requires s.base.pc.Copying? ==> |s.base.pc.got| < s.base.pc.n
    ensures Placed(Loop(s, st), st) && HandsNothing(s, Loop(s, st)) && Loop(s, st).base == P.Next(s.base, P.Go)
    ensures Loop(s, st).ctl.Aborted? <==> s.base.pc.Checking? && s.base.pc.seenAt < s.base.at + s.ctl.rest[0]
  {
  }

  lemma FieldEndsAs(s: State, st: SampleType)
    requires s.ctl.AwaitField? && s.ctl.rest != [] && s.base.pc.Copying? && P.Next(s.base, P.Go).pc.Idle?
    ensures Loop(s, st) ==
            s.(base := P.Next(s.base, P.Go), ctl := GotFields(s.ctl.h, s.ctl.got + s.base.pc.got, s.ctl.rest[1..]))
  {
  }

  lemma FieldEnds(s: State, st: SampleType)
    requires Placed(s, st) && s.ctl.AwaitField? && ReadStep(s.base, P.Next(s.base, P.Go))
    requires s.base.pc.Copying? && |s.base.pc.got| == s.base.pc.n
    ensures Placed(Loop(s, st), st) && HandsNothing(s, Loop(s, st)) && Loop(s, st).base == P.Next(s.base, P.Go)
    ensures Loop(s, st).ctl.GotFields?
  {
    FieldEndsAs(s, st);
    FieldDone(s.base.produced, Start(s), st, s.ctl.h, s.ctl.got, s.ctl.rest, s.base.pc.got);
  }

  /** A field is complete: its bytes join those of the sample. */
  lemma FieldDone(produced: seq<Byte>, u: nat, st: SampleType, h: Header, got: seq<Byte>, rest: seq<nat>,
                  bytes: seq<Byte>)
    requires FieldsAt(produced, u, st, h, got, rest) && rest != [] && |bytes| == rest[0]
    requires var t := u + HEADER_SIZE + |got|; t + |bytes| <= |produced| && bytes == produced[t..t + |bytes|]
    ensures FieldsAt(produced, u, st, h, got + bytes, rest[1..])
  {
    var all := got + bytes;
    assert Sum(rest) == rest[0] + Sum(rest[1..]);
    assert all == produced[u + HEADER_SIZE..u + HEADER_SIZE + |all|];
  }

  /** A skip that leaves room goes on in the stream, or, for a record of 1 to 7 bytes, back into its header. */
  lemma SkipGoes(b: P.State, k: nat)
    requires P.Inv(b, k) && P.Room(b) && b.pc.Skipping? && P.Room(P.Next(b, P.Go))
    ensures var b', n := P.Next(b, P.Go), b.pc.n;
            && P.Inv(b', k) && b'.produced == b.produced && b'.pc.Idle?
            && (b'.at == b.at + n <= b.pc.seenAt || b'.at == b.pc.seenAt || b'.at == b.at + n - TWO_64)
            && (b'.at < b.at ==> TWO_64 <= n + |b.ring.data| && b.pc.seenAt < b.at + n)
  {
    P.SkipKeepsInv(b, k);
    P.SkipEffect(b, k);
  }

  lemma AwaitRecordKeepsPlace(s: State, k: nat, st: SampleType)
    requires PlaceInv(s, k, st) && s.ctl.AwaitRecord? && P.Room(P.Next(s.base, P.Go))
    ensures PlaceInv(Loop(s, st), k, st) && HandsNothing(s, Loop(s, st))
    ensures Start(s) < Loop(s, st).base.at
  {
    SkipGoes(s.base, k);
    SizeBound(k);
  }

  lemma AwaitSkipKeepsPlace(s: State, k: nat, st: SampleType)
    requires PlaceInv(s, k, st) && s.ctl.AwaitSkip?
    ensures PlaceInv(Loop(s, st), k, st) && HandsNothing(s, Loop(s, st))
    ensures Loop(s, st).base.at == s.base.pc.seenAt || Loop(s, st).base.at == s.base.at + s.base.pc.n
  {
    P.RoomKeptExactly(s.base, k, P.Go);
    P.SkipEffect(s.base, k);
    SkipGoes(s.base, k);
  }

  lemma LoopKeepsPlace(s: State, k: nat, st: SampleType)
    requires PlaceInv(s, k, st) && P.Room(Loop(s, st).base)
    ensures PlaceInv(Loop(s, st), k, st)
    ensures HandsNothing(s, Loop(s, st)) || HandsOn(s, Loop(s, st), st)
  {
    match s.ctl
    case Top => RemainingKeepsPlace(s, k, st);
    case TakeHeader => P.NextKeepsInv(s.base, k, P.StartRead(HEADER_SIZE));
    case AwaitHeader => HeaderKeepsPlace(s, k, st);
    case GotHeader(_) => GotHeaderKeepsPlace(s, k, st);
    case GotFields(_, _, _) => GotFieldsKeepsPlace(s, k, st);
    case AwaitField(_, _, _) => AwaitFieldKeepsPlace(s, k, st);
    case AwaitRecord(_) => AwaitRecordKeepsPlace(s, k, st);
    case SkipAll(_) => RemainingKeepsPlace(s, k, st);
    case SkipNow(_, n) => P.NextKeepsInv(s.base, k, P.StartSkip(n));
    case AwaitSkip(_) => AwaitSkipKeepsPlace(s, k, st);
    case Done =>
    case Aborted =>
  }

  lemma HandsOnKeepsHanded(s: State, s': State, st: SampleType)
    requires AllHanded(s, st) && (HandsNothing(s, s') || HandsOn(s, s', st))
    ensures AllHanded(s', st)
  {
    HandedExtends(s.base.produced, st, s.samples, s.places, s'.samples, s'.places, |s.samples|, Start(s));
  }

  /** Whatever the kernel publishes, and whenever, a step that leaves room keeps the loop at its place. */
  lemma NextKeepsInv(s: State, k: nat, e: Event, st: SampleType)
    requires Inv(s, k, st) && Admissible(s, e) && P.Room(Next(s, e, st).base)
    ensures Inv(Next(s, e, st), k, st)
  {
    match e
    case Kernel(x) =>
      KernelKeepsPlace(s, k, st, x);
      BaseGrows(s.base, x);
      HandedGrows(s.base.produced, P.Next(s.base, x).produced, st, s.samples, s.places, |s.samples|, Start(s));
    case Step =>
      LoopKeepsPlace(s, k, st);
      HandsOnKeepsHanded(s, Loop(s, st), st);
    case Signal =>
  }

  /**
   A step takes the room away exactly when it skips a record and thereby goes back to bytes that
   the kernel has written over, which takes a record of 1 to 7 bytes or a counter about to wrap.
   */
  predicate Overrun(s: State, e: Event) {
    e.Step? && s.ctl.AwaitRecord? && P.Overrun(s.base, P.Go)
  }

  lemma RoomKeptExactly(s: State, k: nat, e: Event, st: SampleType)
    requires PlaceInv(s, k, st) && Admissible(s, e)
    ensures P.Room(Next(s, e, st).base) <==> !Overrun(s, e)
  {
    match e
    case Kernel(x) => P.RoomKeptExactly(s.base, k, x);
    case Signal =>
    case Step =>
      if s.ctl.AwaitHeader? || s.ctl.AwaitField? {
        ReadGoes(s.base, k);
      } else if s.ctl.AwaitRecord? {
        P.RoomKeptExactly(s.base, k, P.Go);
      } else if s.ctl.AwaitSkip? {
        AwaitSkipKeepsPlace(s, k, st);
      }
  }

  // ----- Whole runs -----

  ghost predicate IsRun(data: seq<Byte>, st: SampleType, events: seq<Event>, states: seq<State>) {
    && |states| == |events| + 1 && states[0] == Init(data)
    && forall i :: 0 <= i < |events| ==>
         Admissible(states[i], events[i]) && states[i + 1] == Next(states[i], events[i], st)
  }

  predicate NoOverrun(events: seq<Event>, states: seq<State>, i: nat)
    requires i <= |events| <= |states|
  {
    forall j :: 0 <= j < i ==> !Overrun(states[j], events[j])
  }

  lemma {:induction false} RunKeepsInv(data: seq<Byte>, k: nat, st: SampleType,
                                       events: seq<Event>, states: seq<State>, i: nat)
    requires k < 31 && |data| == Pow2(k) && IsRun(data, st, events, states) && i <= |events|
    requires NoOverrun(events, states, i)
    ensures Inv(states[i], k, st)
  {
    if i > 0 {
      RunKeepsInv(data, k, st, events, states, i - 1);
      RoomKeptExactly(states[i - 1], k, events[i - 1], st);
      NextKeepsInv(states[i - 1], k, events[i - 1], st);
    }
  }

  /**
   In every interleaving with every publication, each sample handed on is what the reader's fields
   are in consecutive published bytes behind a header of kind 9, and no byte is in two samples.
   */
  lemma SamplesAreReal(data: seq<Byte>, k: nat, st: SampleType, events: seq<Event>, states: seq<State>, i: nat)
    requires k < 31 && |data| == Pow2(k) && IsRun(data, st, events, states) && i <= |events|
    requires NoOverrun(events, states, i)
    ensures var s := states[i];
            && |s.places| == |s.samples|
            && (forall a :: 0 <= a < |s.samples| ==> SampleAt(s.base.produced, s.places[a], s.samples[a], st))
            && (forall a :: 0 <= a < |s.samples| ==> BytesOfSample(s.base.produced, s.places[a], st, s.samples[a]))
            && (forall a, b :: 0 <= a < b < |s.samples| ==> s.places[a] + HEADER_SIZE + SampleSize(st) <= s.places[b])
  {
    RunKeepsInv(data, k, st, events, states, i);
    var s := states[i];
    forall a | 0 <= a < |s.samples|
      ensures SampleAt(s.base.produced, s.places[a], s.samples[a], st)
      ensures BytesOfSample(s.base.produced, s.places[a], st, s.samples[a])
      ensures forall b :: a < b < |s.samples| ==> s.places[a] + HEADER_SIZE + SampleSize(st) <= s.places[b]
    {
      HandedApart(s.base.produced, st, s.samples, s.places, |s.samples|, Start(s), a);
      SampleAtExactly(s.base.produced, s.places[a], s.samples[a], st);
    }
  }

  /** What has been handed on, and what has been published, only grows. */
  lemma {:induction false} SamplesGrow(data: seq<Byte>, st: SampleType, events: seq<Event>, states: seq<State>,
                                       i: nat, j: nat)
    requires IsRun(data, st, events, states) && i <= j < |states|
    ensures states[i].samples <= states[j].samples && states[i].places <= states[j].places
    ensures states[i].base.produced <= states[j].base.produced
    decreases j
  {
    if i < j {
      SamplesGrow(data, st, events, states, i, j - 1);
      NextGrows(states[j - 1], events[j - 1], st);
    }
  }

  lemma NextGrows(s: State, e: Event, st: SampleType)
    ensures var s' := Next(s, e, st);
            s.samples <= s'.samples && s.places <= s'.places && s.base.produced <= s'.base.produced
  {
    match e
    case Kernel(x) => BaseGrows(s.base, x);
    case Step => LoopKeepsProduced(s, st);
    case Signal =>
  }

  lemma LoopKeepsProduced(s: State, st: SampleType)
    ensures Loop(s, st).base.produced == s.base.produced
  {
  }

  /**
   An assertion of the loop fails exactly when it checks for a field of a sample that is cut off
   at the head it loaded; a header it reads is always there.
   */
  lemma AbortsExactly(data: seq<Byte>, k: nat, st: SampleType, events: seq<Event>, states: seq<State>, i: nat)
    requires k < 31 && |data| == Pow2(k) && IsRun(data, st, events, states) && i < |events|
    requires NoOverrun(events, states, i) && !states[i].ctl.Aborted?
    ensures states[i + 1].ctl.Aborted? <==> CutOff(states[i], events[i], st)
  {
    RunKeepsInv(data, k, st, events, states, i);
    StepAborts(states[i], k, events[i], st);
  }

  /** The head that the step sees is behind the header of a sample and before the end of the field it is to read. */
  predicate CutOff(s: State, e: Event, st: SampleType) {
    && e.Step? && s.ctl.AwaitField? && s.ctl.rest != [] && s.base.pc.Checking?
    && Start(s) + HEADER_SIZE <= s.base.pc.seenAt < Start(s) + HEADER_SIZE + |s.ctl.got| + s.ctl.rest[0]
  }

  lemma StepAborts(s: State, k: nat, e: Event, st: SampleType)
    requires PlaceInv(s, k, st) && Admissible(s, e) && !s.ctl.Aborted?
    ensures Next(s, e, st).ctl.Aborted? <==> CutOff(s, e, st)
  {
    if e.Step? {
      match s.ctl
      case AwaitHeader => HeaderKeepsPlace(s, k, st);
      case GotFields(_, _, _) => GotFieldsKeepsPlace(s, k, st);
      case AwaitField(_, _, _) => AwaitFieldKeepsPlace(s, k, st);
      case _ =>
    }
  }

  /** Where the loop is about to leave, or has left, the first `h` bytes are behind it. */
  predicate Leaves(s: State, h: nat) {
    && h <= |s.base.produced|
    && match s.ctl
       case SkipNow(last, n) => last ==> h <= s.base.at + n
       case AwaitSkip(last) =>
         last ==> s.base.pc.Skipping? && h <= s.base.at + s.base.pc.n && h <= s.base.pc.seenAt
       case Done => h <= s.base.at
       case _ => true
  }

  lemma LoopKeepsLeaves(s: State, k: nat, st: SampleType, h: nat)
    requires PlaceInv(s, k, st) && Leaves(s, h)
    ensures Leaves(Loop(s, st), h)
  {
    match s.ctl
    case Top => RemainingIsUnread(s.base, k);
    case SkipAll(_) => RemainingIsUnread(s.base, k);
    case AwaitSkip(_) => AwaitSkipKeepsPlace(s, k, st);
    case _ =>
  }

  lemma NextKeepsLeaves(s: State, k: nat, e: Event, st: SampleType, h: nat)
    requires PlaceInv(s, k, st) && Admissible(s, e) && Leaves(s, h)
    ensures Leaves(Next(s, e, st), h)
  {
    match e
    case Kernel(x) => BaseGrows(s.base, x);
    case Step => LoopKeepsLeaves(s, k, st, h);
    case Signal =>
  }

  /** Whenever the loop is done, all that was published when it last looked has been read or skipped. */
  lemma {:induction false} DoneLeavesNothing(data: seq<Byte>, k: nat, st: SampleType, events: seq<Event>,
                                             states: seq<State>, i: nat, j: nat)
    requires k < 31 && |data| == Pow2(k) && IsRun(data, st, events, states) && i <= j <= |events|
    requires NoOverrun(events, states, j) && states[i].ctl.Top?
    ensures Leaves(states[j], |states[i].base.produced|)
    ensures states[j].ctl.Done? ==> |states[i].base.produced| <= states[j].base.at
    decreases j
  {
    if i < j {
      DoneLeavesNothing(data, k, st, events, states, i, j - 1);
      RunKeepsInv(data, k, st, events, states, j - 1);
      NextKeepsLeaves(states[j - 1], k, events[j - 1], st, |states[i].base.produced|);
    }
  }
}
