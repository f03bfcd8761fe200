/**
 The drain loop on streams in which a sample record is just what the reader takes of it: then
 nothing is dropped, and the samples are those of the stream read record by record.
 */
module PerfWhole {
  import opened WordArithmetic
  import opened PerfRing
  import opened PerfRecords
  import opened D = PerfDrain
  import P = PerfProtocol

  // ----- Whole records -----

  /** From `t` on the stream is whole records, as the reader frames them. */
  predicate Whole(s: seq<Byte>, t: nat, st: SampleType)
    requires t <= |s|
    decreases |s| - t
  {
    t == |s| ||
    match ItemAt(s, t, st)
    case Stop(_) => false
    case Sampled(_, next) => Whole(s, next, st)
    case Skipped(next) => HEADER_SIZE <= DecodeHeader(s, t).size && Whole(s, next, st)
  }

  /** A record that is there stays what it is while the stream grows. */
  lemma ItemKept(s: seq<Byte>, s': seq<Byte>, t: nat, st: SampleType)
    requires t <= |s| && s <= s' && !ItemAt(s, t, st).Stop?
    ensures ItemAt(s', t, st) == ItemAt(s, t, st)
    ensures DecodeHeader(s', t) == DecodeHeader(s, t)
  {
    HeaderKept(s, s', t);
    if DecodeHeader(s, t).kind == RECORD_SAMPLE {
      SampleKept(s, s', t + HEADER_SIZE, st, IsPrecise(DecodeHeader(s, t)));
    }
  }

  // ----- Where a parse is -----

  /**
   Position `t` is between two records, with `samples` before it: so it is for the stream `s`
   and for whatever it grows into.
   */
  ghost predicate Between(s: seq<Byte>, t: nat, st: SampleType, samples: seq<Sample>) {
    t <= |s| && forall s' :: s <= s' ==> ParsesOn(s', t, st, samples)
  }

  ghost predicate ParsesOn(s: seq<Byte>, t: nat, st: SampleType, samples: seq<Sample>) {
    && t <= |s| && Parse(s, 0, st, []) == Parse(s, t, st, samples)
    && (Whole(s, 0, st) ==> Whole(s, t, st))
  }

  lemma BetweenGrows(s: seq<Byte>, s': seq<Byte>, t: nat, st: SampleType, samples: seq<Sample>)
    requires Between(s, t, st, samples) && s <= s'
    ensures Between(s', t, st, samples)
  {
    forall s'' | s' <= s''
      ensures ParsesOn(s'', t, st, samples)
    {
      assert s <= s'';
    }
  }

  /** Past a sample, or past a skipped record. */
  lemma BetweenNext(s: seq<Byte>, t: nat, st: SampleType, samples: seq<Sample>)
    requires Between(s, t, st, samples) && !ItemAt(s, t, st).Stop?
    ensures match ItemAt(s, t, st)
            case Sampled(sample, next) => Between(s, next, st, samples + [sample])
            case Skipped(next) => Between(s, next, st, samples)
            case Stop(_) => false
  {
    var item := ItemAt(s, t, st);
    var samples' := if item.Sampled? then samples + [item.sample] else samples;
    forall s' | s <= s'
      ensures ParsesOn(s', item.next, st, samples')
    {
      assert ParsesOn(s', t, st, samples);
      ItemKept(s, s', t, st);
    }
  }

  /** A parse only adds to the samples before it. */
  lemma {:induction false} ParseExtends(s: seq<Byte>, t: nat, st: SampleType, before: seq<Sample>)
    requires t <= |s|
    ensures before <= Parse(s, t, st, before).samples
    decreases |s| - t
  {
    match ItemAt(s, t, st)
    case Stop(_) =>
    case Sampled(sample, next) => ParseExtends(s, next, st, before + [sample]);
    case Skipped(next) => ParseExtends(s, next, st, before);
  }

  // ----- The loop on such a stream -----

  /** A whole record is at `u`, and the head loaded last is not before its end. */
  predicate Seen(s: seq<Byte>, u: nat, st: SampleType, seenAt: nat) {
    u <= |s| && !ItemAt(s, u, st).Stop? && ItemAt(s, u, st).next <= seenAt
  }

  predicate WholeOk(s: seq<Byte>, pc: P.Pc, ctl: Ctl, st: SampleType, u: nat) {
    match ctl
    case AwaitField(_, _, _) => pc.Checking? ==> Seen(s, u, st, pc.seenAt)
    case AwaitRecord(h) => HEADER_SIZE <= h.size && pc.Skipping? && Seen(s, u, st, pc.seenAt)
    case SkipAll(_) => false
    case SkipNow(_, _) => false
    case AwaitSkip(_) => false
    case Aborted => false
    case _ => true
  }

  ghost predicate WholeInv(s: State, st: SampleType) {
    && Between(s.base.produced, Start(s), st, s.samples)
    && WholeOk(s.base.produced, s.base.pc, s.ctl, st, Start(s))
  }

  /** Between two records of a whole stream there is the end or another record. */
  lemma RecordNext(s: seq<Byte>, u: nat, st: SampleType, samples: seq<Sample>)
    requires Between(s, u, st, samples) && Whole(s, 0, st) && u < |s|
    ensures Seen(s, u, st, |s|) && (ItemAt(s, u, st).Skipped? ==> HEADER_SIZE <= DecodeHeader(s, u).size)
  {
    assert ParsesOn(s, u, st, samples);
  }

  lemma WholeInvGrows(s: State, b': P.State, st: SampleType)
    requires WholeInv(s, st) && s.base.produced <= b'.produced && b'.pc == s.base.pc && b'.at == s.base.at
    ensures WholeInv(s.(base := b'), st)
  {
    var u, produced := Start(s), s.base.produced;
    BetweenGrows(produced, b'.produced, u, st, s.samples);
    if !ItemAt(produced, u, st).Stop? {
      ItemKept(produced, b'.produced, u, st);
    }
  }

  lemma TopKeepsWhole(s: State, k: nat, st: SampleType)
    requires PlaceInv(s, k, st) && WholeInv(s, st) && Whole(s.base.produced, 0, st) && s.ctl.Top?
    ensures WholeInv(Loop(s, st), st)
  {
    RemainingIsUnread(s.base, k);
    EnoughLeft(s, st);
  }

  /** What is left is nothing, or a header at least. */
  lemma EnoughLeft(s: State, st: SampleType)
    requires WholeInv(s, st) && Whole(s.base.produced, 0, st) && s.ctl.Top?
    ensures s.base.at == |s.base.produced| || s.base.at + HEADER_SIZE <= |s.base.produced|
  {
    if s.base.at < |s.base.produced| {
      RecordNext(s.base.produced, s.base.at, st, s.samples);
    }
  }

  lemma GotHeaderKeepsWhole(s: State, st: SampleType)
    requires Placed(s, st) && WholeInv(s, st) && Whole(s.base.produced, 0, st) && s.ctl.GotHeader?
    ensures WholeInv(Loop(s, st), st)
  {
    RecordNext(s.base.produced, Start(s), st, s.samples);
  }

  lemma FieldsEndKeepsWhole(s: State, s': State, st: SampleType)
    requires WholeInv(s, st) && HandsOn(s, s', st)
    ensures WholeInv(s', st)
  {
    BetweenNext(s.base.produced, Start(s), st, s.samples);
  }

  lemma GotFieldsKeepsWhole(s: State, st: SampleType)
    requires Placed(s, st) && WholeInv(s, st) && Whole(s.base.produced, 0, st) && s.ctl.GotFields?
    ensures WholeInv(Loop(s, st), st)
  {
    if s.ctl.rest == [] {
      FieldsHandOn(s, st);
      FieldsEndKeepsWhole(s, Loop(s, st), st);
    } else {
      RecordNext(s.base.produced, Start(s), st, s.samples);
    }
  }

  lemma AwaitFieldKeepsWhole(s: State, k: nat, st: SampleType)
    requires PlaceInv(s, k, st) && WholeInv(s, st) && s.ctl.AwaitField?
    ensures WholeInv(Loop(s, st), st)
  {
    ReadGoes(s.base, k);
    FieldGoes(s, st);
    if s.base.pc.Checking? {
      FieldIsThere(s, st);
    }
    FieldAdvances(s, st);
    SameRecordKeepsWhole(s, Loop(s, st), st);
  }

  lemma FieldAdvances(s: State, st: SampleType)
    requires Placed(s, st) && s.ctl.AwaitField? && ReadStep(s.base, P.Next(s.base, P.Go))
    requires s.base.pc.Checking? ==> s.base.at + s.ctl.rest[0] <= s.base.pc.seenAt
    ensures var s' := Loop(s, st);
            s'.ctl.GotFields? || (s'.ctl.AwaitField? && !s'.base.pc.Checking?)
  {
  }

  /** The loop goes on within a sample. */
  lemma SameRecordKeepsWhole(s: State, s': State, st: SampleType)
    requires WholeInv(s, st) && s'.base.produced == s.base.produced && s'.samples == s.samples && Start(s') == Start(s)
    requires s'.ctl.GotFields? || (s'.ctl.AwaitField? && !s'.base.pc.Checking?)
    ensures WholeInv(s', st)
  {
  }

  lemma FieldIsThere(s: State, st: SampleType)
    requires Placed(s, st) && WholeInv(s, st) && s.ctl.AwaitField? && s.base.pc.Checking?
    ensures s.base.at + s.ctl.rest[0] <= s.base.pc.seenAt
  {
    assert Sum(s.ctl.rest) == s.ctl.rest[0] + Sum(s.ctl.rest[1..]);
  }

  lemma AwaitRecordKeepsWhole(s: State, k: nat, st: SampleType)
    requires PlaceInv(s, k, st) && WholeInv(s, st) && s.ctl.AwaitRecord? && !P.FailingSkip(s.base, P.Go)
    ensures WholeInv(Loop(s, st), st)
  {
    P.SkipEffect(s.base, k);
    BetweenNext(s.base.produced, Start(s), st, s.samples);
  }

  lemma LoopKeepsWhole(s: State, k: nat, st: SampleType)
    requires PlaceInv(s, k, st) && WholeInv(s, st) && Whole(s.base.produced, 0, st) && !P.FailingSkip(s.base, P.Go)
    ensures WholeInv(Loop(s, st), st)
  {
    match s.ctl
    case Top => TopKeepsWhole(s, k, st);
    case AwaitHeader =>
      ReadGoes(s.base, k);
      HeaderGoes(s, st);
    case GotHeader(_) => GotHeaderKeepsWhole(s, st);
    case GotFields(_, _, _) => GotFieldsKeepsWhole(s, st);
    case AwaitField(_, _, _) => AwaitFieldKeepsWhole(s, k, st);
    case AwaitRecord(_) => AwaitRecordKeepsWhole(s, k, st);
    case _ =>
  }

  lemma NextKeepsWhole(s: State, k: nat, e: Event, st: SampleType)
    requires PlaceInv(s, k, st) && WholeInv(s, st) && Admissible(s, e)
    requires Whole(s.base.produced, 0, st) && (e.Step? ==> !P.FailingSkip(s.base, P.Go))
    ensures WholeInv(Next(s, e, st), st)
  {
    match e
    case Kernel(x) =>
      BaseGrows(s.base, x);
      WholeInvGrows(s, P.Next(s.base, x), st);
    case Step => LoopKeepsWhole(s, k, st);
    case Signal =>
  }

  // ----- Whole runs -----

  /** The first `i` events publish whole records only, and none completes a skip that fails. */
  predicate WholeRun(st: SampleType, events: seq<Event>, states: seq<State>, i: nat)
    requires i <= |events| < |states|
  {
    && (forall j :: 0 <= j <= i ==> Whole(states[j].base.produced, 0, st))
    && (forall j :: 0 <= j < i && events[j].Step? ==> !P.FailingSkip(states[j].base, P.Go))
  }

  lemma {:induction false} RunKeepsWhole(data: seq<Byte>, k: nat, st: SampleType,
                                         events: seq<Event>, states: seq<State>, i: nat)
    requires k < 31 && |data| == Pow2(k) && IsRun(data, st, events, states) && i <= |events|
    requires WholeRun(st, events, states, i)
    ensures Inv(states[i], k, st) && WholeInv(states[i], st)
  {
    RunKeepsInv(data, k, st, events, states, i);
    if i > 0 {
      RunKeepsWhole(data, k, st, events, states, i - 1);
      NextKeepsWhole(states[i - 1], k, events[i - 1], st);
    } else {
      assert forall s' :: [] <= s' ==> ParsesOn(s', 0, st, []);
    }
  }

  /**
   In every interleaving no assertion of the loop fails, and the samples handed on at any time
   are a prefix of the samples of the stream at any later time, read record by record.
   */
  lemma SamplesArePrefix(data: seq<Byte>, k: nat, st: SampleType, events: seq<Event>, states: seq<State>,
                         i: nat, j: nat)
    requires k < 31 && |data| == Pow2(k) && IsRun(data, st, events, states) && i <= j <= |events|
    requires WholeRun(st, events, states, i)
    ensures !states[i].ctl.Aborted?
    ensures states[i].samples <= Parse(states[j].base.produced, 0, st, []).samples
  {
    RunKeepsWhole(data, k, st, events, states, i);
    SamplesGrow(data, st, events, states, i, j);
    var s, final := states[i], states[j].base.produced;
    assert ParsesOn(final, Start(s), st, s.samples);
    ParseExtends(final, Start(s), st, s.samples);
  }

  /** When the loop finds nothing more, it has handed on the samples of everything published. */
  lemma DoneIsComplete(data: seq<Byte>, k: nat, st: SampleType, events: seq<Event>, states: seq<State>, i: nat)
    requires k < 31 && |data| == Pow2(k) && IsRun(data, st, events, states) && i < |events|
    requires WholeRun(st, events, states, i)
    requires events[i].Step? && states[i].ctl.Top? && states[i + 1].ctl.Done?
    ensures states[i + 1].samples == Parse(states[i + 1].base.produced, 0, st, []).samples
    ensures forall records :: RecordsAt(states[i + 1].base.produced, 0, st, records, 0) ==>
              states[i + 1].samples == SamplesFrom([], records, 0)
  {
    RunKeepsWhole(data, k, st, events, states, i);
    var s := states[i];
    RemainingKeepsPlace(s, k, st);
    assert ParsesOn(s.base.produced, |s.base.produced|, st, s.samples);
    forall records | RecordsAt(s.base.produced, 0, st, records, 0)
      ensures Parse(s.base.produced, 0, st, []).samples == SamplesFrom([], records, 0)
    {
      ParseOfRecords(s.base.produced, 0, st, records, 0, []);
    }
  }

  /** A stream of records, each sample with its fields and each other record with its body, is whole. */
  lemma {:induction false} RecordsAreWhole(s: seq<Byte>, t: nat, st: SampleType, records: seq<Record>, i: nat)
    requires t <= |s| && RecordsAt(s, t, st, records, i)
    ensures Whole(s, t, st)
    decreases |records| - i
  {
    if i < |records| {
      var next := t + RecordSize(st, records[i]);
      OneRecord(s, t, st, records[i]);
      RecordsAreWhole(s, next, st, records, i + 1);
    }
  }

  lemma OneRecord(s: seq<Byte>, t: nat, st: SampleType, r: Record)
    requires RecordAt(s, t, st, r)
    ensures t < t + RecordSize(st, r) <= |s| && !ItemAt(s, t, st).Stop?
    ensures ItemAt(s, t, st).next == t + RecordSize(st, r)
    ensures ItemAt(s, t, st).Skipped? ==> HEADER_SIZE <= DecodeHeader(s, t).size
  {
    RecordItem(s, t, st, r);
    if r.OtherRecord? {
      HeaderExactly(s, t, r.h);
    }
  }
}
