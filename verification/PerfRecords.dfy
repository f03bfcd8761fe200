/**
 Records of the perf stream: what their bytes are, what the reader makes of them, and the parse
 of a whole stream.
 */
module PerfRecords {
  import opened WordArithmetic
  import opened PerfRing

  // ----- Records on a plain byte stream -----

  /** PERF_RECORD_SAMPLE */
  const RECORD_SAMPLE: nat := 9

  /** PERF_RECORD_MISC_EXACT_IP is bit 14 of misc. */
  const MISC_EXACT_IP: nat := 0x4000

  const HEADER_SIZE: nat := 8

  /** perf_event_header */
  datatype Header = Header(kind: nat, misc: nat, size: nat)

  /** Which of the fields that the reader knows are in the sample type. */
  datatype SampleType = SampleType(ip: bool, tid: bool, addr: bool, cpu: bool)

  datatype Sample = Sample(ip: nat, pid: nat, tid: nat, addr: nat, cpu: nat, isPrecise: bool)

  /** The unsigned little-endian number in the bytes from `i` on. */
  function LittleEndian(s: seq<Byte>, i: nat): nat
    decreases |s| - i
  {
    if |s| <= i then 0 else s[i] as nat + 256 * LittleEndian(s, i + 1)
  }

  /** The number in the `n` bytes at position `t`. */
  function Field(s: seq<Byte>, t: nat, n: nat): nat
    requires t + n <= |s|
  {
    LittleEndian(s[t..t + n], 0)
  }

  lemma ShortBound(s: seq<Byte>, t: nat)
    requires t + 2 <= |s|
    ensures Field(s, t, 2) < 0x1_0000
  {
    assert LittleEndian(s[t..t + 2], 1) == s[t + 1] as nat;
  }

  function DecodeHeader(s: seq<Byte>, t: nat): Header
    requires t + HEADER_SIZE <= |s|
  {
    Header(Field(s, t, 4), Field(s, t + 4, 2), Field(s, t + 6, 2))
  }

  function IsPrecise(h: Header): bool {
    h.misc / MISC_EXACT_IP % 2 == 1
  }

  function SampleSize(st: SampleType): nat {
    (if st.ip then 8 else 0) + (if st.tid then 8 else 0) + (if st.addr then 8 else 0) + (if st.cpu then 4 else 0)
  }

  /** The fields in the order the reader takes them; those not in the type are zero. */
  function DecodeSample(s: seq<Byte>, t: nat, st: SampleType, precise: bool): Sample
    requires t + SampleSize(st) <= |s|
  {
    var afterIp := t + if st.ip then 8 else 0;
    var afterTid := afterIp + if st.tid then 8 else 0;
    var afterAddr := afterTid + if st.addr then 8 else 0;
    Sample(
      if st.ip then Field(s, t, 8) else 0,
      if st.tid then Field(s, afterIp, 4) else 0,
      if st.tid then Field(s, afterIp + 4, 4) else 0,
      if st.addr then Field(s, afterTid, 8) else 0,
      if st.cpu then Field(s, afterAddr, 4) else 0,
      precise)
  }

  /** The samples of a stream, and whether it ends inside a sample. */
  datatype Parsed = Parsed(samples: seq<Sample>, truncated: bool)

  /** What is at a position: nothing more (or a cut-off sample), a sample, or a record to skip. */
  datatype Item = Stop(truncated: bool) | Sampled(sample: Sample, next: nat) | Skipped(next: nat)

  function ItemAt(s: seq<Byte>, t: nat, st: SampleType): (item: Item)
    requires t <= |s|
    ensures item.Sampled? || item.Skipped? ==> t < item.next <= |s|
  {
    if |s| < t + HEADER_SIZE then Stop(false)
    else
      var h := DecodeHeader(s, t);
      var body := t + HEADER_SIZE;
      if h.kind == RECORD_SAMPLE then
        if |s| < body + SampleSize(st) then Stop(true)
        else Sampled(DecodeSample(s, body, st, IsPrecise(h)), body + SampleSize(st))
      else if h.size == 0 || |s| < t + h.size then Stop(false)
      else Skipped(t + h.size)
  }

  /** Parse from position `t`, given the samples found before it. */
  function Parse(s: seq<Byte>, t: nat, st: SampleType, before: seq<Sample>): Parsed
    requires t <= |s|
    decreases |s| - t
  {
    match ItemAt(s, t, st)
    case Stop(truncated) => Parsed(before, truncated)
    case Sampled(sample, next) => Parse(s, next, st, before + [sample])
    case Skipped(next) => Parse(s, next, st, before)
  }

  /** The record at `t`, if it is one to skip, is not astride the wrap of the counters (see `SkipsWell`). */
  ghost predicate PassesWell(s: seq<Byte>, t: nat) {
    |s| >= t + HEADER_SIZE ==>
      var h := DecodeHeader(s, t);
      h.kind != RECORD_SAMPLE && h.size > 0 ==> SkipsWell(Ring([], |s| % TWO_64, t % TWO_64), h.size)
  }

  /** The same of every record on the way from `t`. */
  ghost predicate ParsesWell(s: seq<Byte>, t: nat, st: SampleType)
    requires t <= |s|
    decreases |s| - t
  {
    && PassesWell(s, t)
    && match ItemAt(s, t, st)
       case Stop(_) => true
       case Sampled(_, next) => ParsesWell(s, next, st)
       case Skipped(next) => ParsesWell(s, next, st)
  }

  /** Until nearly 2^64 bytes have been produced, every stream parses well. */
  lemma {:induction false} ShortParsesWell(s: seq<Byte>, t: nat, st: SampleType)
    requires t <= |s| && |s| + 0x1_0000 <= TWO_64
    ensures ParsesWell(s, t, st)
    decreases |s| - t
  {
    if |s| >= t + HEADER_SIZE {
      ShortBound(s, t + 6);
      match ItemAt(s, t, st)
      case Stop(_) =>
      case Sampled(_, next) => ShortParsesWell(s, next, st);
      case Skipped(next) => ShortParsesWell(s, next, st);
    }
  }

  // ----- Records that are only skipped -----

  /** Not a sample, and as long as its header says. */
  predicate Skippable(record: seq<Byte>) {
    && HEADER_SIZE <= |record|
    && DecodeHeader(record, 0).kind != RECORD_SAMPLE
    && DecodeHeader(record, 0).size == |record|
  }

  function Flatten(records: seq<seq<Byte>>): seq<Byte> {
    if records == [] then [] else records[0] + Flatten(records[1..])
  }

  lemma HeaderInStream(before: seq<Byte>, record: seq<Byte>, after: seq<Byte>)
    requires HEADER_SIZE <= |record|
    ensures var s := before + record + after;
            DecodeHeader(s, |before|) == DecodeHeader(record, 0)
  {
    var s, t := before + record + after, |before|;
    assert s[t..t + 4] == record[0..4] && s[t + 4..t + 6] == record[4..6] && s[t + 6..t + 8] == record[6..8];
  }

  lemma SkippableItem(s: seq<Byte>, t: nat, record: seq<Byte>, st: SampleType)
    requires Skippable(record) && t + |record| <= |s| && s[t..t + |record|] == record
    ensures ItemAt(s, t, st) == Skipped(t + |record|)
  {
    var u := t + |record|;
    assert s == s[..t] + record + s[u..];
    HeaderInStream(s[..t], record, s[u..]);
  }

  lemma FlattenSplits(s: seq<Byte>, t: nat, records: seq<seq<Byte>>)
    requires records != [] && t + |Flatten(records)| <= |s| && s[t..t + |Flatten(records)|] == Flatten(records)
    ensures var u := t + |records[0]|;
            && u + |Flatten(records[1..])| == t + |Flatten(records)|
            && s[t..u] == records[0] && s[u..u + |Flatten(records[1..])|] == Flatten(records[1..])
  {
    var u, all := t + |records[0]|, Flatten(records);
    assert all[..|records[0]|] == records[0] && all[|records[0]|..] == Flatten(records[1..]);
    assert s[t..u] == s[t..t + |all|][..|records[0]|];
    assert s[u..t + |all|] == s[t..t + |all|][|records[0]|..];
  }

  ghost predicate AllSkippable(records: seq<seq<Byte>>) {
    forall i {:trigger Skippable(records[i])} :: 0 <= i < |records| ==> Skippable(records[i])
  }

  lemma RestSkippable(records: seq<seq<Byte>>)
    requires records != [] && AllSkippable(records)
    ensures Skippable(records[0]) && AllSkippable(records[1..])
  {
    forall i {:trigger Skippable(records[1..][i])} | 0 <= i < |records| - 1
      ensures Skippable(records[1..][i])
    {
      assert Skippable(records[i + 1]);
    }
  }

  /** Skipping keeps the framing: after any number of such records the parse is at the next one. */
  lemma {:induction false} ParseSkipsRecords(s: seq<Byte>, t: nat, records: seq<seq<Byte>>,
                                             st: SampleType, samples: seq<Sample>)
    requires AllSkippable(records)
    requires t + |Flatten(records)| <= |s| && s[t..t + |Flatten(records)|] == Flatten(records)
    ensures Parse(s, t, st, samples) == Parse(s, t + |Flatten(records)|, st, samples)
    decreases |records|
  {
    if records != [] {
      var u := t + |records[0]|;
      FlattenSplits(s, t, records);
      RestSkippable(records);
      SkippableItem(s, t, records[0], st);
      ParseSkipsRecords(s, u, records[1..], st, samples);
      ParseNext(s, t, st, samples);
    } else {
      assert Flatten(records) == [];
    }
  }

  lemma ParseNext(s: seq<Byte>, t: nat, st: SampleType, samples: seq<Sample>)
    requires t <= |s| && ItemAt(s, t, st).Skipped?
    ensures Parse(s, t, st, samples) == Parse(s, ItemAt(s, t, st).next, st, samples)
  {
  }

  // ----- Fields of a growing stream -----

  lemma FieldKept(s: seq<Byte>, s': seq<Byte>, t: nat, n: nat)
    requires t + n <= |s| && s <= s'
    ensures Field(s', t, n) == Field(s, t, n)
  {
    assert s'[t..t + n] == s[t..t + n];
  }

  lemma HeaderKept(s: seq<Byte>, s': seq<Byte>, t: nat)
    requires t + HEADER_SIZE <= |s| && s <= s'
    ensures DecodeHeader(s', t) == DecodeHeader(s, t)
  {
    FieldKept(s, s', t, 4);
    FieldKept(s, s', t + 4, 2);
    FieldKept(s, s', t + 6, 2);
  }

  lemma SampleKept(s: seq<Byte>, s': seq<Byte>, t: nat, st: SampleType, precise: bool)
    requires t + SampleSize(st) <= |s| && s <= s'
    ensures DecodeSample(s', t, st, precise) == DecodeSample(s, t, st, precise)
  {
    assert s'[t..t + SampleSize(st)] == s[t..t + SampleSize(st)];
    SampleMoves(s, t, s[t..t + SampleSize(st)], st, precise);
    SampleMoves(s', t, s[t..t + SampleSize(st)], st, precise);
  }

  /** The fields depend on the bytes of the sample only. */
  lemma SampleMoves(s: seq<Byte>, t: nat, bytes: seq<Byte>, st: SampleType, precise: bool)
    requires t + SampleSize(st) <= |s| && bytes == s[t..t + SampleSize(st)]
    ensures DecodeSample(s, t, st, precise) == DecodeSample(bytes, 0, st, precise)
  {
    var afterIp := if st.ip then 8 else 0;
    var afterTid := afterIp + if st.tid then 8 else 0;
    var afterAddr := afterTid + if st.addr then 8 else 0;
    if st.ip {
      FieldMoves(s, t, bytes, 0, 8);
    }
    if st.tid {
      FieldMoves(s, t, bytes, afterIp, 4);
      FieldMoves(s, t, bytes, afterIp + 4, 4);
    }
    if st.addr {
      FieldMoves(s, t, bytes, afterTid, 8);
    }
    if st.cpu {
      FieldMoves(s, t, bytes, afterAddr, 4);
    }
  }

  lemma FieldMoves(s: seq<Byte>, t: nat, bytes: seq<Byte>, i: nat, n: nat)
    requires t + |bytes| <= |s| && bytes == s[t..t + |bytes|] && i + n <= |bytes|
    ensures Field(s, t + i, n) == Field(bytes, i, n)
  {
    assert forall j :: i <= j < i + n ==> bytes[j] == s[t + j];
    assert s[t + i..t + i + n] == bytes[i..i + n];
  }

  lemma HeaderMoves(s: seq<Byte>, t: nat, bytes: seq<Byte>)
    requires t + HEADER_SIZE <= |s| && bytes == s[t..t + HEADER_SIZE]
    ensures DecodeHeader(bytes, 0) == DecodeHeader(s, t)
  {
    FieldMoves(s, t, bytes, 0, 4);
    FieldMoves(s, t, bytes, 4, 2);
    FieldMoves(s, t, bytes, 6, 2);
  }

  // ----- What the bytes of a record are -----

  /** 256 to the power n. */
  function Power256(n: nat): (p: nat)
    ensures p > 0
  {
    if n == 0 then 1 else 256 * Power256(n - 1)
  }

  /** `x` in `n` bytes: byte `i` holds the bits from 8 i on. */
  function BytesOf(x: nat, n: nat): (s: seq<Byte>) {
    seq(n, i requires 0 <= i < n => (x / Power256(i) % 256) as Byte)
  }

  /** The bytes of a record header. */
  function HeaderBytes(h: Header): seq<Byte> {
    BytesOf(h.kind, 4) + (BytesOf(h.misc, 2) + BytesOf(h.size, 2))
  }

  /** A sample's bytes: instruction pointer, process, thread, data address, cpu, where the type has them. */
  function SampleBytes(st: SampleType, x: Sample): seq<Byte> {
    if st.ip then BytesOf(x.ip, 8) + BytesFromTid(st, x) else BytesFromTid(st, x)
  }

  function BytesFromTid(st: SampleType, x: Sample): seq<Byte> {
    if st.tid then BytesOf(x.pid, 4) + (BytesOf(x.tid, 4) + BytesFromAddr(st, x)) else BytesFromAddr(st, x)
  }

  function BytesFromAddr(st: SampleType, x: Sample): seq<Byte> {
    if st.addr then BytesOf(x.addr, 8) + BytesFromCpu(st, x) else BytesFromCpu(st, x)
  }

  function BytesFromCpu(st: SampleType, x: Sample): seq<Byte> {
    if st.cpu then BytesOf(x.cpu, 4) else []
  }

  /** The numbers fit their bytes. */
  predicate HeaderFits(h: Header) {
    h.kind < TWO_32 && h.misc < 0x1_0000 && h.size < 0x1_0000
  }

  /** The numbers fit their bytes, and those not in the type are zero. */
  predicate SampleFits(st: SampleType, x: Sample) {
    && (if st.ip then x.ip < TWO_64 else x.ip == 0)
    && (if st.tid then x.pid < TWO_32 && x.tid < TWO_32 else x.pid == 0 && x.tid == 0)
    && (if st.addr then x.addr < TWO_64 else x.addr == 0)
    && (if st.cpu then x.cpu < TWO_32 else x.cpu == 0)
  }

  /** These bytes are at position `t`. */
  predicate BytesAt(s: seq<Byte>, t: nat, bytes: seq<Byte>) {
    t + |bytes| <= |s| && s[t..t + |bytes|] == bytes
  }

  /** Numbers whose bytes, for the sample type, are at position `t`. */
  predicate FieldsAre(s: seq<Byte>, t: nat, st: SampleType, x: Sample) {
    SampleFits(st, x) && BytesAt(s, t, SampleBytes(st, x))
  }

  /** A sample record with the numbers of `x`: a header of kind 9, precise as bit 14 of misc says, and the fields. */
  predicate HasSample(s: seq<Byte>, t: nat, st: SampleType, misc: nat, size: nat, x: Sample) {
    && HeaderFits(Header(9, misc, size)) && BytesAt(s, t, HeaderBytes(Header(9, misc, size)))
    && (x.isPrecise <==> BitAnd(misc, 0x4000) != 0)
    && FieldsAre(s, t + 8, st, x)
  }

  // ----- Numbers and their bytes -----

  lemma DivideTwice(x: nat, p: nat)
    requires p > 0
    ensures x / p / 256 == x / (256 * p)
  {
    var q, r := x / p, x % p;
    var a, b := q / 256, q % 256;
    assert x == q * p + r && q == 256 * a + b;
    Regroup(a, b, p);
    DivModUnique(x, 256 * p, a, b * p + r);
  }

  lemma Regroup(a: nat, b: nat, p: nat)
    requires b < 256
    ensures (256 * a + b) * p == a * (256 * p) + b * p && 0 <= b * p <= 255 * p
  {
    MulDistributes(256 * a, b, p);
    MulAssociates(a, 256, p);
    MulDistributes(b, 255 - b, p);
  }

  /** The number in the bytes from `i` on is what is left after division. */
  lemma {:induction false} RestOfNumber(s: seq<Byte>, i: nat)
    requires i <= |s|
    ensures LittleEndian(s, i) == LittleEndian(s, 0) / Power256(i)
  {
    if i > 0 {
      RestOfNumber(s, i - 1);
      DivideTwice(LittleEndian(s, 0), Power256(i - 1));
    }
  }

  lemma {:induction false} NumberBound(s: seq<Byte>, i: nat)
    requires i <= |s|
    ensures LittleEndian(s, i) < Power256(|s| - i)
    decreases |s| - i
  {
    if i < |s| {
      NumberBound(s, i + 1);
    }
  }

  /** A sequence of bytes is the bytes of its number. */
  lemma BytesOfNumber(s: seq<Byte>)
    ensures s == BytesOf(LittleEndian(s, 0), |s|) && LittleEndian(s, 0) < Power256(|s|)
  {
    forall i | 0 <= i < |s|
      ensures s[i] as nat == LittleEndian(s, 0) / Power256(i) % 256
    {
      RestOfNumber(s, i);
    }
    NumberBound(s, 0);
  }

  /** The number of some bytes is what they were made of. */
  lemma {:induction false} NumberOfBytes(x: nat, n: nat, i: nat)
    requires x < Power256(n) && i <= n
    ensures LittleEndian(BytesOf(x, n), i) == x / Power256(i)
    decreases n - i
  {
    if i < n {
      NumberOfBytes(x, n, i + 1);
      DivideTwice(x, Power256(i));
    }
  }

  /** A field is `x` exactly when its bytes are those of `x`. */
  lemma FieldExactly(s: seq<Byte>, t: nat, n: nat, x: nat)
    requires t + n <= |s|
    ensures Field(s, t, n) == x <==> x < Power256(n) && BytesAt(s, t, BytesOf(x, n))
  {
    NumberExactly(s[t..t + n], x);
  }

  lemma NumberExactly(s: seq<Byte>, x: nat)
    ensures LittleEndian(s, 0) == x <==> x < Power256(|s|) && s == BytesOf(x, |s|)
  {
    BytesOfNumber(s);
    if x < Power256(|s|) {
      NumberOfBytes(x, |s|, 0);
    }
  }

  lemma Widths()
    ensures Power256(2) == 0x1_0000 && Power256(4) == TWO_32 && Power256(8) == TWO_64
  {
    assert Power256(3) == 0x100_0000;
    assert Power256(6) == 0x1_0000_0000_0000;
  }

  /** Two pieces are at `t` exactly when each is at its place. */
  lemma PiecesAt(s: seq<Byte>, t: nat, a: seq<Byte>, b: seq<Byte>)
    ensures BytesAt(s, t, a + b) <==> BytesAt(s, t, a) && BytesAt(s, t + |a|, b)
  {
    var u, v := t + |a|, t + |a| + |b|;
    if v <= |s| {
      assert s[t..v] == s[t..u] + s[u..v];
      if BytesAt(s, t, a + b) {
        assert (a + b)[..|a|] == a && (a + b)[|a|..] == b;
        assert s[t..u] == s[t..v][..|a|] && s[u..v] == s[t..v][|a|..];
      }
    }
  }

  // ----- The reader's header and sample -----

  /** A header is read exactly from its bytes. */
  lemma HeaderExactly(s: seq<Byte>, t: nat, h: Header)
    requires t + HEADER_SIZE <= |s|
    ensures DecodeHeader(s, t) == h <==> HeaderFits(h) && BytesAt(s, t, HeaderBytes(h))
  {
    Widths();
    FieldExactly(s, t, 4, h.kind);
    FieldExactly(s, t + 4, 2, h.misc);
    FieldExactly(s, t + 6, 2, h.size);
    PiecesAt(s, t, BytesOf(h.kind, 4), BytesOf(h.misc, 2) + BytesOf(h.size, 2));
    PiecesAt(s, t + 4, BytesOf(h.misc, 2), BytesOf(h.size, 2));
  }

  /** What is read as precise is bit 14. */
  lemma PreciseIsBit14(h: Header)
    ensures IsPrecise(h) <==> BitAnd(h.misc, 0x4000) != 0
  {
    AndPower(h.misc, 14);
    assert Pow2(7) == 128;
    Pow2Product(7, 7);
  }

  /** The bit-wise and with a power of two is one bit. */
  lemma {:induction false} AndPower(x: nat, k: nat)
    ensures BitAnd(x, Pow2(k)) != 0 <==> x / Pow2(k) % 2 == 1
    decreases k
  {
    if k == 0 {
      assert BitAnd(x / 2, 0) == 0;
    } else {
      var p := Pow2(k - 1);
      AndPower(x / 2, k - 1);
      HalveTwice(x, p);
      assert 2 * p / 2 == p && 2 * p % 2 == 0;
    }
  }

  lemma HalveTwice(x: nat, p: nat)
    requires p > 0
    ensures x / 2 / p == x / (2 * p)
  {
    HalfRemainder(x, p);
    var q, r := x / 2 / p, x / 2 % p;
    assert x / 2 == q * p + r;
    assert x == q * (2 * p) + (2 * r + x % 2) by {
      assert q * (2 * p) == 2 * (q * p);
    }
    DivModUnique(x, 2 * p, q, 2 * r + x % 2);
  }

  /** A sample's fields are read exactly from their bytes, each in its place. */
  lemma SampleExactly(s: seq<Byte>, t: nat, st: SampleType, precise: bool, x: Sample)
    requires t + SampleSize(st) <= |s|
    ensures DecodeSample(s, t, st, precise) == x <==> x.isPrecise == precise && FieldsAre(s, t, st, x)
  {
    var afterIp := t + if st.ip then 8 else 0;
    var afterTid := afterIp + if st.tid then 8 else 0;
    var afterAddr := afterTid + if st.addr then 8 else 0;
    IpExactly(s, t, st, x);
    TidExactly(s, afterIp, st, x);
    AddrExactly(s, afterTid, st, x);
    CpuExactly(s, afterAddr, st, x);
  }

  lemma IpExactly(s: seq<Byte>, t: nat, st: SampleType, x: Sample)
    requires st.ip ==> t + 8 <= |s|
    ensures (if st.ip then x.ip < TWO_64 else x.ip == 0) && BytesAt(s, t, SampleBytes(st, x)) <==>
            && x.ip == (if st.ip then Field(s, t, 8) else 0)
            && BytesAt(s, t + (if st.ip then 8 else 0), BytesFromTid(st, x))
  {
    if st.ip {
      Widths();
      FieldExactly(s, t, 8, x.ip);
      PiecesAt(s, t, BytesOf(x.ip, 8), BytesFromTid(st, x));
    }
  }

  lemma TidExactly(s: seq<Byte>, t: nat, st: SampleType, x: Sample)
    requires st.tid ==> t + 8 <= |s|
    ensures (if st.tid then x.pid < TWO_32 && x.tid < TWO_32 else x.pid == 0 && x.tid == 0)
            && BytesAt(s, t, BytesFromTid(st, x)) <==>
            && x.pid == (if st.tid then Field(s, t, 4) else 0)
            && x.tid == (if st.tid then Field(s, t + 4, 4) else 0)
            && BytesAt(s, t + (if st.tid then 8 else 0), BytesFromAddr(st, x))
  {
    if st.tid {
      Widths();
      FieldExactly(s, t, 4, x.pid);
      FieldExactly(s, t + 4, 4, x.tid);
      PiecesAt(s, t, BytesOf(x.pid, 4), BytesOf(x.tid, 4) + BytesFromAddr(st, x));
      PiecesAt(s, t + 4, BytesOf(x.tid, 4), BytesFromAddr(st, x));
    }
  }

  lemma AddrExactly(s: seq<Byte>, t: nat, st: SampleType, x: Sample)
    requires st.addr ==> t + 8 <= |s|
    ensures (if st.addr then x.addr < TWO_64 else x.addr == 0) && BytesAt(s, t, BytesFromAddr(st, x)) <==>
            && x.addr == (if st.addr then Field(s, t, 8) else 0)
            && BytesAt(s, t + (if st.addr then 8 else 0), BytesFromCpu(st, x))
  {
    if st.addr {
      Widths();
      FieldExactly(s, t, 8, x.addr);
      PiecesAt(s, t, BytesOf(x.addr, 8), BytesFromCpu(st, x));
    }
  }

  lemma CpuExactly(s: seq<Byte>, t: nat, st: SampleType, x: Sample)
    requires t + (if st.cpu then 4 else 0) <= |s|
    ensures (if st.cpu then x.cpu < TWO_32 else x.cpu == 0) && BytesAt(s, t, BytesFromCpu(st, x)) <==>
            x.cpu == if st.cpu then Field(s, t, 4) else 0
  {
    if st.cpu {
      Widths();
      FieldExactly(s, t, 4, x.cpu);
    }
  }

  lemma SampleBytesLength(st: SampleType, x: Sample)
    ensures |SampleBytes(st, x)| == SampleSize(st)
  {
  }

  /** At a position there is a sample exactly when the bytes of one are there, and it has those numbers. */
  lemma SampleItem(s: seq<Byte>, t: nat, st: SampleType, misc: nat, size: nat, x: Sample)
    requires t <= |s| && HasSample(s, t, st, misc, size, x)
    ensures ItemAt(s, t, st) == Sampled(x, t + 8 + SampleSize(st))
    ensures DecodeHeader(s, t) == Header(9, misc, size)
  {
    SampleBytesLength(st, x);
    HeaderExactly(s, t, Header(9, misc, size));
    PreciseIsBit14(Header(9, misc, size));
    SampleExactly(s, t + 8, st, x.isPrecise, x);
  }

  lemma ItemHasSample(s: seq<Byte>, t: nat, st: SampleType)
    requires t <= |s| && ItemAt(s, t, st).Sampled?
    ensures HasSample(s, t, st, DecodeHeader(s, t).misc, DecodeHeader(s, t).size, ItemAt(s, t, st).sample)
  {
    var h := DecodeHeader(s, t);
    HeaderExactly(s, t, h);
    PreciseIsBit14(h);
    SampleExactly(s, t + 8, st, IsPrecise(h), ItemAt(s, t, st).sample);
  }

  // ----- Whole streams of records -----

  /** A sample record with its numbers, or any other with its body. */
  datatype Record =
    | SampleRecord(misc: nat, size: nat, fields: Sample)
    | OtherRecord(h: Header, body: seq<Byte>)

  function RecordSize(st: SampleType, r: Record): nat {
    match r
    case SampleRecord(_, _, _) => 8 + SampleSize(st)
    case OtherRecord(_, body) => 8 + |body|
  }

  /** The record's bytes are at `t`; other records are as long as their header says. */
  predicate RecordAt(s: seq<Byte>, t: nat, st: SampleType, r: Record) {
    match r
    case SampleRecord(misc, size, x) => HasSample(s, t, st, misc, size, x)
    case OtherRecord(h, body) =>
      && HeaderFits(h) && h.kind != 9 && h.size == 8 + |body|
      && BytesAt(s, t, HeaderBytes(h)) && BytesAt(s, t + 8, body)
  }

  /** From `t` on the stream is the records from number `i` on. */
  predicate RecordsAt(s: seq<Byte>, t: nat, st: SampleType, records: seq<Record>, i: nat)
    decreases |records| - i
  {
    if |records| <= i then t == |s|
    else RecordAt(s, t, st, records[i]) && RecordsAt(s, t + RecordSize(st, records[i]), st, records, i + 1)
  }

  /** `before` and the samples of the records from number `i` on. */
  function SamplesFrom(before: seq<Sample>, records: seq<Record>, i: nat): seq<Sample>
    decreases |records| - i
  {
    if |records| <= i then before
    else
      match records[i]
      case SampleRecord(_, _, x) => SamplesFrom(before + [x], records, i + 1)
      case OtherRecord(_, _) => SamplesFrom(before, records, i + 1)
  }

  lemma RecordItem(s: seq<Byte>, t: nat, st: SampleType, r: Record)
    requires RecordAt(s, t, st, r)
    ensures t + RecordSize(st, r) <= |s|
    ensures ItemAt(s, t, st) == match r
                                case SampleRecord(_, _, x) => Sampled(x, t + RecordSize(st, r))
                                case OtherRecord(_, _) => Skipped(t + RecordSize(st, r))
  {
    match r
    case SampleRecord(misc, size, x) => SampleItem(s, t, st, misc, size, x);
    case OtherRecord(h, _) => HeaderExactly(s, t, h);
  }

  /** The parse of a stream of records gives back the numbers of its samples. */
  lemma {:induction false} ParseOfRecords(s: seq<Byte>, t: nat, st: SampleType, records: seq<Record>, i: nat,
                                          before: seq<Sample>)
    requires t <= |s| && RecordsAt(s, t, st, records, i)
    ensures Parse(s, t, st, before) == Parsed(SamplesFrom(before, records, i), false)
    decreases |records| - i
  {
    if i < |records| {
      RecordItem(s, t, st, records[i]);
      var after := match records[i] case SampleRecord(_, _, x) => before + [x] case OtherRecord(_, _) => before;
      ParseOfRecords(s, t + RecordSize(st, records[i]), st, records, i + 1, after);
    }
  }
}
