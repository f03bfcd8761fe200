/**
 The mapped page as an object: reads and skips in place, and the loop of the signal handler
 that drains it, proved equal to a parse of the plain byte stream.
 */
module PerfMmaps {
  import opened WordArithmetic
  import opened PerfRing
  import opened PerfRecords

  // ----- The mapped page -----

  class PerfMmap {
    const data: array<Byte>
    ghost const k: nat
    var head: Word
    var tail: Word

    ghost function View(): Ring
      reads this, data
    {
      Ring(data[..], head, tail)
    }

    /** The first `t` bytes of the stream `produced` are consumed, the others are in the ring. */
    ghost predicate At(produced: seq<Byte>, t: nat)
      reads this, data
    {
      Carries(View(), k, produced, t)
    }

    constructor (k: nat)
      requires k < 31
      ensures this.k == k && data.Length == Pow2(k) && fresh(data)
      ensures At([], 0)
    {
      this.k := k;
      var size := PowerOfTwo(k);
      data := new Byte[size];
      head, tail := 0, 0;
    }

    /** memcpy */
    static method Copy(to: array<Byte>, at: nat, from: array<Byte>, start: nat, n: nat)
      requires to != from && at + n <= to.Length && start + n <= from.Length
      modifies to
      ensures to[at..at + n] == from[start..start + n]
      ensures to[..at] == old(to[..at]) && to[at + n..] == old(to[at + n..])
    {
      forall i | 0 <= i < n {
        to[at + i] := from[start + i];
      }
    }

    /** perf_read_buffer_nbytes */
    method ReadBytes(buf: array<Byte>, n: Word, ghost produced: seq<Byte>, ghost t: nat) returns (rc: int)
      requires At(produced, t) && buf != data && n <= buf.Length
      modifies this`tail, buf
      ensures rc == if n <= |produced| - t then 0 else 1
      ensures rc == 0 ==> At(produced, t + n) && buf[..n] == produced[t..t + n] && buf[n..] == old(buf[n..])
      ensures rc == 1 ==> tail == old(tail) && buf[..] == old(buf[..])
    {
      ghost var r := View();
      ReadIsSlice(r, k, produced, t, n);
      AvailableIsUnread(r, k, produced, t);
      OffsetIsRemainder(r, k);
      var bytesAvailable := Minus(head, tail);
      if n > bytesAvailable {
        return 1;
      }
      var offset := BitAnd(tail, data.Length - 1);
      CopyPieces(buf, offset, n);
      tail := Plus(tail, n);
      return 0;
    }

    /** The same with the pointer as it is given: -1 for no page. */
    static method ReadFrom(page: PerfMmap?, buf: array<Byte>, n: Word, ghost produced: seq<Byte>, ghost t: nat)
      returns (rc: int)
      requires page != null ==> page.At(produced, t) && buf != page.data && n <= buf.Length
      modifies page, buf
      ensures page != null ==> page.head == old(page.head)
      ensures page == null ==> rc == -1 && buf[..] == old(buf[..])
      ensures page != null ==> rc == if n <= |produced| - t then 0 else 1
      ensures rc == 0 ==> page.At(produced, t + n) && buf[..n] == produced[t..t + n] && buf[n..] == old(buf[n..])
      ensures rc == 1 ==> page.tail == old(page.tail) && buf[..] == old(buf[..])
    {
      if page == null {
        return -1;
      }
      rc := page.ReadBytes(buf, n, produced, t);
    }

    /** The bytes to the right of `offset`, and then those at the beginning of the buffer. */
    method CopyPieces(buf: array<Byte>, offset: nat, n: nat)
      requires offset < data.Length && n <= data.Length && n <= buf.Length && buf != data
      modifies buf
      ensures buf[..n] == Copied(data[..], offset, n) && buf[n..] == old(buf[n..])
    {
      var bytesAtRight := data.Length - offset;
      var right := if bytesAtRight < n then bytesAtRight else n;
      Copy(buf, 0, data, offset, right);
      assert buf[..right] == data[offset..offset + right];
      if n > right {
        var left := n - right;
        Copy(buf, right, data, 0, left);
        TwoPieces(buf[..], data[..], offset, n, right);
      }
    }

    static lemma TwoPieces(s: seq<Byte>, data: seq<Byte>, offset: nat, n: nat, right: nat)
      requires offset < |data| && right == |data| - offset < n <= |data| && n <= |s|
      requires s[..right] == data[offset..offset + right] && s[right..n] == data[..n - right]
      ensures s[..n] == Copied(data, offset, n)
    {
      assert s[..n] == s[..right] + s[right..n];
    }

    /** perf_skip_buffer_nbytes */
    method SkipBytes(n: Word)
      modifies this`tail
      ensures View() == PerfRing.SkipBytes(old(View()), n)
    {
      var m := n;
      if Plus(tail, n) > head {
        m := Minus(head, tail);
      }
      tail := Plus(tail, m);
    }

    /** perf_num_of_remaining_data */
    function NumRemaining(): int
      reads this
    {
      ToInt32(Minus(head, tail))
    }

    /** One number of `n` bytes. */
    method ReadField(n: Word, ghost produced: seq<Byte>, ghost t: nat) returns (ok: bool, value: nat)
      requires At(produced, t)
      modifies this`tail
      ensures ok <==> t + n <= |produced|
      ensures ok ==> At(produced, t + n) && value == Field(produced, t, n)
      ensures !ok ==> tail == old(tail)
    {
      var buf := new Byte[n];
      var rc := ReadBytes(buf, n, produced, t);
      if rc != 0 {
        return false, 0;
      }
      assert buf[..] == buf[..n];
      value := ToNumber(buf[..]);
      ok := true;
    }

    /** perf_read_header */
    method ReadHeader(ghost produced: seq<Byte>, ghost t: nat) returns (ok: bool, h: Header)
      requires At(produced, t)
      modifies this`tail
      ensures ok <==> t + HEADER_SIZE <= |produced|
      ensures ok ==> At(produced, t + HEADER_SIZE) && h == DecodeHeader(produced, t)
      ensures ok ==> HeaderFits(h) && BytesAt(produced, t, HeaderBytes(h))
      ensures ok ==> tail == Plus(old(tail), HEADER_SIZE)
      ensures !ok ==> tail == old(tail)
    {
      var buf := new Byte[8];
      h := Header(0, 0, 0);
      ghost var r := View();
      ReadIsSlice(r, k, produced, t, 8);
      var rc := ReadBytes(buf, 8, produced, t);
      if rc != 0 {
        return false, h;
      }
      var bytes := buf[..];
      assert bytes == buf[..8];
      h := ParseHeader(bytes);
      HeaderMoves(produced, t, bytes);
      WrappedStep(t, 8);
      HeaderExactly(produced, t, h);
      return true, h;
    }

    /** COPY_SAMPLE_DATA under its condition: a field that is not in the type stays zero. */
    method ReadOptional(present: bool, n: Word, ghost produced: seq<Byte>, ghost t: nat) returns (ok: bool, value: nat)
      requires At(produced, t)
      modifies this`tail
      ensures var size := if present then n else 0;
              && (ok <==> t + size <= |produced|)
              && (ok ==> At(produced, t + size) && value == if present then Field(produced, t, n) else 0)
    {
      if present {
        ok, value := ReadField(n, produced, t);
      } else {
        ok, value := true, 0;
      }
    }

    /** The process and thread ids go together. */
    method ReadTid(present: bool, ghost produced: seq<Byte>, ghost t: nat) returns (ok: bool, pid: nat, tid: nat)
      requires At(produced, t)
      modifies this`tail
      ensures var size := if present then 8 else 0;
              && (ok <==> t + size <= |produced|)
              && (ok ==> && At(produced, t + size)
                         && pid == (if present then Field(produced, t, 4) else 0)
                         && tid == (if present then Field(produced, t + 4, 4) else 0))
    {
      tid := 0;
      ok, pid := ReadOptional(present, 4, produced, t);
      if ok {
        ok, tid := ReadOptional(present, 4, produced, t + if present then 4 else 0);
      }
    }

    /** The fields one after the other, up to an assertion that fails. */
    method ReadFields(st: SampleType, precise: bool, ghost produced: seq<Byte>, ghost t: nat)
      returns (ok: bool, sample: Sample)
      requires At(produced, t)
      modifies this`tail
      ensures ok <==> t + SampleSize(st) <= |produced|
      ensures ok ==> At(produced, t + SampleSize(st)) && sample == DecodeSample(produced, t, st, precise)
    {
      sample := Sample(0, 0, 0, 0, 0, precise);
      ghost var afterIp := t + if st.ip then 8 else 0;
      ghost var afterTid := afterIp + if st.tid then 8 else 0;
      ghost var afterAddr := afterTid + if st.addr then 8 else 0;
      var ip, pid, tid, addr, cpu;
      ok, ip := ReadOptional(st.ip, 8, produced, t);
      if !ok {
        return;
      }
      ok, pid, tid := ReadTid(st.tid, produced, afterIp);
      if !ok {
        return;
      }
      ok, addr := ReadOptional(st.addr, 8, produced, afterTid);
      if !ok {
        return;
      }
      ok, cpu := ReadOptional(st.cpu, 4, produced, afterAddr);
      sample := Sample(ip, pid, tid, addr, cpu, precise);
    }

    /** perf_read_record_sample; `ok` is false when one of its assertions stops it. */
    method ReadSample(st: SampleType, precise: bool, ghost produced: seq<Byte>, ghost t: nat)
      returns (ok: bool, sample: Sample)
      requires At(produced, t)
      modifies this`tail
      ensures ok <==> t + SampleSize(st) <= |produced|
      ensures ok ==> At(produced, t + SampleSize(st)) && sample == DecodeSample(produced, t, st, precise)
      ensures ok ==> sample.isPrecise == precise && FieldsAre(produced, t, st, sample)
    {
      ok, sample := ReadFields(st, precise, produced, t);
      if ok {
        SampleExactly(produced, t, st, precise, sample);
      }
    }

    /** perf_skip_record, after the header has been read. */
    method SkipRecord(h: Header)
      requires h.size < 0x1_0000
      modifies this`tail
      ensures View() == PerfRing.SkipBytes(old(View()), Minus(h.size, HEADER_SIZE))
    {
      SkipBytes(Minus(h.size, HEADER_SIZE));
    }

    /** perf_skip_all */
    method SkipAll(ghost produced: seq<Byte>, ghost t: nat)
      requires At(produced, t)
      modifies this`tail
      ensures At(produced, |produced|) && tail == head
    {
      AvailableIsUnread(View(), k, produced, t);
      var remains := NumRemaining();
      assert remains == |produced| - t;
      if remains > 0 {
        SkipRestNets(View(), k, produced, t);
        SkipBytes(remains);
      }
    }

    /**
     The drain loop of perf_event_handler, with the kernel quiet: the samples it hands on are
     those of the unread stream, and unless a truncated sample stops it, it ends at the head.
     `PerfDrain` has the loop with the kernel running.
     */
    method Drain(st: SampleType, ghost produced: seq<Byte>, ghost t0: nat)
      returns (samples: seq<Sample>, ok: bool)
      requires At(produced, t0) && ParsesWell(produced, t0, st)
      modifies this`tail
      ensures Parsed(samples, !ok) == Parse(produced, t0, st, [])
      ensures forall records :: RecordsAt(produced, t0, st, records, 0) ==>
                ok && samples == SamplesFrom([], records, 0)
      ensures ok ==> tail == head && At(produced, |produced|)
    {
      forall records | RecordsAt(produced, t0, st, records, 0)
        ensures Parse(produced, t0, st, []) == Parsed(SamplesFrom([], records, 0), false)
      {
        ParseOfRecords(produced, t0, st, records, 0, []);
      }
      samples := [];
      ghost var t, goal := t0, Parse(produced, t0, st, []);
      var remaining := Remaining(produced, t);
      while remaining > 0
        invariant At(produced, t) && ParsesWell(produced, t, st) && remaining == |produced| - t
        invariant Parse(produced, t, st, samples) == goal
        decreases |produced| - t
      {
        if remaining < HEADER_SIZE {
          SkipAll(produced, t);
          return samples, true;
        }
        ok, samples, t := DrainOne(st, samples, produced, t);
        if !ok {
          return;
        }
        remaining := Remaining(produced, t);
      }
      ok := true;
    }

    method Remaining(ghost produced: seq<Byte>, ghost t: nat) returns (remaining: int)
      requires At(produced, t)
      ensures remaining == |produced| - t
      ensures remaining == 0 ==> tail == head
    {
      AvailableIsUnread(View(), k, produced, t);
      remaining := NumRemaining();
    }

    /** One record of the drain loop; `ok` is false when a truncated sample stops it. */
    method DrainOne(st: SampleType, samples: seq<Sample>, ghost produced: seq<Byte>, ghost t: nat)
      returns (ok: bool, samples': seq<Sample>, ghost t': nat)
      requires At(produced, t) && PassesWell(produced, t) && t + HEADER_SIZE <= |produced|
      modifies this`tail
      ensures ok ==> t < t' <= |produced| && At(produced, t')
      ensures match ItemAt(produced, t, st)
              case Stop(truncated) => ok == !truncated && samples' == samples && (ok ==> t' == |produced|)
              case Sampled(sample, next) => ok && samples' == samples + [sample] && t' == next
              case Skipped(next) => ok && samples' == samples && t' == next
      ensures forall misc, size, x :: HasSample(produced, t, st, misc, size, x) ==>
                ok && samples' == samples + [x] && t' == t + 8 + SampleSize(st)
    {
      forall misc, size, x | HasSample(produced, t, st, misc, size, x)
        ensures ItemAt(produced, t, st) == Sampled(x, t + 8 + SampleSize(st))
      {
        SampleItem(produced, t, st, misc, size, x);
      }
      samples' := samples;
      ghost var before := View();
      var read, h := ReadHeader(produced, t);
      assert read && View() == before.(tail := Plus(before.tail, 8));
      if h.kind == RECORD_SAMPLE {
        var sample;
        t' := t + HEADER_SIZE + SampleSize(st);
        ok, sample := ReadSample(st, IsPrecise(h), produced, t + HEADER_SIZE);
        if ok {
          samples' := samples + [sample];
        }
      } else {
        ok := true;
        t' := PassRecord(h, before, produced, t);
      }
    }

    /** With the header already read, go to the end of the record, or of the stream. */
    method PassRecord(h: Header, ghost before: Ring, ghost produced: seq<Byte>, ghost t: nat) returns (ghost t': nat)
      requires Carries(before, k, produced, t) && PassesWell(produced, t) && t + HEADER_SIZE <= |produced|
      requires View() == before.(tail := Plus(before.tail, 8)) && At(produced, t + HEADER_SIZE)
      requires h == DecodeHeader(produced, t) && h.kind != RECORD_SAMPLE
      modifies this`tail
      ensures t' == if h.size == 0 || |produced| < t + h.size then |produced| else t + h.size
      ensures At(produced, t')
    {
      if h.size == 0 {
        t' := |produced|;
        SkipAll(produced, t + HEADER_SIZE);
      } else {
        ShortBound(produced, t + 6);
        t' := if t + h.size <= |produced| then t + h.size else |produced|;
        SkipRecordExact(before, k, produced, t, h.size);
        SkipRecord(h);
      }
    }
  }

  method PowerOfTwo(k: nat) returns (p: nat)
    ensures p == Pow2(k)
  {
    p := 1;
    for i := 0 to k
      invariant p == Pow2(i)
    {
      p := 2 * p;
    }
  }

  /** The three numbers of a header. */
  method ParseHeader(bytes: seq<Byte>) returns (h: Header)
    requires |bytes| == 8
    ensures h == DecodeHeader(bytes, 0)
  {
    var kind := ToNumber(bytes[0..4]);
    var misc := ToNumber(bytes[4..6]);
    var size := ToNumber(bytes[6..8]);
    h := Header(kind, misc, size);
  }

  /** The little-endian number in a buffer. */
  method ToNumber(s: seq<Byte>) returns (value: nat)
    ensures value == LittleEndian(s, 0)
  {
    value := 0;
    var i := |s|;
    while i > 0
      invariant 0 <= i <= |s| && value == LittleEndian(s, i)
    {
      i := i - 1;
      value := s[i] as nat + 256 * value;
    }
  }
}
