/**
 The perf mmap ring: what reading and skipping do to the shared page, and what that means
 on the unbounded stream of bytes the kernel has produced.
 */
module PerfRing {
  import opened WordArithmetic

  newtype Byte = x: int | 0 <= x < 256

  /** The data pages, whose length is a power of two, and the two free-running counters. */
  datatype Ring = Ring(data: seq<Byte>, head: Word, tail: Word)

  datatype ReadResult = ReadResult(code: int, bytes: seq<Byte>, ring: Ring)

  function Available(r: Ring): Word {
    Minus(r.head, r.tail)
  }

  /** The producer never gets more than a buffer ahead. */
  ghost predicate Bounded(r: Ring, k: nat) {
    k < 31 && |r.data| == Pow2(k) && Available(r) <= |r.data|
  }

  function Offset(r: Ring): nat
    requires r.data != []
  {
    BitAnd(r.tail, |r.data| - 1)
  }

  /** The two memcpy pieces. */
  function Copied(data: seq<Byte>, offset: nat, n: nat): seq<Byte>
    requires offset < |data| && n <= |data|
  {
    var atRight := |data| - offset;
    if atRight < n then data[offset..] + data[..n - atRight] else data[offset..offset + n]
  }

  lemma OffsetIsRemainder(r: Ring, k: nat)
    requires |r.data| == Pow2(k)
    ensures Offset(r) == r.tail % |r.data|
  {
    MaskIsRemainder(r.tail, k);
  }

  /** perf_read_buffer_nbytes: 0, or 1 when there is not enough data. */
  function ReadBytes(r: Ring, ghost k: nat, n: Word): ReadResult
    requires Bounded(r, k)
  {
    if n > Available(r) then ReadResult(1, [], r)
    else
      OffsetIsRemainder(r, k);
      ReadResult(0, Copied(r.data, Offset(r), n), r.(tail := Plus(r.tail, n)))
  }

  /** perf_skip_buffer_nbytes, whose sum and comparison are in uint64_t. */
  function SkipBytes(r: Ring, n: Word): Ring {
    r.(tail := Plus(r.tail, if Plus(r.tail, n) > r.head then Available(r) else n))
  }

  lemma CopiedAt(data: seq<Byte>, offset: nat, n: nat, i: nat)
    requires offset < |data| && n <= |data| && i < n
    ensures |Copied(data, offset, n)| == n
    ensures Copied(data, offset, n)[i] == data[(offset + i) % |data|]
  {
    OffsetStep(offset, i, |data|);
    DivModUnique(offset, |data|, 0, offset);
  }

  // ----- On the stream -----

  /**
   The ring holds the part of the stream not yet consumed: `produced` is every byte the kernel
   has written and published, and the first `t` of them have been consumed.
   */
  ghost predicate Carries(r: Ring, k: nat, produced: seq<Byte>, t: nat) {
    && k < 31 && |r.data| == Pow2(k)
    && t <= |produced| <= t + |r.data|
    && r.head == |produced| % TWO_64 && r.tail == t % TWO_64
    && forall i :: t <= i < |produced| ==> r.data[i % |r.data|] == produced[i]
  }

  lemma {:induction false} Pow2Bound(k: nat, m: nat)
    requires k <= m
    ensures Pow2(k) <= Pow2(m)
    decreases m - k
  {
    if k < m {
      Pow2Bound(k + 1, m);
    }
  }

  lemma {:induction false} SizeBound(k: nat)
    requires k < 31
    ensures Pow2(k) < TWO_31
  {
    Pow2Bound(k, 30);
    assert Pow2(5) == 32;
    Pow2Product(5, 5);
    Pow2Product(10, 10);
    Pow2Product(20, 10);
  }

  /** The counters' wrapped difference is the true number of unread bytes. */
  lemma AvailableIsUnread(r: Ring, k: nat, produced: seq<Byte>, t: nat)
    requires Carries(r, k, produced, t)
    ensures Available(r) == |produced| - t && Bounded(r, k) && |r.data| < TWO_31
  {
    SizeBound(k);
    WrappedDistance(|produced|, t);
  }

  lemma CarriesFurther(r: Ring, k: nat, produced: seq<Byte>, t: nat, n: nat)
    requires Carries(r, k, produced, t) && n <= |produced| - t
    ensures n < TWO_64 && r.tail < TWO_64
    ensures Carries(r.(tail := Plus(r.tail, n)), k, produced, t + n)
  {
    SizeBound(k);
    WrappedStep(t, n);
  }

  /** A masked two-piece read is the next slice of the stream; a short buffer changes nothing. */
  lemma ReadIsSlice(r: Ring, k: nat, produced: seq<Byte>, t: nat, n: Word)
    requires Carries(r, k, produced, t)
    ensures Bounded(r, k)
    ensures ReadBytes(r, k, n) ==
            if n <= |produced| - t then ReadResult(0, produced[t..t + n], r.(tail := Plus(r.tail, n)))
            else ReadResult(1, [], r)
    ensures n <= |produced| - t ==> Carries(ReadBytes(r, k, n).ring, k, produced, t + n)
  {
    AvailableIsUnread(r, k, produced, t);
    if n <= |produced| - t {
      CarriesFurther(r, k, produced, t, n);
      OffsetIsRemainder(r, k);
      OffsetOfWrapped(t, k);
      var offset := Offset(r);
      var copied := Copied(r.data, offset, n);
      forall i | 0 <= i < n
        ensures |copied| == n && copied[i] == produced[t + i]
      {
        CopiedAt(r.data, offset, n, i);
        SameOffset(t, i, |r.data|);
      }
      assert |copied| == n;
      assert copied == produced[t..t + n];
    }
  }

  lemma SameOffset(t: nat, i: nat, size: nat)
    requires 0 < size && i < size
    ensures (t % size + i) % size == (t + i) % size
  {
    OffsetStep(t, i, size);
    DivModUnique(t % size, size, 0, t % size);
    OffsetStep(t % size, i, size);
  }

  /** Reading n bytes and then m is reading n + m, whatever the ring holds. */
  lemma ReadsCompose(r: Ring, k: nat, n: nat, m: nat)
    requires Bounded(r, k) && n + m <= Available(r)
    ensures var first := ReadBytes(r, k, n);
            && first.code == 0 && Bounded(first.ring, k)
            && var second := ReadBytes(first.ring, k, m);
               ReadBytes(r, k, n + m) == ReadResult(0, first.bytes + second.bytes, second.ring) && second.code == 0
  {
    SizeBound(k);
    var size, tail := |r.data|, r.tail;
    var r1 := r.(tail := Plus(tail, n));
    assert Available(r1) == Available(r) - n;
    OffsetIsRemainder(r, k);
    OffsetIsRemainder(r1, k);
    assert r1.tail % size == (tail + n) % size by {
      DivModUnique(tail, TWO_64, 0, tail);
      WrappedStep(tail, n);
      OffsetOfWrapped(tail + n, k);
    }
    OffsetStepFull(tail, n, size);
    PiecesCompose(r.data, tail % size, r1.tail % size, n, m);
    assert Plus(Plus(tail, n), m) == Plus(tail, n + m);
  }

  lemma OffsetStepFull(x: nat, i: nat, size: nat)
    requires 0 < size && i <= size
    ensures (x + i) % size == if x % size + i < size then x % size + i else x % size + i - size
  {
    if i < size {
      OffsetStep(x, i, size);
    } else {
      MulDistributes(x / size, 1, size);
      DivModUnique(x + i, size, x / size + 1, x % size);
    }
  }

  lemma PiecesCompose(data: seq<Byte>, a: nat, b: nat, n: nat, m: nat)
    requires a < |data| && n + m <= |data| && b < |data|
    requires b == if a + n < |data| then a + n else a + n - |data|
    ensures Copied(data, a, n + m) == Copied(data, a, n) + Copied(data, b, m)
  {
  }

  /** The 64-bit sum of tail and n carries just in case the head has wrapped past the tail. */
  predicate SkipsWell(r: Ring, n: int) {
    r.tail + n >= TWO_64 <==> r.head < r.tail
  }

  /** A skip moves the tail by n, or to the head when less than n is there, exactly when SkipsWell. */
  lemma SkipExact(r: Ring, n: Word)
    ensures SkipBytes(r, n).tail == Plus(r.tail, if n <= Available(r) then n else Available(r)) <==> SkipsWell(r, n)
  {
  }

  /** Where it does not, a short skip goes to the head, and a long one on by n from below 2^64 to above 0. */
  lemma SkipFails(r: Ring, n: Word)
    requires !SkipsWell(r, n)
    ensures n != Available(r)
    ensures n < Available(r) ==> r.head < r.tail && SkipBytes(r, n).tail == r.head
    ensures n > Available(r) ==> r.tail <= r.head && SkipBytes(r, n).tail == r.tail + n - TWO_64 < r.tail
    ensures SkipBytes(r, n).data == r.data && SkipBytes(r, n).head == r.head
  {
  }

  /** Four unread bytes astride 2^64: a skip of two, whose sum does not carry, drops all four. */
  lemma SkipBeforeWrapLosesBytes(data: seq<Byte>)
    ensures var r := Ring(data, 1, TWO_64 - 3);
            Available(r) == 4 && SkipBytes(r, 2).tail == r.head && Available(SkipBytes(r, 2)) == 0
  {
    assert Plus(TWO_64 - 3, 4) == 1;
  }

  /** Two unread bytes just below 2^64: a skip of eight, whose sum carries, moves the tail back. */
  lemma SkipAcrossWrapMovesBack(data: seq<Byte>)
    ensures var r := Ring(data, TWO_64 - 1, TWO_64 - 3);
            Available(r) == 2 && SkipBytes(r, 8).tail == 5 && Available(SkipBytes(r, 8)) == TWO_64 - 6
  {
    assert Plus(TWO_64 - 3, 8) == 5;
  }

  /**
   Reading the header of a record and skipping the rest nets exactly the record's size, or
   goes to the head, exactly when SkipsWell holds of the whole size; so too for the sizes
   1 to 7, where the length passed to the skip wraps.
   */
  lemma SkipRecordExact(r: Ring, k: nat, produced: seq<Byte>, t: nat, size: nat)
    requires Carries(r, k, produced, t) && 8 <= |produced| - t && 1 <= size < 0x1_0000
    ensures var after := SkipBytes(r.(tail := Plus(r.tail, 8)), Minus(size, 8));
            var t' := if t + size <= |produced| then t + size else |produced|;
            && (after == r.(tail := Plus(r.tail, t' - t)) <==> SkipsWell(r, size))
            && (SkipsWell(r, size) ==> Carries(after, k, produced, t'))
  {
    AvailableIsUnread(r, k, produced, t);
    var t' := if t + size <= |produced| then t + size else |produced|;
    CarriesFurther(r, k, produced, t, t' - t);
    RecordSum(r.tail, size);
  }

  /** Reading eight bytes and adding the rest of the size is adding the size. */
  lemma RecordSum(tail: Word, size: nat)
    requires 1 <= size < 0x1_0000
    ensures Plus(Plus(tail, 8), Minus(size, 8)) == Plus(tail, size)
  {
  }

  /** Skipping whatever is left goes to the head. */
  lemma SkipRestNets(r: Ring, k: nat, produced: seq<Byte>, t: nat)
    requires Carries(r, k, produced, t)
    ensures SkipBytes(r, Available(r)) == r.(tail := r.head)
    ensures Carries(SkipBytes(r, Available(r)), k, produced, |produced|)
  {
    AvailableIsUnread(r, k, produced, t);
    CarriesFurther(r, k, produced, t, |produced| - t);
    assert Plus(r.tail, Available(r)) == r.head;
  }
}
