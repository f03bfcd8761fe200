/**
 Line tables of a compiled method: the bytecode-to-line index, the scan that answers the
 same question elsewhere, and the address-to-line index composed on top.
 */
module LineTables {
  import opened Wrappers
  import opened WordArithmetic
  import opened RangeSets

  /** Conversion of a signed location to uint64_t. */
  function ToKey(x: int): Key {
    if 0 <= x < TWO_64 then x else x % TWO_64
  }

  /** x - 1 in uint64_t. */
  function Minus1(x: Key): Key {
    if x == 0 then TWO_64 - 1 else x - 1
  }

  /** jvmtiLineNumberEntry */
  datatype LineEntry = LineEntry(start: int, line: int)

  /** jvmtiAddrLocationMap */
  datatype AddrEntry = AddrEntry(addr: Key, location: int)

  // ----- Bytecode locations to lines -----

  ghost predicate LocationsInRange(table: seq<LineEntry>) {
    forall i :: 0 <= i < |table| ==> 0 <= table[i].start < TWO_64
  }

  ghost predicate SortedTable(table: seq<LineEntry>) {
    forall i, j :: 0 <= i <= j < |table| ==> table[i].start <= table[j].start
  }

  /** The last location of entry `i`. */
  function EntryEnd(table: seq<LineEntry>, endLocation: int, i: nat): int
    requires i < |table|
  {
    if i < |table| - 1 then table[i + 1].start - 1 else endLocation
  }

  /** Entry `i` has no range, or one whose bounds are in order in uint64_t too. */
  predicate EntryLoads(table: seq<LineEntry>, endLocation: int, i: nat)
    requires i < |table|
  {
    var start, end := table[i].start, EntryEnd(table, endLocation, i);
    end < start || ToKey(start) <= ToKey(end)
  }

  /** On locations that are not negative every range loads. */
  lemma EntriesLoad(table: seq<LineEntry>, endLocation: int, i: nat)
    requires LocationsInRange(table) && endLocation < TWO_64 && i < |table|
    ensures EntryLoads(table, endLocation, i)
  {
    assert table[i].start >= 0;
  }

  /** The index after the first `n` entries. */
  function LineIndex(table: seq<LineEntry>, endLocation: int, n: nat): seq<Range<int>>
    requires n <= |table|
  {
    if n == 0 then []
    else
      var es, e, end := LineIndex(table, endLocation, n - 1), table[n - 1], EntryEnd(table, endLocation, n - 1);
      if end < e.start then es else Emplace(es, Range(ToKey(e.start), ToKey(end), e.line))
  }

  /** Where the index built from the first `n` entries ends. */
  function LimitAfter(table: seq<LineEntry>, endLocation: int, n: nat): int
    requires n <= |table| && table != []
  {
    if n < |table| then table[n].start - 1
    else if table[n - 1].start <= endLocation then endLocation
    else table[n - 1].start - 1
  }

  /** Among the first `n` entries, `k` is the last that starts at or before `location`. */
  ghost predicate LastBefore(table: seq<LineEntry>, n: nat, location: int, k: nat) {
    k < n <= |table| && table[k].start <= location && forall i :: k < i < n ==> location < table[i].start
  }

  ghost predicate EndsBy(es: seq<Range<int>>, limit: int) {
    forall i :: 0 <= i < |es| ==> es[i].end <= limit
  }

  /** A range past all the others goes to the end. */
  lemma EmplaceLast(es: seq<Range<int>>, r: Range<int>)
    requires Disjoint(es) && EndsBy(es, r.start - 1) && r.start <= r.end
    ensures Emplace(es, r) == es + [r] && Disjoint(es + [r]) && EndsBy(es + [r], r.end)
  {
    assert LowerBound(es, r.start) == |es|;
  }

  lemma LastLookup(es: seq<Range<int>>, r: Range<int>, key: Key)
    requires Disjoint(es) && EndsBy(es, r.start - 1) && r.start <= r.end
    ensures GetData(es + [r], key) ==
            if key < r.start then GetData(es, key) else if key <= r.end then Some(r.data) else None
  {
    EmplaceLast(es, r);
    GetRangeCorrect(es + [r], key);
    if key < r.start {
      GetRangeCorrect(es, key);
    }
  }

  lemma NothingPast(es: seq<Range<int>>, limit: int, key: Key)
    requires Disjoint(es) && EndsBy(es, limit) && limit < key
    ensures GetData(es, key) == None
  {
  }

  /** One more entry either is skipped or goes to the end. */
  lemma LineIndexNext(table: seq<LineEntry>, endLocation: int, n: nat)
    requires SortedTable(table) && LocationsInRange(table) && endLocation < TWO_64 && n < |table|
    requires var es := LineIndex(table, endLocation, n); Disjoint(es) && EndsBy(es, table[n].start - 1)
    ensures var es, end := LineIndex(table, endLocation, n), EntryEnd(table, endLocation, n);
            && (n + 1 < |table| ==> table[n].start <= table[n + 1].start)
            && LineIndex(table, endLocation, n + 1) ==
               if end < table[n].start then es else es + [Range(table[n].start, end, table[n].line)]
  {
    var es, end := LineIndex(table, endLocation, n), EntryEnd(table, endLocation, n);
    if table[n].start <= end {
      EmplaceLast(es, Range(table[n].start, end, table[n].line));
    }
  }

  lemma {:induction false} LineIndexDisjoint(table: seq<LineEntry>, endLocation: int, n: nat)
    requires table != [] && SortedTable(table) && LocationsInRange(table) && endLocation < TWO_64 && n <= |table|
    ensures var es := LineIndex(table, endLocation, n);
            Disjoint(es) && EndsBy(es, LimitAfter(table, endLocation, n))
  {
    if n > 0 {
      var m := n - 1;
      LineIndexDisjoint(table, endLocation, m);
      LineIndexNext(table, endLocation, m);
      var es, end := LineIndex(table, endLocation, m), EntryEnd(table, endLocation, m);
      if table[m].start <= end {
        EmplaceLast(es, Range(table[m].start, end, table[m].line));
      }
    }
  }

  lemma {:induction false} LineIndexFinds(table: seq<LineEntry>, endLocation: int, n: nat, location: Key, k: nat)
    requires table != [] && SortedTable(table) && LocationsInRange(table) && endLocation < TWO_64
    requires 0 < n <= |table|
    requires table[0].start <= location ==> LastBefore(table, n, location, k)
    ensures GetData(LineIndex(table, endLocation, n), location) ==
            if table[0].start <= location <= LimitAfter(table, endLocation, n) then Some(table[k].line) else None
  {
    var m := n - 1;
    LineIndexDisjoint(table, endLocation, m);
    LineIndexNext(table, endLocation, m);
    var es, end := LineIndex(table, endLocation, m), EntryEnd(table, endLocation, m);
    assert table[0].start <= table[m].start;
    if location < table[m].start {
      if m > 0 {
        LineIndexFinds(table, endLocation, m, location, k);
      }
    } else {
      NothingPast(es, LimitAfter(table, endLocation, m), location);
    }
    if table[m].start <= end {
      LastLookup(es, Range(table[m].start, end, table[m].line), location);
    }
  }

  /** The scan in the agent's callbacks stops at entry `j`. */
  ghost predicate ScanStops(table: seq<LineEntry>, location: int, j: nat) {
    && j < |table|
    && (forall i :: 1 <= i <= j ==> table[i].start <= location)
    && (j + 1 < |table| ==> location < table[j + 1].start)
  }

  /** The line-number scan of the allocation and method callbacks. */
  method ScanLine(table: seq<LineEntry>, location: int) returns (lineNumber: int)
    requires table != []
    ensures exists stop: nat :: ScanStops(table, location, stop) && lineNumber == table[stop].line
  {
    lineNumber := table[0].line;
    ghost var stop := 0;
    for j := 1 to |table|
      invariant stop == j - 1 && lineNumber == table[stop].line
      invariant forall i :: 1 <= i < j ==> table[i].start <= location
    {
      if location < table[j].start {
        break;
      }
      lineNumber := table[j].line;
      stop := j;
    }
    assert ScanStops(table, location, stop);
  }

  /**
   The index answers every location as the scan does, from the first start to the end of the
   method (or to the last start, when the method ends before it), and nothing outside.
   */
  lemma IndexAgreesWithScan(table: seq<LineEntry>, endLocation: int, location: Key, stop: nat)
    requires table != [] && SortedTable(table) && LocationsInRange(table) && endLocation < TWO_64
    requires ScanStops(table, location, stop)
    ensures GetData(LineIndex(table, endLocation, |table|), location) ==
            if table[0].start <= location <= LimitAfter(table, endLocation, |table|) then Some(table[stop].line)
            else None
    ensures table[0].start <= location ==> LastBefore(table, |table|, location, stop)
  {
    if stop + 1 < |table| {
      assert forall i :: stop < i < |table| ==> table[stop + 1].start <= table[i].start;
    }
    LineIndexFinds(table, endLocation, |table|, location, stop);
  }

  // ----- Code addresses to lines -----

  /** What loading an address map comes to: an assertion stops it, or these entries are there. */
  datatype Load = Aborted | Loaded(entries: seq<Range<int>>)

  /** _start_addr + _code_size - 1 in uint64_t. */
  function CodeEnd(startAddr: Key, codeSize: nat): Key {
    ToKey(startAddr + codeSize - 1)
  }

  function LineOf(lines: seq<Range<int>>, e: AddrEntry): Option<int> {
    GetData(lines, ToKey(e.location))
  }

  /** The loop from its iteration `i` on. */
  function LoadFrom(map_: seq<AddrEntry>, i: nat, codeEnd: Key, lines: seq<Range<int>>, es: seq<Range<int>>): Load
    decreases |map_| - i
  {
    if |map_| <= i + 1 then Loaded(es)
    else
      var start, end := map_[i].addr, Minus1(map_[i + 1].addr);
      if end < start || codeEnd < end then Aborted
      else
        match LineOf(lines, map_[i + 1])
        case None => Loaded(es)
        case Some(line) => LoadFrom(map_, i + 1, codeEnd, lines, Emplace(es, Range(start, end, line)))
  }

  /** loadAddrLocationMap on a non-native method. */
  function LoadMap(map_: seq<AddrEntry>, startAddr: Key, codeSize: nat, lines: seq<Range<int>>,
                   es: seq<Range<int>>): Load
  {
    if map_ == [] || lines == [] then Loaded(es)
    else
      var end := Minus1(map_[0].addr);
      if end < startAddr then Aborted
      else
        match LineOf(lines, map_[0])
        case None => Loaded(es)
        case Some(line) =>
          LoadFrom(map_, 0, CodeEnd(startAddr, codeSize), lines, Emplace(es, Range(startAddr, end, line)))
  }

  /** A strictly increasing map that starts above the code start. */
  ghost predicate IncreasingMap(map_: seq<AddrEntry>, startAddr: Key) {
    && map_ != [] && startAddr < map_[0].addr
    && (forall i, j :: 0 <= i < j < |map_| ==> map_[i].addr < map_[j].addr)
  }

  predicate CodeInSpace(startAddr: Key, codeSize: nat) {
    0 < codeSize && startAddr + codeSize <= TWO_64
  }

  /** The entry that ends the last range the loop looks at, when `n` leading locations have a line. */
  function LastEntry(map_: seq<AddrEntry>, n: nat): int {
    if n < |map_| then n else |map_| - 1
  }

  /** No range that the loop looks at from iteration `i` on reaches past the code. */
  predicate Fits(map_: seq<AddrEntry>, startAddr: Key, codeSize: nat, n: nat, i: nat) {
    i < LastEntry(map_, n) ==> map_[LastEntry(map_, n)].addr <= startAddr + codeSize
  }

  /** `found` lists the lines of the leading locations that have one; the next location has none. */
  ghost predicate Resolves(map_: seq<AddrEntry>, lines: seq<Range<int>>, found: seq<int>) {
    && |found| <= |map_|
    && (forall i {:trigger found[i]} :: 0 <= i < |found| ==> LineOf(lines, map_[i]) == Some(found[i]))
    && (|found| < |map_| ==> LineOf(lines, map_[|found|]) == None)
  }

  /** Tile `i` reaches from the previous map address to just below the map address `i`. */
  ghost function Tile(map_: seq<AddrEntry>, startAddr: Key, found: seq<int>, i: nat): Range<int>
    requires i < |map_| && i < |found|
  {
    Range(if i == 0 then startAddr else map_[i - 1].addr, Minus1(map_[i].addr), found[i])
  }

  /** `es` is the first `n` tiles, in order. */
  ghost predicate Tiling(es: seq<Range<int>>, map_: seq<AddrEntry>, startAddr: Key, found: seq<int>, n: nat)
    requires n <= |found| <= |map_|
  {
    |es| == n && forall i :: 0 <= i < n ==> es[i] == Tile(map_, startAddr, found, i)
  }

  lemma AddrAbove(map_: seq<AddrEntry>, startAddr: Key, i: nat)
    requires IncreasingMap(map_, startAddr) && i < |map_|
    ensures map_[i].addr > startAddr && Minus1(map_[i].addr) == map_[i].addr - 1
  {
    assert i > 0 ==> map_[0].addr < map_[i].addr;
  }

  lemma TilingDisjoint(es: seq<Range<int>>, map_: seq<AddrEntry>, startAddr: Key,
                                          found: seq<int>, n: nat)
    requires IncreasingMap(map_, startAddr) && n <= |found| <= |map_|
    requires Tiling(es, map_, startAddr, found, n)
    ensures Disjoint(es) && (n > 0 ==> EndsBy(es, map_[n - 1].addr - 1))
  {
    forall i, k | 0 <= i < k < |es|
      ensures es[i].end < es[k].start
    {
      AddrAbove(map_, startAddr, i);
      assert i == k - 1 || map_[i].addr < map_[k - 1].addr;
    }
    forall i | 0 <= i < |es|
      ensures es[i].start <= es[i].end && es[i].end <= map_[n - 1].addr - 1
    {
      AddrAbove(map_, startAddr, i);
      assert i > 0 ==> map_[i - 1].addr < map_[i].addr;
      assert i == n - 1 || map_[i].addr < map_[n - 1].addr;
    }
  }

  /** The bounds of one iteration: they pass the first assertion, and the second if they fit. */
  lemma LoadBounds(map_: seq<AddrEntry>, startAddr: Key, codeSize: nat, n: nat, i: nat)
    requires IncreasingMap(map_, startAddr) && CodeInSpace(startAddr, codeSize)
    requires i < n <= |map_| && i + 1 < |map_|
    ensures map_[i].addr <= Minus1(map_[i + 1].addr) == map_[i + 1].addr - 1
    ensures Minus1(map_[i + 1].addr) <= CodeEnd(startAddr, codeSize) <==> map_[i + 1].addr <= startAddr + codeSize
    ensures Fits(map_, startAddr, codeSize, n, i) <==>
            map_[i + 1].addr <= startAddr + codeSize && Fits(map_, startAddr, codeSize, n, i + 1)
  {
    assert map_[i].addr < map_[i + 1].addr;
    assert i + 1 == LastEntry(map_, n) || map_[i + 1].addr < map_[LastEntry(map_, n)].addr;
  }

  /** One iteration appends one tile. */
  lemma LoadStep(map_: seq<AddrEntry>, startAddr: Key, found: seq<int>, i: nat, es: seq<Range<int>>)
    requires IncreasingMap(map_, startAddr) && i + 1 < |found| <= |map_|
    requires Tiling(es, map_, startAddr, found, i + 1)
    ensures Minus1(map_[i + 1].addr) == map_[i + 1].addr - 1
    ensures var r := Range(map_[i].addr, map_[i + 1].addr - 1, found[i + 1]);
            Emplace(es, r) == es + [r] && Tiling(es + [r], map_, startAddr, found, i + 2)
  {
    assert map_[i].addr < map_[i + 1].addr;
    TilingDisjoint(es, map_, startAddr, found, i + 1);
    AddrAbove(map_, startAddr, i + 1);
    EmplaceLast(es, Tile(map_, startAddr, found, i + 1));
  }

  lemma {:induction false} LoadFromTiles(map_: seq<AddrEntry>, startAddr: Key, codeSize: nat, lines: seq<Range<int>>,
                                         found: seq<int>, i: nat, es: seq<Range<int>>)
    requires IncreasingMap(map_, startAddr) && CodeInSpace(startAddr, codeSize)
    requires Resolves(map_, lines, found) && i < |found| && Tiling(es, map_, startAddr, found, i + 1)
    ensures var r := LoadFrom(map_, i, CodeEnd(startAddr, codeSize), lines, es);
            && (r.Loaded? <==> Fits(map_, startAddr, codeSize, |found|, i))
            && (r.Loaded? ==> Tiling(r.entries, map_, startAddr, found, |found|))
    decreases |found| - i
  {
    if i + 1 < |map_| {
      LoadBounds(map_, startAddr, codeSize, |found|, i);
      if i + 1 < |found| && map_[i + 1].addr <= startAddr + codeSize {
        LoadStep(map_, startAddr, found, i, es);
        assert LineOf(lines, map_[i + 1]) == Some(found[i + 1]);
        var r := Range(map_[i].addr, map_[i + 1].addr - 1, found[i + 1]);
        LoadFromTiles(map_, startAddr, codeSize, lines, found, i + 1, es + [r]);
      }
    }
  }

  lemma FirstTile(map_: seq<AddrEntry>, startAddr: Key, codeSize: nat, lines: seq<Range<int>>, found: seq<int>)
    returns (es: seq<Range<int>>)
    requires IncreasingMap(map_, startAddr) && Resolves(map_, lines, found) && found != []
    ensures Tiling(es, map_, startAddr, found, 1)
    ensures LoadMap(map_, startAddr, codeSize, lines, []) ==
            LoadFrom(map_, 0, CodeEnd(startAddr, codeSize), lines, es)
  {
    AddrAbove(map_, startAddr, 0);
    var r := Tile(map_, startAddr, found, 0);
    es := [r];
    EmplaceFirst(r);
    LoadMapBegins(map_, startAddr, codeSize, lines, found[0]);
  }

  lemma EmplaceFirst(r: Range<int>)
    ensures Emplace([], r) == [r]
  {
    var none: seq<Range<int>> := [];
    assert LowerBound(none, r.start) == 0;
    assert Emplace(none, r) == none[..0] + [r] + none[0..];
  }

  lemma LoadMapBegins(map_: seq<AddrEntry>, startAddr: Key, codeSize: nat, lines: seq<Range<int>>, line: int)
    requires map_ != [] && startAddr <= Minus1(map_[0].addr) && LineOf(lines, map_[0]) == Some(line)
    ensures LoadMap(map_, startAddr, codeSize, lines, []) ==
            LoadFrom(map_, 0, CodeEnd(startAddr, codeSize), lines,
                     Emplace([], Range(startAddr, Minus1(map_[0].addr), line)))
  {
    NoLineWithoutIndex(lines, map_[0]);
  }

  lemma NoLineWithoutIndex(lines: seq<Range<int>>, e: AddrEntry)
    ensures LineOf(lines, e).Some? ==> lines != []
  {
  }

  /**
   An increasing map loads without tripping an assertion exactly when no range looked at
   reaches past the code; what is loaded is one tile for each leading location that has a
   line: no gap and no overlap, from the code start on.
   */
  lemma LoadMapTiles(map_: seq<AddrEntry>, startAddr: Key, codeSize: nat, lines: seq<Range<int>>, found: seq<int>)
    requires IncreasingMap(map_, startAddr) && CodeInSpace(startAddr, codeSize) && Resolves(map_, lines, found)
    ensures var r := LoadMap(map_, startAddr, codeSize, lines, []);
            && (r.Loaded? <==> found == [] || Fits(map_, startAddr, codeSize, |found|, 0))
            && (r.Loaded? ==> Tiling(r.entries, map_, startAddr, found, |found|))
  {
    if found == [] {
      assert Minus1(map_[0].addr) == map_[0].addr - 1;
    } else {
      var es := FirstTile(map_, startAddr, codeSize, lines, found);
      LoadFromTiles(map_, startAddr, codeSize, lines, found, 0, es);
    }
  }

  /** For every code span, a map of two entries on which the assertion about the code end fails. */
  lemma LoadMapCanAbort(startAddr: Key, codeSize: nat) returns (map_: seq<AddrEntry>, lines: seq<Range<int>>)
    requires CodeInSpace(startAddr, codeSize)
    ensures IncreasingMap(map_, startAddr) && |map_| == 2
    ensures LoadMap(map_, startAddr, codeSize, lines, []) == Aborted
  {
    map_ := [AddrEntry(startAddr + 1, 0), AddrEntry(startAddr + codeSize + 1, 0)];
    lines := [Range(0, 0, 1)];
    assert LineOf(lines, map_[0]) == LineOf(lines, map_[1]) == Some(1) by {
      GetRangeAt(lines, 0, 0);
    }
    assert Resolves(map_, lines, [1, 1]);
    LoadMapTiles(map_, startAddr, codeSize, lines, [1, 1]);
  }

  /** Tiles are disjoint, and the tile around an address ends at the first map address above it. */
  lemma TilingFinds(es: seq<Range<int>>, map_: seq<AddrEntry>, startAddr: Key,
                                       found: seq<int>, addr: Key, j: nat)
    requires IncreasingMap(map_, startAddr) && |found| <= |map_|
    requires Tiling(es, map_, startAddr, found, |found|)
    requires startAddr <= addr && j <= |found|
    requires forall i :: 0 <= i < j ==> map_[i].addr <= addr
    requires j < |found| ==> addr < map_[j].addr
    ensures Disjoint(es)
    ensures GetData(es, addr) == if j < |found| then Some(found[j]) else None
  {
    TilingDisjoint(es, map_, startAddr, found, |found|);
    if j < |found| {
      assert es[j] == Tile(map_, startAddr, found, j);
      AddrAbove(map_, startAddr, j);
      GetRangeAt(es, j, addr);
    } else if found != [] {
      NothingPast(es, map_[|found| - 1].addr - 1, addr);
    }
  }

  // ----- The method object -----

  class CompiledMethod {
    const startAddr: Key
    const codeSize: nat
    const isNative: bool
    const bci2line: RangeSet<int>
    const addr2line: RangeSet<int>

    constructor (startAddr: Key, codeSize: nat, isNative: bool)
      ensures this.startAddr == startAddr && this.codeSize == codeSize && this.isNative == isNative
      ensures fresh(bci2line) && fresh(addr2line) && bci2line != addr2line
      ensures bci2line.startMap == [] && addr2line.startMap == []
    {
      this.startAddr := startAddr;
      this.codeSize := codeSize;
      this.isNative := isNative;
      var b := new RangeSet<int>();
      bci2line := b;
      var a := new RangeSet<int>();
      addr2line := a;
    }

    /**
     `table` and the end location are what the virtual machine reports, if it reports any.
     Answers false when the assertion in the constructor of a range fails.
     */
    method LoadBciLineTable(endLocation: Option<int>, table: Option<seq<LineEntry>>) returns (ok: bool)
      modifies bci2line
      ensures if !isNative && old(bci2line.startMap) == [] && endLocation.Some? && table.Some? then
                && (ok <==> forall i :: 0 <= i < |table.value| ==> EntryLoads(table.value, endLocation.value, i))
                && (ok ==> bci2line.startMap == LineIndex(table.value, endLocation.value, |table.value|))
              else ok && bci2line.startMap == old(bci2line.startMap)
    {
      ok := true;
      if isNative || !bci2line.IsEmpty() || endLocation.None? || table.None? {
        return;
      }
      var entries := table.value;
      for i := 0 to |entries|
        invariant ok && bci2line.startMap == LineIndex(entries, endLocation.value, i)
        invariant forall j :: 0 <= j < i ==> EntryLoads(entries, endLocation.value, j)
      {
        var tmpStart := entries[i].start;
        var tmpEnd := if i < |entries| - 1 then entries[i + 1].start - 1 else endLocation.value;
        if tmpEnd < tmpStart {
          continue;
        }
        if ToKey(tmpEnd) < ToKey(tmpStart) {
          assert !EntryLoads(entries, endLocation.value, i);
          return false;
        }
        var _ := bci2line.Insert(ToKey(tmpStart), ToKey(tmpEnd), entries[i].line);
      }
    }

    /** Answers false when one of the code's own assertions would stop it. */
    method LoadAddrLocationMap(map_: seq<AddrEntry>) returns (ok: bool)
      requires bci2line != addr2line
      modifies addr2line
      ensures var r := if isNative then Loaded(old(addr2line.startMap))
                       else LoadMap(map_, startAddr, codeSize, bci2line.startMap, old(addr2line.startMap));
              ok == r.Loaded? && (ok ==> addr2line.startMap == r.entries)
    {
      if isNative || |map_| == 0 || bci2line.IsEmpty() {
        return true;
      }
      ghost var lines := bci2line.startMap;
      var end := Minus1(map_[0].addr);
      if end < startAddr {
        return false;
      }
      var line := GetData(bci2line.startMap, ToKey(map_[0].location));
      if line.None? {
        return true;
      }
      var _ := addr2line.Insert(startAddr, end, line.value);
      ghost var r := LoadMap(map_, startAddr, codeSize, lines, old(addr2line.startMap));
      for i := 0 to |map_| - 1
        invariant bci2line.startMap == lines
        invariant LoadFrom(map_, i, CodeEnd(startAddr, codeSize), lines, addr2line.startMap) == r
      {
        var start := map_[i].addr;
        end := Minus1(map_[i + 1].addr);
        if end < start || CodeEnd(startAddr, codeSize) < end {
          return false;
        }
        line := GetData(bci2line.startMap, ToKey(map_[i + 1].location));
        if line.None? {
          return true;
        }
        var _ := addr2line.Insert(start, end, line.value);
      }
      return true;
    }

    /** None when the assertion that the address is in the method fails. */
    function Addr2Line(addr: Key): Option<int>
      reads addr2line
    {
      if addr2line.IsEmpty() then Some(0)
      else
        match GetData(addr2line.startMap, addr)
        case Some(line) => Some(line)
        case None => if startAddr <= addr <= CodeEnd(startAddr, codeSize) then Some(0) else None
    }
  }

  /** Loading and then asking: the line of the first map entry whose address exceeds `addr`. */
  lemma Addr2LineCorrect(m: CompiledMethod, map_: seq<AddrEntry>, found: seq<int>, addr: Key, j: nat)
    requires IncreasingMap(map_, m.startAddr) && CodeInSpace(m.startAddr, m.codeSize)
    requires Resolves(map_, m.bci2line.startMap, found)
    requires LoadMap(map_, m.startAddr, m.codeSize, m.bci2line.startMap, []) == Loaded(m.addr2line.startMap)
    requires m.startAddr <= addr < m.startAddr + m.codeSize && j <= |found|
    requires forall i :: 0 <= i < j ==> map_[i].addr <= addr
    requires j < |found| ==> addr < map_[j].addr
    ensures m.Addr2Line(addr) == if j < |found| then LineOf(m.bci2line.startMap, map_[j]) else Some(0)
  {
    LoadMapTiles(map_, m.startAddr, m.codeSize, m.bci2line.startMap, found);
    TilingFinds(m.addr2line.startMap, map_, m.startAddr, found, addr, j);
    assert j < |found| ==> LineOf(m.bci2line.startMap, map_[j]) == Some(found[j]);
  }

  /**
   Off the code the lookup fails its assertion, for a loaded map: below the code start, and from
   the end of the code on if no range reaches there.
   */
  lemma Addr2LineOffCode(m: CompiledMethod, map_: seq<AddrEntry>, found: seq<int>, addr: Key)
    requires IncreasingMap(map_, m.startAddr) && CodeInSpace(m.startAddr, m.codeSize)
    requires Resolves(map_, m.bci2line.startMap, found) && found != []
    requires LoadMap(map_, m.startAddr, m.codeSize, m.bci2line.startMap, []) == Loaded(m.addr2line.startMap)
    requires addr < m.startAddr || (m.startAddr + m.codeSize <= addr && map_[|found| - 1].addr <= addr)
    ensures m.Addr2Line(addr) == None
  {
    var es := m.addr2line.startMap;
    LoadMapTiles(map_, m.startAddr, m.codeSize, m.bci2line.startMap, found);
    TilingDisjoint(es, map_, m.startAddr, found, |found|);
    if addr < m.startAddr {
      BelowTiles(es, map_, m.startAddr, found, addr);
    } else {
      NothingPast(es, map_[|found| - 1].addr - 1, addr);
    }
  }

  lemma BelowTiles(es: seq<Range<int>>, map_: seq<AddrEntry>, startAddr: Key, found: seq<int>, addr: Key)
    requires IncreasingMap(map_, startAddr) && |found| <= |map_| && addr < startAddr
    requires Tiling(es, map_, startAddr, found, |found|) && Disjoint(es)
    ensures GetData(es, addr) == None
  {
    forall i | 0 <= i < |es|
      ensures addr < es[i].start
    {
      assert es[i] == Tile(map_, startAddr, found, i);
      if i > 0 {
        AddrAbove(map_, startAddr, i - 1);
      }
    }
    GetRangeCorrect(es, addr);
  }

  // ----- From code addresses to table entries -----

  /** A jlocation that the table covers: from its first start to the method end, or to the last start. */
  predicate Covered(table: seq<LineEntry>, endLocation: int, location: int) {
    && table != [] && table[0].start <= location
    && (location <= endLocation || location < table[|table| - 1].start)
  }

  ghost predicate Locations(map_: seq<AddrEntry>) {
    forall i :: 0 <= i < |map_| ==> -TWO_63 <= map_[i].location < TWO_63
  }

  /** The entry for a location is the last that starts at or before it. */
  function EntryFor(table: seq<LineEntry>, location: int, n: nat): (k: nat)
    requires 0 < n <= |table| && table[0].start <= location
    ensures k < n && table[k].start <= location
    ensures forall i :: k < i < n ==> location < table[i].start
  {
    if table[n - 1].start <= location then n - 1 else EntryFor(table, location, n - 1)
  }

  /** On a sorted table the index gives the entry's line for a covered location, and none for any other. */
  lemma LineOfLocation(table: seq<LineEntry>, endLocation: int, e: AddrEntry)
    requires SortedTable(table) && LocationsInRange(table) && endLocation < TWO_63
    requires forall i :: 0 <= i < |table| ==> table[i].start < TWO_63
    requires -TWO_63 <= e.location < TWO_63
    ensures LineOf(LineIndex(table, endLocation, |table|), e) ==
            if Covered(table, endLocation, e.location) then Some(table[EntryFor(table, e.location, |table|)].line)
            else None
  {
    if table != [] {
      if e.location >= 0 {
        var k := if table[0].start <= e.location then EntryFor(table, e.location, |table|) else 0;
        LineIndexFinds(table, endLocation, |table|, e.location, k);
      } else {
        NoNegativeLocation(table, endLocation, e);
      }
    }
  }

  /** As a uint64_t a negative location is past every range. */
  lemma NoNegativeLocation(table: seq<LineEntry>, endLocation: int, e: AddrEntry)
    requires table != [] && SortedTable(table) && LocationsInRange(table) && endLocation < TWO_63
    requires table[|table| - 1].start < TWO_63 && -TWO_63 <= e.location < 0
    ensures LineOf(LineIndex(table, endLocation, |table|), e) == None
  {
    LineIndexDisjoint(table, endLocation, |table|);
    NothingPast(LineIndex(table, endLocation, |table|), LimitAfter(table, endLocation, |table|), ToKey(e.location));
  }

  /** The lines of the leading locations that have one. */
  lemma {:induction false} ResolvedLines(map_: seq<AddrEntry>, lines: seq<Range<int>>, n: nat) returns (found: seq<int>)
    requires n <= |map_| && forall i {:trigger LineOf(lines, map_[i])} :: 0 <= i < n ==> LineOf(lines, map_[i]).Some?
    ensures n <= |found| && Resolves(map_, lines, found)
    decreases |map_| - n
  {
    if n < |map_| && LineOf(lines, map_[n]).Some? {
      found := ResolvedLines(map_, lines, n + 1);
    } else {
      found := seq(n, i requires 0 <= i < n => LineOf(lines, map_[i]).value);
    }
  }

  /**
   A method with a sorted line table and an increasing address map: the line of a code address is
   that of the last table entry at or before the location of the first map entry above the address,
   and 0 when that location, or one of an earlier entry, is not covered.
   */
  lemma AddrLineIsTableLine(m: CompiledMethod, table: seq<LineEntry>, endLocation: int, map_: seq<AddrEntry>,
                            addr: Key, j: nat)
    requires SortedTable(table) && LocationsInRange(table) && endLocation < TWO_63
    requires forall i :: 0 <= i < |table| ==> table[i].start < TWO_63
    requires Locations(map_) && IncreasingMap(map_, m.startAddr) && CodeInSpace(m.startAddr, m.codeSize)
    requires m.bci2line.startMap == LineIndex(table, endLocation, |table|)
    requires LoadMap(map_, m.startAddr, m.codeSize, m.bci2line.startMap, []) == Loaded(m.addr2line.startMap)
    requires m.startAddr <= addr < m.startAddr + m.codeSize && j <= |map_|
    requires forall i :: 0 <= i < j ==> map_[i].addr <= addr
    requires j < |map_| ==> addr < map_[j].addr
    ensures if j < |map_| && forall i :: 0 <= i <= j ==> Covered(table, endLocation, map_[i].location) then
              exists k :: && 0 <= k < |table| && table[k].start <= map_[j].location
                          && (forall i :: k < i < |table| ==> map_[j].location < table[i].start)
                          && m.Addr2Line(addr) == Some(table[k].line)
            else m.Addr2Line(addr) == Some(0)
  {
    var lines := m.bci2line.startMap;
    forall i {:trigger LineOf(lines, map_[i])} | 0 <= i < |map_|
      ensures LineOf(lines, map_[i]).Some? <==> Covered(table, endLocation, map_[i].location)
    {
      LineOfLocation(table, endLocation, map_[i]);
    }
    var found := ResolvedLines(map_, lines, 0);
    if |found| <= j {
      Addr2LineCorrect(m, map_, found, addr, |found|);
      assert |found| < |map_| ==> LineOf(lines, map_[|found|]) == None;
    } else {
      Addr2LineCorrect(m, map_, found, addr, j);
      CoveredWhereFound(table, endLocation, map_, lines, found, j);
      LineOfLocation(table, endLocation, map_[j]);
      var k := EntryFor(table, map_[j].location, |table|);
      assert m.Addr2Line(addr) == Some(table[k].line);
    }
  }

  lemma CoveredWhereFound(table: seq<LineEntry>, endLocation: int, map_: seq<AddrEntry>, lines: seq<Range<int>>,
                          found: seq<int>, j: nat)
    requires Resolves(map_, lines, found) && j < |found|
    requires forall i {:trigger LineOf(lines, map_[i])} :: 0 <= i < |map_| ==>
               (LineOf(lines, map_[i]).Some? <==> Covered(table, endLocation, map_[i].location))
    ensures forall i :: 0 <= i <= j ==> Covered(table, endLocation, map_[i].location)
  {
    forall i | 0 <= i <= j
      ensures Covered(table, endLocation, map_[i].location)
    {
      assert LineOf(lines, map_[i]) == Some(found[i]);
    }
  }
}
