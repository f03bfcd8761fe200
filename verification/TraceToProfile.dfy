/**
 From what the profiler sees to what the converter exports: call paths are printed into a
 file, and the file goes through the loop that reads it. Memory samples and cache misses are
 printed by one kind of printer and read by one kind of loop, allocations by another.
 */
module TraceToProfile {
  import opened Wrappers
  import opened WordArithmetic
  import opened Text
  import opened TraceFormat
  import opened ContextExport
  import opened LineExport

  /** What one call of a printer is about: the frames it prints, and its number. */
  datatype Printed = Printed(frames: seq<PathFrame>, number: int)

  /** What becomes of `start` in the first `n` calls. */
  function Fold<A>(start: A, step: (A, Printed) -> A, ps: seq<Printed>, n: nat): A
    requires n <= |ps|
  {
    if n == 0 then start else step(Fold(start, step, ps, n - 1), ps[n - 1])
  }

  function PrintStep(): (string, Printed) -> string {
    (text: string, p: Printed) => WithLine(text, p.frames, p.number)
  }

  /** The file that began as `start` after the first `n` calls. */
  function Printout(start: string, ps: seq<Printed>, n: nat): string
    requires n <= |ps|
  {
    Fold(start, PrintStep(), ps, n)
  }

  // ----- The lines of a printout -----

  /** The line the converter should make of what was printed. */
  function LineFor(p: Printed, known: set<int>): Line {
    Line(AllAsRead(p.frames), p.number, known)
  }

  /** The lines with that of one more call; without frames nothing is printed. */
  function WithCall(lines: seq<Line>, p: Printed, known: set<int>): seq<Line> {
    if p.frames == [] then lines else lines + [LineFor(p, known)]
  }

  /** The lines `first` and then those of the first `n` calls. */
  function LinesFor(first: seq<Line>, ps: seq<Printed>, known: set<int>, n: nat): seq<Line>
    requires n <= |ps|
  {
    Fold(first, LineStep(known), ps, n)
  }

  function LineStep(known: set<int>): (seq<Line>, Printed) -> seq<Line> {
    (lines: seq<Line>, p: Printed) => WithCall(lines, p, known)
  }

  predicate FramesPlain(p: Printed) {
    AllPlain(p.frames)
  }

  ghost predicate PrintedPlain(ps: seq<Printed>) {
    forall i {:trigger FramesPlain(ps[i])} :: 0 <= i < |ps| ==> FramesPlain(ps[i])
  }

  /** The call prints a line on which the loop raises. */
  ghost predicate CallRaises(loop: Loop, p: Printed, known: set<int>) {
    p.frames != [] && Raises(loop, LineFor(p, known))
  }

  ghost predicate NoCallRaises(loop: Loop, ps: seq<Printed>, known: set<int>, n: nat)
    requires n <= |ps|
  {
    Fold(true, RaiseStep(loop, known), ps, n)
  }

  ghost function RaiseStep(loop: Loop, known: set<int>): (bool, Printed) -> bool {
    (quiet: bool, p: Printed) => quiet && !CallRaises(loop, p, known)
  }

  /** The text is complete lines that lead from the lines `first` to `lines`; `quiet` says that none of them raises. */
  ghost predicate ParsesTo(loop: Loop, text: string, known: set<int>, first: seq<Line>, lines: seq<Line>, quiet: bool) {
    && EndsInLine(text) && WithFile(first, TraceFile(text, known)) == lines
    && (quiet <==> !FileRaises(loop, TraceFile(text, known)))
  }

  /** What holds at the start, and after a call if it holds before, holds after any number of calls. */
  lemma {:induction false} CallByCall<A(!new), B(!new), C(!new)>(
    a: A, f: (A, Printed) -> A, b: B, g: (B, Printed) -> B, c: C, h: (C, Printed) -> C,
    ps: seq<Printed>, n: nat, holds: (A, B, C) -> bool)
    requires n <= |ps| && PrintedPlain(ps) && holds(a, b, c)
    requires forall x, y, z, p {:trigger f(x, p), g(y, p), h(z, p)} ::
               FramesPlain(p) && holds(x, y, z) ==> holds(f(x, p), g(y, p), h(z, p))
    ensures holds(Fold(a, f, ps, n), Fold(b, g, ps, n), Fold(c, h, ps, n))
  {
    if n > 0 {
      CallByCall(a, f, b, g, c, h, ps, n - 1, holds);
      assert FramesPlain(ps[n - 1]);
    }
  }

  /** What a printout adds to a file is parsed to the lines it should be, and raises where they do. */
  lemma PrintoutParses(loop: Loop, start: string, first: seq<Line>, ps: seq<Printed>, known: set<int>, n: nat)
    requires n <= |ps| && PrintedPlain(ps) && ParsesTo(loop, start, known, first, first, true)
    ensures ParsesTo(loop, Printout(start, ps, n), known, first, LinesFor(first, ps, known, n),
                     NoCallRaises(loop, ps, known, n))
  {
    var f, g, h := PrintStep(), LineStep(known), RaiseStep(loop, known);
    var holds := (text, lines, quiet) => ParsesTo(loop, text, known, first, lines, quiet);
    forall text, lines, quiet, p | FramesPlain(p) && holds(text, lines, quiet)
      ensures holds(f(text, p), g(lines, p), h(quiet, p))
    {
      PrintedNext(loop, text, first, lines, quiet, p, known);
    }
    CallByCall(start, f, first, g, true, h, ps, n, holds);
  }

  lemma NothingParses(loop: Loop, known: set<int>)
    ensures ParsesTo(loop, "", known, [], [], true)
  {
    assert FileLines("") == [];
  }

  lemma PrintedNext(loop: Loop, before: string, first: seq<Line>, lines: seq<Line>, quiet: bool,
                    p: Printed, known: set<int>)
    requires ParsesTo(loop, before, known, first, lines, quiet) && FramesPlain(p)
    ensures ParsesTo(loop, WithLine(before, p.frames, p.number), known, first, WithCall(lines, p, known),
                     quiet && !CallRaises(loop, p, known))
  {
    if p.frames != [] {
      var line := PrintedIsLine(p.frames, p.number);
      FileLinesSnoc(before, line);
      LineReadsBack(p.frames, p.number);
      OneMoreText(loop, first, FileLines(before), FileLines(before + (line + "\n")), line + "\n", LineFor(p, known));
    }
  }

  lemma {:induction false} OneMoreText(loop: Loop, first: seq<Line>, lines: seq<string>, more: seq<string>,
                                       last: string, l: Line)
    requires OneMoreLine(lines, more, last) && ReadLine(last) == Trace(l.frames, l.metric)
    ensures WithText(first, more, l.known, |more|) == WithText(first, lines, l.known, |lines|) + [l]
    ensures NoneRaises(loop, more, l.known, |more|) <==> NoneRaises(loop, lines, l.known, |lines|) && !Raises(loop, l)
  {
    OneMoreParsed(first, lines, more, last, l);
    OneMoreRaises(loop, lines, more, last, l);
  }

  lemma {:induction false} OneMoreParsed(first: seq<Line>, lines: seq<string>, more: seq<string>, last: string, l: Line)
    requires OneMoreLine(lines, more, last) && ReadLine(last) == Trace(l.frames, l.metric)
    ensures WithText(first, more, l.known, |more|) == WithText(first, lines, l.known, |lines|) + [l]
  {
    ParsedPrefix(first, lines, more, l.known, |lines|);
  }

  lemma {:induction false} OneMoreRaises(loop: Loop, lines: seq<string>, more: seq<string>, last: string, l: Line)
    requires OneMoreLine(lines, more, last) && ReadLine(last) == Trace(l.frames, l.metric)
    ensures NoneRaises(loop, more, l.known, |more|) <==> NoneRaises(loop, lines, l.known, |lines|) && !Raises(loop, l)
  {
    RaisesPrefix(loop, lines, more, l.known);
    NextLine(loop, more, l.known, |lines|);
  }

  lemma {:induction false} ParsedPrefix(first: seq<Line>, lines: seq<string>, more: seq<string>,
                                        known: set<int>, n: nat)
    requires n <= |lines| <= |more| && forall i :: 0 <= i < |lines| ==> more[i] == lines[i]
    ensures WithText(first, more, known, n) == WithText(first, lines, known, n)
  {
    if n > 0 {
      ParsedPrefix(first, lines, more, known, n - 1);
    }
  }

  lemma RaisesPrefix(loop: Loop, lines: seq<string>, more: seq<string>, known: set<int>)
    requires |lines| <= |more| && forall i :: 0 <= i < |lines| ==> more[i] == lines[i]
    ensures NoneRaises(loop, more, known, |lines|) == NoneRaises(loop, lines, known, |lines|)
  {
    forall i | 0 <= i < |lines|
      ensures TextRaises(loop, more[i], known) == TextRaises(loop, lines[i], known)
    {
    }
  }

  // ----- Known methods -----

  /** The id that is printed for the method is in the method map. */
  predicate IsIn(f: PathFrame, known: set<int>) {
    ToInt32(f.methodId) in known
  }

  predicate AllIn(frames: seq<PathFrame>, known: set<int>, n: nat)
    requires n <= |frames|
  {
    forall i {:trigger IsIn(frames[i], known)} :: 0 <= i < n ==> IsIn(frames[i], known)
  }

  /** How many frames there are up to the last one with a known method among the first `n`. */
  function LastIn(frames: seq<PathFrame>, known: set<int>, n: nat): (k: nat)
    requires n <= |frames|
    ensures k <= n
  {
    if n == 0 then 0 else if IsIn(frames[n - 1], known) then n else LastIn(frames, known, n - 1)
  }

  /** How far into the printed frames the sample's context is; 0 if there is no sample. */
  function DepthOf(loop: Loop, p: Printed, known: set<int>): (k: nat)
    ensures k <= |p.frames|
  {
    var n := |p.frames|;
    if loop.TraceLoop? then LastIn(p.frames, known, n) else if AllIn(p.frames, known, n) then n else 0
  }

  /** The line's methods are known where those of the frames are. */
  ghost predicate KnownAsIn(l: Line, frames: seq<PathFrame>, known: set<int>) {
    && |l.frames| == |frames|
    && forall i {:trigger Known(l, l.frames[i])} {:trigger IsIn(frames[i], known)} :: 0 <= i < |frames| ==>
         (Known(l, l.frames[i]) <==> IsIn(frames[i], known))
  }

  lemma LineKnownAsIn(p: Printed, known: set<int>)
    ensures KnownAsIn(LineFor(p, known), p.frames, known)
  {
    var l := LineFor(p, known);
    forall i {:trigger Known(l, l.frames[i])} | 0 <= i < |p.frames|
      ensures Known(l, l.frames[i]) <==> IsIn(p.frames[i], known)
    {
      KnownIsIn(p, known, i);
    }
  }

  lemma {:induction false} LastKnownIsLastIn(l: Line, frames: seq<PathFrame>, known: set<int>, n: nat)
    requires KnownAsIn(l, frames, known) && n <= |frames|
    ensures LastKnown(l, n) == LastIn(frames, known, n)
  {
    if n > 0 {
      LastKnownIsLastIn(l, frames, known, n - 1);
    }
  }

  lemma KnownIsIn(p: Printed, known: set<int>, i: nat)
    requires i < |p.frames|
    ensures var l := LineFor(p, known); Known(l, l.frames[i]) <==> IsIn(p.frames[i], known)
  {
    IdReadsBack(p.frames[i]);
  }

  lemma DepthIsDepth(loop: Loop, p: Printed, known: set<int>)
    ensures Depth(loop, LineFor(p, known)) == DepthOf(loop, p, known)
  {
    LineKnownAsIn(p, known);
    LastKnownIsLastIn(LineFor(p, known), p.frames, known, |p.frames|);
  }

  // ----- The samples of a printout -----

  /** `first` and then those of the first `n` calls that have a sample. */
  function Named(loop: Loop, first: seq<Printed>, ps: seq<Printed>, known: set<int>, n: nat): seq<Printed>
    requires n <= |ps|
  {
    if n == 0 then first else WithNamed(loop, Named(loop, first, ps, known, n - 1), ps[n - 1], known)
  }

  /** The calls that have a sample. */
  function Sampling(loop: Loop, ps: seq<Printed>, known: set<int>): seq<Printed> {
    Named(loop, [], ps, known, |ps|)
  }

  function WithNamed(loop: Loop, named: seq<Printed>, p: Printed, known: set<int>): seq<Printed> {
    if DepthOf(loop, p, known) > 0 then named + [p] else named
  }

  /** The frames on the way down to a context. */
  function FramesOf(arr: seq<Ctx>, c: nat): seq<TraceFrame>
    requires TrieOk(arr) && c < |arr|
  {
    if c == 0 then []
    else
      assert ParentOk(arr, c);
      FramesOf(arr, arr[c].pid) + [arr[c].frame]
  }

  lemma {:induction false} WalkedFrames(arr: seq<Ctx>, frames: seq<TraceFrame>, n: nat)
    requires TrieOk(arr) && n <= |frames| && ReadableTo(frames, n) && WalkTo(arr, frames, n).Some?
    ensures WalkTo(arr, frames, n).value < |arr|
    ensures FramesOf(arr, WalkTo(arr, frames, n).value) == frames[..n]
  {
    WalkInRange(arr, frames, n);
    if n > 0 {
      var c := WalkTo(arr, frames, n).value;
      assert frames[..n] == frames[..n - 1] + [frames[n - 1]];
      WalkedFrames(arr, frames, n - 1);
      assert ParentOk(arr, c) && Readable(frames[n - 1]);
      KeyTextInjective(arr[c].frame, frames[n - 1]);
    }
  }

  /** The sample is at the context whose frames are the printed ones down to the last that counts. */
  ghost predicate IsSampleOf(loop: Loop, arr: seq<Ctx>, s: SampleRecord, p: Printed, known: set<int>)
    requires TrieOk(arr)
  {
    && s.contextId < |arr| && FramesOf(arr, s.contextId) == AllAsRead(p.frames[..DepthOf(loop, p, known)])
    && s.metric == p.number
  }

  /** One sample for each of the calls, in order. */
  ghost predicate SamplesMatch(loop: Loop, arr: seq<Ctx>, samples: seq<SampleRecord>, named: seq<Printed>,
                               known: set<int>)
    requires TrieOk(arr)
  {
    && |samples| == |named|
    && forall i {:trigger IsSampleOf(loop, arr, samples[i], named[i], known)} :: 0 <= i < |samples| ==>
         IsSampleOf(loop, arr, samples[i], named[i], known)
  }

  /** The samples of the lines are the right ones, wherever the contexts are there. */
  ghost predicate SamplesRight(loop: Loop, arr: seq<Ctx>, lines: seq<Line>, named: seq<Printed>, known: set<int>)
    requires TrieOk(arr)
  {
    PathsPresent(loop, arr, lines, |lines|) ==>
      SamplesMatch(loop, arr, SamplesOf(loop, arr, lines, |lines|), named, known)
  }

  lemma {:induction false} SamplesOfCalls(loop: Loop, arr: seq<Ctx>, first: seq<Line>, named: seq<Printed>,
                                          ps: seq<Printed>, known: set<int>, n: nat)
    requires n <= |ps| && TrieOk(arr) && PrintedPlain(ps) && SamplesRight(loop, arr, first, named, known)
    ensures SamplesRight(loop, arr, LinesFor(first, ps, known, n), Named(loop, named, ps, known, n), known)
  {
    if n > 0 {
      SamplesOfCalls(loop, arr, first, named, ps, known, n - 1);
      SamplesNext(loop, arr, LinesFor(first, ps, known, n - 1), Named(loop, named, ps, known, n - 1), ps[n - 1], known);
    }
  }

  lemma PresentParts(loop: Loop, arr: seq<Ctx>, before: seq<Line>, p: Printed, known: set<int>)
    requires var lines := WithCall(before, p, known); PathsPresent(loop, arr, lines, |lines|)
    ensures PathsPresent(loop, arr, before, |before|)
    ensures p.frames != [] ==> PathPresent(loop, arr, LineFor(p, known))
  {
    if p.frames != [] {
      SamplesOfPrefix(loop, arr, before, LineFor(p, known), |before|);
    }
  }

  lemma SamplesNext(loop: Loop, arr: seq<Ctx>, before: seq<Line>, named: seq<Printed>, p: Printed, known: set<int>)
    requires TrieOk(arr) && SamplesRight(loop, arr, before, named, known)
    ensures SamplesRight(loop, arr, WithCall(before, p, known), WithNamed(loop, named, p, known), known)
  {
    var lines := WithCall(before, p, known);
    if p.frames != [] && PathsPresent(loop, arr, lines, |lines|) {
      PresentParts(loop, arr, before, p, known);
      OneMore(loop, arr, before, LineFor(p, known));
      SampleNext(loop, arr, SamplesOf(loop, arr, before, |before|), named, p, known);
    }
  }

  /** A call that has a sample has the right one. */
  lemma SampleNext(loop: Loop, arr: seq<Ctx>, samples: seq<SampleRecord>, named: seq<Printed>,
                   p: Printed, known: set<int>)
    requires TrieOk(arr) && SamplesMatch(loop, arr, samples, named, known)
    requires p.frames != [] && PathPresent(loop, arr, LineFor(p, known))
    ensures SamplesMatch(loop, arr, WithSample(loop, arr, samples, LineFor(p, known)),
                         WithNamed(loop, named, p, known), known)
  {
    DepthIsDepth(loop, p, known);
    if DepthOf(loop, p, known) > 0 {
      SampleOfCall(loop, arr, p, known);
      MatchesSnoc(loop, arr, samples, named, TheSample(loop, arr, LineFor(p, known)), p, known);
    }
  }

  lemma MatchesSnoc(loop: Loop, arr: seq<Ctx>, samples: seq<SampleRecord>, named: seq<Printed>,
                    s: SampleRecord, p: Printed, known: set<int>)
    requires TrieOk(arr) && SamplesMatch(loop, arr, samples, named, known) && IsSampleOf(loop, arr, s, p, known)
    ensures SamplesMatch(loop, arr, samples + [s], named + [p], known)
  {
    var all, allNamed := samples + [s], named + [p];
    forall i {:trigger IsSampleOf(loop, arr, all[i], allNamed[i], known)} | 0 <= i < |all|
      ensures IsSampleOf(loop, arr, all[i], allNamed[i], known)
    {
      assert i < |samples| ==> IsSampleOf(loop, arr, samples[i], named[i], known);
    }
  }

  lemma SampleOfCall(loop: Loop, arr: seq<Ctx>, p: Printed, known: set<int>)
    requires TrieOk(arr) && PathPresent(loop, arr, LineFor(p, known)) && Sampled(loop, arr, LineFor(p, known))
    ensures IsSampleOf(loop, arr, TheSample(loop, arr, LineFor(p, known)), p, known)
  {
    DepthIsDepth(loop, p, known);
    var frames, k := AllAsRead(p.frames), DepthOf(loop, p, known);
    WalkedFrames(arr, frames, k);
    assert frames[..k] == AllAsRead(p.frames[..k]);
  }

  /**
   A printout through the loop that reads it: one sample for each call with a known method,
   or with all methods known in the alloc loop, in order, at the context of the frames down
   to the last known one, with the number printed. It raises exactly when a line does.
   */
  method ExportPrintout(loop: Loop, trie: ContextArray, text: string, known: set<int>, ghost ps: seq<Printed>)
    returns (profile: Profile, ok: bool)
    requires TrieOk(trie.contexts) && PrintedPlain(ps) && text == Printout("", ps, |ps|)
    modifies trie
    ensures ok <==> NoCallRaises(loop, ps, known, |ps|)
    ensures ok ==> TrieOk(trie.contexts) && RecordsOk(loop, trie.contexts, profile.View())
    ensures ok ==> SamplesMatch(loop, trie.contexts, profile.samples, Sampling(loop, ps, known), known)
  {
    var file := TraceFile(text, known);
    NothingParses(loop, known);
    PrintoutParses(loop, "", [], ps, known, |ps|);
    OneFile(loop, file);
    profile, ok := ExportAll(loop, trie, [file]);
    if ok {
      SamplesOfCalls(loop, trie.contexts, [], [], ps, known, |ps|);
    }
  }

  lemma OneFile(loop: Loop, file: TraceFile)
    ensures AllLines([], [file], 1) == WithFile([], file)
    ensures NoFileRaises(loop, [file], 1) <==> !FileRaises(loop, file)
  {
    assert AllLines([], [file], 0) == [];
    assert NoFileRaises(loop, [file], 0);
  }

  /** The calls that have a sample, by their indices. */
  lemma {:induction false} NamedIndices(loop: Loop, first: seq<Printed>, ps: seq<Printed>, known: set<int>, n: nat)
    returns (which: seq<nat>)
    requires n <= |ps|
    ensures |Named(loop, first, ps, known, n)| == |first| + |which|
    ensures forall k :: 0 <= k < |which| ==>
              && which[k] < n && Named(loop, first, ps, known, n)[|first| + k] == ps[which[k]]
              && DepthOf(loop, ps[which[k]], known) > 0
    ensures forall k, l :: 0 <= k < l < |which| ==> which[k] < which[l]
    ensures forall i :: 0 <= i < n && DepthOf(loop, ps[i], known) > 0 ==> i in which
  {
    if n == 0 {
      which := [];
    } else {
      which := NamedIndices(loop, first, ps, known, n - 1);
      if DepthOf(loop, ps[n - 1], known) > 0 {
        which := which + [n - 1];
      }
    }
  }

  lemma {:induction false} LastInExactly(frames: seq<PathFrame>, known: set<int>, n: nat)
    requires n <= |frames|
    ensures var k := LastIn(frames, known, n);
            && (k > 0 ==> IsIn(frames[k - 1], known))
            && forall j :: k <= j < n ==> !IsIn(frames[j], known)
  {
    if n > 0 && !IsIn(frames[n - 1], known) {
      LastInExactly(frames, known, n - 1);
    }
  }

  /** On the way down to the context are the frames at the first `n` indices, as they were printed. */
  ghost predicate ContextIs(arr: seq<Ctx>, c: nat, frames: seq<PathFrame>, at: seq<nat>, n: nat)
    requires TrieOk(arr)
  {
    && c < |arr| && n <= |at| && |FramesOf(arr, c)| == n
    && forall j :: 0 <= j < n ==> at[j] < |frames| && FramesOf(arr, c)[j] == AsRead(frames[at[j]])
  }

  lemma ContextOfPrinted(arr: seq<Ctx>, c: nat, frames: seq<PathFrame>, at: seq<nat>, printed: seq<PathFrame>, n: nat)
    requires TrieOk(arr) && c < |arr| && n <= |printed| == |at|
    requires forall j :: 0 <= j < |at| ==> at[j] < |frames| && printed[j] == frames[at[j]]
    requires FramesOf(arr, c) == AllAsRead(printed[..n])
    ensures ContextIs(arr, c, frames, at, n)
  {
  }

  /** `which` lists, in order, the indices below `n` that have the property. */
  ghost predicate Lists(which: seq<nat>, n: nat, has: nat -> bool) {
    && (forall k :: 0 <= k < |which| ==> which[k] < n && has(which[k]))
    && (forall k, l :: 0 <= k < l < |which| ==> which[k] < which[l])
    && (forall i :: 0 <= i < n && has(i) ==> i in which)
  }

  // ----- Where a printed line raises -----

  predicate DigitScope(f: PathFrame) {
    f.scope != "" && forall i :: 0 <= i < |f.scope| ==> IsDigit(f.scope[i])
  }

  predicate DigitScopes(frames: seq<PathFrame>) {
    forall i {:trigger DigitScope(frames[i])} :: 0 <= i < |frames| ==> DigitScope(frames[i])
  }

  /** The scope, read as one number, is an int64. */
  predicate ScopeFits(f: PathFrame) {
    ReadInt(f.scope).Some? ==> ReadInt(f.scope).value < TWO_63
  }

  /** A known frame among the first `n` has a scope that is too large. */
  predicate ScopeOut(frames: seq<PathFrame>, known: set<int>, n: nat)
    requires n <= |frames|
  {
    n > 0 && (ScopeOut(frames, known, n - 1) || (IsIn(frames[n - 1], known) && !ScopeFits(frames[n - 1])))
  }

  /**
   With scopes of digits a printed line raises exactly when it has a sample and its number is
   negative, or too large, or the scope of a known method is 2^63 or more.
   */
  lemma RaisesExactly(loop: Loop, p: Printed, known: set<int>)
    requires DigitScopes(p.frames)
    ensures Raises(loop, LineFor(p, known)) <==>
            && DepthOf(loop, p, known) > 0
            && (p.number < 0 || p.number >= TWO_64 || ScopeOut(p.frames, known, |p.frames|))
  {
    DepthIsDepth(loop, p, known);
    DigitsAreReadable(p.frames);
    ReadableIsRead(loop, LineFor(p, known));
    LineOutIffScopeOut(p, known, |p.frames|);
  }

  lemma DigitsAreReadable(frames: seq<PathFrame>)
    requires DigitScopes(frames)
    ensures AllReadable(AllAsRead(frames))
  {
    var read := AllAsRead(frames);
    forall i {:trigger Readable(read[i])} | 0 <= i < |read|
      ensures Readable(read[i])
    {
      assert DigitScope(frames[i]);
      DigitIsReadable(frames[i]);
    }
  }

  lemma DigitIsReadable(f: PathFrame)
    requires DigitScope(f)
    ensures Readable(AsRead(f))
  {
    IdReadsBack(f);
    ReadIntOfDigits(f.scope);
    DecimalChars(ToInt32(f.methodId));
  }

  lemma ReadableIsRead(loop: Loop, l: Line)
    requires AllReadable(l.frames)
    ensures !Unreadable(loop, l)
  {
  }

  lemma {:induction false} LineOutIffScopeOut(p: Printed, known: set<int>, n: nat)
    requires n <= |p.frames| && DigitScopes(p.frames)
    ensures LineOut(LineFor(p, known), n) <==> ScopeOut(p.frames, known, n)
  {
    if n > 0 {
      LineOutIffScopeOut(p, known, n - 1);
      KnownIsIn(p, known, n - 1);
      assert DigitScope(p.frames[n - 1]);
      ReadIntOfDigits(p.frames[n - 1].scope);
    }
  }

  // ----- Memory samples and cache misses -----

  /** A memory sample or cache miss: its call path and the 64-bit number that %d is given. */
  datatype TraceCall = TraceCall(path: seq<PathFrame>, metric: nat)

  function OfTrace(c: TraceCall): Printed {
    Printed(Kept(c.path), ToInt32(c.metric))
  }

  function OfTraces(calls: seq<TraceCall>): seq<Printed> {
    seq(|calls|, i requires 0 <= i < |calls| => OfTrace(calls[i]))
  }

  predicate SomeIn(path: seq<PathFrame>, known: set<int>, n: nat)
    requires n <= |path|
  {
    n > 0 && (SomeIn(path, known, n - 1) || IsIn(path[n - 1], known))
  }

  /** A path has a sample exactly when one of its methods is known, cut from the print or not. */
  lemma SampleIffSomeKnown(c: TraceCall, known: set<int>)
    ensures DepthOf(TraceLoop, OfTrace(c), known) > 0 <==> SomeIn(c.path, known, |c.path|)
  {
    KeptKnown(c.path, known, |c.path|);
  }

  /** The printed frames hold a known method exactly when the path does. */
  lemma {:induction false} KeptKnown(path: seq<PathFrame>, known: set<int>, n: nat)
    requires n <= |path|
    ensures SomeIn(path, known, n) <==> LastIn(KeptOf(path, n), known, |KeptOf(path, n)|) > 0
  {
    if n > 0 {
      KeptKnown(path, known, n - 1);
      var before := KeptOf(path, n - 1);
      if IsKept(path, n - 1) {
        LastInSame(before, path[n - 1], known, |before|);
      } else {
        assert IsIn(path[n - 1], known) <==> IsIn(path[n - 2], known);
      }
    }
  }

  lemma {:induction false} LastInSame(frames: seq<PathFrame>, f: PathFrame, known: set<int>, n: nat)
    requires n <= |frames|
    ensures LastIn(frames + [f], known, n) == LastIn(frames, known, n)
  {
    if n > 0 {
      LastInSame(frames, f, known, n - 1);
    }
  }

  /** The number printed for a sample is one that exports exactly when its low 32 bits are below 2^31. */
  lemma TraceMetricFits(metric: nat)
    ensures FitsUint64(ToInt32(metric)) <==> metric % TWO_32 < TWO_31
  {
  }

  ghost predicate TracesPrint(calls: seq<TraceCall>) {
    forall i {:trigger AllPlain(calls[i].path)} :: 0 <= i < |calls| ==>
      AllPlain(calls[i].path) && AllShort(calls[i].path)
  }

  method PrintTraces(calls: seq<TraceCall>, out: Output)
    requires TracesPrint(calls)
    modifies out
    ensures out.text == Printout(old(out.text), OfTraces(calls), |calls|)
  {
    ghost var start, ps := out.text, OfTraces(calls);
    for n := 0 to |calls|
      invariant out.text == Printout(start, ps, n)
    {
      assert AllPlain(calls[n].path);
      assert ps[n] == OfTrace(calls[n]);
      PrintPath(calls[n].path, calls[n].metric, out);
    }
  }

  lemma TracesArePlain(calls: seq<TraceCall>)
    requires TracesPrint(calls)
    ensures PrintedPlain(OfTraces(calls))
  {
    var ps := OfTraces(calls);
    forall i {:trigger FramesPlain(ps[i])} | 0 <= i < |ps|
      ensures FramesPlain(ps[i])
    {
      assert AllPlain(calls[i].path);
      KeptArePlain(calls[i].path, |calls[i].path|);
    }
  }

  ghost predicate SomeKnown(c: TraceCall, known: set<int>) {
    exists i :: 0 <= i < |c.path| && IsIn(c.path[i], known)
  }

  lemma {:induction false} SomeInExactly(path: seq<PathFrame>, known: set<int>, n: nat)
    requires n <= |path|
    ensures SomeIn(path, known, n) <==> exists i :: 0 <= i < n && IsIn(path[i], known)
  {
    if n > 0 {
      SomeInExactly(path, known, n - 1);
    }
  }

  /**
   The sample of a path: at the context whose frames are those where a run of one method begins,
   down to the last of these with a known method; with the low 32 bits of the metric, signed.
   */
  ghost predicate TraceSampled(arr: seq<Ctx>, s: SampleRecord, c: TraceCall, known: set<int>)
    requires TrieOk(arr)
  {
    exists at, k ::
      && RunIndices(c.path, at) && 0 < k <= |at|
      && IsIn(c.path[at[k - 1]], known) && (forall j :: k <= j < |at| ==> !IsIn(c.path[at[j]], known))
      && ContextIs(arr, s.contextId, c.path, at, k) && s.metric == ToInt32(c.metric)
  }

  lemma TraceSampleIs(arr: seq<Ctx>, s: SampleRecord, c: TraceCall, known: set<int>)
    requires TrieOk(arr) && IsSampleOf(TraceLoop, arr, s, OfTrace(c), known)
    requires DepthOf(TraceLoop, OfTrace(c), known) > 0
    ensures TraceSampled(arr, s, c, known)
  {
    var at := KeptExactly(c.path);
    var k := DepthOf(TraceLoop, OfTrace(c), known);
    LastKeptIn(c.path, at, known, k);
    ContextOfPrinted(arr, s.contextId, c.path, at, Kept(c.path), k);
  }

  lemma LastKeptIn(path: seq<PathFrame>, at: seq<nat>, known: set<int>, k: nat)
    requires |at| == |Kept(path)| && k == LastIn(Kept(path), known, |at|) && k > 0
    requires forall j :: 0 <= j < |at| ==> at[j] < |path| && Kept(path)[j] == path[at[j]]
    ensures k <= |at| && IsIn(path[at[k - 1]], known) && forall j :: k <= j < |at| ==> !IsIn(path[at[j]], known)
  {
    LastInExactly(Kept(path), known, |at|);
    forall j | k <= j < |at|
      ensures !IsIn(path[at[j]], known)
    {
      assert Kept(path)[j] == path[at[j]];
    }
  }

  /** One sample for each path with a known method, in order, and the right one. */
  ghost predicate TracesSampled(arr: seq<Ctx>, samples: seq<SampleRecord>, calls: seq<TraceCall>, known: set<int>,
                                which: seq<nat>)
    requires TrieOk(arr)
  {
    && |which| == |samples| && Lists(which, |calls|, i => 0 <= i < |calls| && SomeKnown(calls[i], known))
    && forall k :: 0 <= k < |samples| ==> which[k] < |calls| && TraceSampled(arr, samples[k], calls[which[k]], known)
  }

  lemma TracesListed(calls: seq<TraceCall>, known: set<int>, which: seq<nat>)
    requires Lists(which, |calls|, i => 0 <= i < |calls| && DepthOf(TraceLoop, OfTrace(calls[i]), known) > 0)
    ensures Lists(which, |calls|, i => 0 <= i < |calls| && SomeKnown(calls[i], known))
  {
    forall i | 0 <= i < |calls|
      ensures DepthOf(TraceLoop, OfTrace(calls[i]), known) > 0 <==> SomeKnown(calls[i], known)
    {
      SampleIffSomeKnown(calls[i], known);
      SomeInExactly(calls[i].path, known, |calls[i].path|);
    }
  }

  lemma TraceSamplesAre(arr: seq<Ctx>, samples: seq<SampleRecord>, calls: seq<TraceCall>, known: set<int>)
    returns (which: seq<nat>)
    requires TrieOk(arr)
    requires SamplesMatch(TraceLoop, arr, samples, Sampling(TraceLoop, OfTraces(calls), known), known)
    ensures TracesSampled(arr, samples, calls, known, which)
  {
    var ps := OfTraces(calls);
    which := NamedIndices(TraceLoop, [], ps, known, |ps|);
    TracesListed(calls, known, which);
    forall k | 0 <= k < |samples|
      ensures which[k] < |calls| && TraceSampled(arr, samples[k], calls[which[k]], known)
    {
      assert IsSampleOf(TraceLoop, arr, samples[k], Sampling(TraceLoop, ps, known)[k], known);
      TraceSampleIs(arr, samples[k], calls[which[k]], known);
    }
  }

  /**
   Memory samples, from call paths to the access profile, and cache misses likewise: one
   sample for each path with a known method, at the context of the run heads down to the
   last known one.
   */
  method ProfileTraces(trie: ContextArray, calls: seq<TraceCall>, known: set<int>) returns (profile: Profile, ok: bool)
    requires TrieOk(trie.contexts) && TracesPrint(calls)
    modifies trie
    ensures var ps := OfTraces(calls);
            && (ok <==> NoCallRaises(TraceLoop, ps, known, |ps|))
            && (ok ==> TrieOk(trie.contexts) && RecordsOk(TraceLoop, trie.contexts, profile.View()))
            && (ok ==> SamplesMatch(TraceLoop, trie.contexts, profile.samples, Sampling(TraceLoop, ps, known), known))
    ensures ok ==> exists which :: TracesSampled(trie.contexts, profile.samples, calls, known, which)
  {
    TracesArePlain(calls);
    var out := new Output();
    PrintTraces(calls, out);
    profile, ok := ExportPrintout(TraceLoop, trie, out.text, known, OfTraces(calls));
    if ok {
      ghost var which := TraceSamplesAre(trie.contexts, profile.samples, calls, known);
    }
  }

  // ----- Allocations -----

  /** An allocation: the stack, innermost frame first, the method left out of it, and the counter. */
  datatype AllocCall = AllocCall(stack: seq<PathFrame>, skipped: nat, counter: nat)

  function OfAlloc(c: AllocCall): Printed {
    Printed(AllocFrames(c.stack, c.skipped), ToInt64(c.counter))
  }

  function OfAllocs(calls: seq<AllocCall>): seq<Printed> {
    seq(|calls|, i requires 0 <= i < |calls| => OfAlloc(calls[i]))
  }

  /** A counter is printed as a number that exports exactly when it is below 2^63. */
  lemma AllocCounterFits(counter: nat)
    ensures FitsUint64(ToInt64(counter)) <==> counter % TWO_64 < TWO_63
  {
  }

  ghost predicate AllocsPrint(calls: seq<AllocCall>) {
    forall i {:trigger AllPlain(calls[i].stack)} :: 0 <= i < |calls| ==>
      AllPlain(calls[i].stack) && AllShort(calls[i].stack)
  }

  method PrintAllocs(calls: seq<AllocCall>, out: Output)
    requires AllocsPrint(calls)
    modifies out
    ensures out.text == Printout(old(out.text), OfAllocs(calls), |calls|)
  {
    ghost var start, ps := out.text, OfAllocs(calls);
    for n := 0 to |calls|
      invariant out.text == Printout(start, ps, n)
    {
      assert AllPlain(calls[n].stack);
      assert ps[n] == OfAlloc(calls[n]);
      PrintAlloc(calls[n].stack, calls[n].skipped, calls[n].counter, out);
    }
  }

  lemma AllocsArePlain(calls: seq<AllocCall>)
    requires AllocsPrint(calls)
    ensures PrintedPlain(OfAllocs(calls))
  {
    var ps := OfAllocs(calls);
    forall i {:trigger FramesPlain(ps[i])} | 0 <= i < |ps|
      ensures FramesPlain(ps[i])
    {
      assert AllPlain(calls[i].stack);
      OutermostArePlain(calls[i].stack, calls[i].skipped, 0);
    }
  }

  /** Some frame is printed of the stack, and every one that is has a known method. */
  ghost predicate StackKnown(c: AllocCall, known: set<int>) {
    && (exists i :: 0 <= i < |c.stack| && c.stack[i].methodId != c.skipped)
    && (forall i :: 0 <= i < |c.stack| && c.stack[i].methodId != c.skipped ==> IsIn(c.stack[i], known))
  }

  /**
   The sample of an allocation: at the context whose frames are all of the stack from the outermost
   in, but for the method left out; with the counter as a signed number of 64 bits.
   */
  ghost predicate AllocSampled(arr: seq<Ctx>, s: SampleRecord, c: AllocCall)
    requires TrieOk(arr)
  {
    exists at :: && StackIndices(c.stack, c.skipped, at) && ContextIs(arr, s.contextId, c.stack, at, |at|)
                 && s.metric == ToInt64(c.counter)
  }

  lemma AllocHasSample(c: AllocCall, known: set<int>)
    ensures DepthOf(AllocLoop, OfAlloc(c), known) > 0 <==> StackKnown(c, known)
    ensures DepthOf(AllocLoop, OfAlloc(c), known) > 0 ==>
              DepthOf(AllocLoop, OfAlloc(c), known) == |AllocFrames(c.stack, c.skipped)|
  {
    var frames := AllocFrames(c.stack, c.skipped);
    var at := AllocFramesExactly(c.stack, c.skipped);
    if StackKnown(c, known) {
      var i :| 0 <= i < |c.stack| && c.stack[i].methodId != c.skipped;
      assert i in at;
      forall j | 0 <= j < |frames|
        ensures IsIn(frames[j], known)
      {
        assert frames[j] == c.stack[at[j]];
      }
    }
    if frames != [] && AllIn(frames, known, |frames|) {
      assert c.stack[at[0]].methodId != c.skipped;
      forall i | 0 <= i < |c.stack| && c.stack[i].methodId != c.skipped
        ensures IsIn(c.stack[i], known)
      {
        var j :| 0 <= j < |at| && at[j] == i;
        assert IsIn(frames[j], known);
      }
    }
  }

  lemma AllocSampleIs(arr: seq<Ctx>, s: SampleRecord, c: AllocCall, known: set<int>)
    requires TrieOk(arr) && IsSampleOf(AllocLoop, arr, s, OfAlloc(c), known)
    requires DepthOf(AllocLoop, OfAlloc(c), known) > 0
    ensures AllocSampled(arr, s, c)
  {
    var at := AllocFramesExactly(c.stack, c.skipped);
    AllocHasSample(c, known);
    ContextOfPrinted(arr, s.contextId, c.stack, at, AllocFrames(c.stack, c.skipped), |at|);
  }

  /** One sample for each stack with all methods known, in order, and the right one. */
  ghost predicate AllocsSampled(arr: seq<Ctx>, samples: seq<SampleRecord>, calls: seq<AllocCall>, known: set<int>,
                                which: seq<nat>)
    requires TrieOk(arr)
  {
    && |which| == |samples| && Lists(which, |calls|, i => 0 <= i < |calls| && StackKnown(calls[i], known))
    && forall k :: 0 <= k < |samples| ==> which[k] < |calls| && AllocSampled(arr, samples[k], calls[which[k]])
  }

  lemma AllocsListed(calls: seq<AllocCall>, known: set<int>, which: seq<nat>)
    requires Lists(which, |calls|, i => 0 <= i < |calls| && DepthOf(AllocLoop, OfAlloc(calls[i]), known) > 0)
    ensures Lists(which, |calls|, i => 0 <= i < |calls| && StackKnown(calls[i], known))
  {
    forall i | 0 <= i < |calls|
      ensures DepthOf(AllocLoop, OfAlloc(calls[i]), known) > 0 <==> StackKnown(calls[i], known)
    {
      AllocHasSample(calls[i], known);
    }
  }

  lemma AllocSamplesAre(arr: seq<Ctx>, samples: seq<SampleRecord>, calls: seq<AllocCall>, known: set<int>)
    returns (which: seq<nat>)
    requires TrieOk(arr)
    requires SamplesMatch(AllocLoop, arr, samples, Sampling(AllocLoop, OfAllocs(calls), known), known)
    ensures AllocsSampled(arr, samples, calls, known, which)
  {
    var ps := OfAllocs(calls);
    which := NamedIndices(AllocLoop, [], ps, known, |ps|);
    AllocsListed(calls, known, which);
    forall k | 0 <= k < |samples|
      ensures which[k] < |calls| && AllocSampled(arr, samples[k], calls[which[k]])
    {
      assert IsSampleOf(AllocLoop, arr, samples[k], Sampling(AllocLoop, ps, known)[k], known);
      AllocSampleIs(arr, samples[k], calls[which[k]], known);
    }
  }

  /**
   Allocations, from stacks to the alloc profile: one sample for each stack whose methods are
   all known, at the context of the whole stack; the records are a part of the trie.
   */
  method ProfileAllocs(trie: ContextArray, calls: seq<AllocCall>, known: set<int>) returns (profile: Profile, ok: bool)
    requires TrieOk(trie.contexts) && AllocsPrint(calls)
    modifies trie
    ensures var ps := OfAllocs(calls);
            && (ok <==> NoCallRaises(AllocLoop, ps, known, |ps|))
            && (ok ==> TrieOk(trie.contexts) && RecordsOk(AllocLoop, trie.contexts, profile.View()))
            && (ok ==> SamplesMatch(AllocLoop, trie.contexts, profile.samples, Sampling(AllocLoop, ps, known), known))
    ensures ok ==> exists which :: AllocsSampled(trie.contexts, profile.samples, calls, known, which)
  {
    AllocsArePlain(calls);
    var out := new Output();
    PrintAllocs(calls, out);
    profile, ok := ExportPrintout(AllocLoop, trie, out.text, known, OfAllocs(calls));
    if ok {
      ghost var which := AllocSamplesAre(trie.contexts, profile.samples, calls, known);
    }
  }
}
