/**
 The lines of a trace file: how the profiler prints a call path for a memory sample, a cache
 miss and an allocation, and how the converter reads the line back.
 */
module TraceFormat {
  import opened Wrappers
  import opened WordArithmetic
  import opened Text

  /** One entry of the call path: a method id and the text of its line-number scope. */
  datatype PathFrame = PathFrame(methodId: nat, scope: string)

  // ----- Printing -----

  function PrintFrame(f: PathFrame): string {
    f.scope + ":" + Decimal(ToInt32(f.methodId)) + " "
  }

  /** Frame `i` is printed: the first, and each whose method differs from the one before. */
  predicate IsKept(path: seq<PathFrame>, i: nat)
    requires i < |path|
  {
    i == 0 || path[i].methodId != path[i - 1].methodId
  }

  /** The printed ones of the first `n` frames. */
  function KeptOf(path: seq<PathFrame>, n: nat): seq<PathFrame>
    requires n <= |path|
  {
    if n == 0 then []
    else if IsKept(path, n - 1) then KeptOf(path, n - 1) + [path[n - 1]]
    else KeptOf(path, n - 1)
  }

  function Kept(path: seq<PathFrame>): seq<PathFrame> {
    KeptOf(path, |path|)
  }

  /** The text of the first `n` frames. */
  function PrintFirst(frames: seq<PathFrame>, n: nat): string
    requires 0 < n <= |frames|
  {
    if n == 1 then PrintFrame(frames[0]) else PrintFirst(frames, n - 1) + PrintFrame(frames[n - 1])
  }

  function NumberText(number: int): string {
    "|" + Decimal(number) + "\n"
  }

  /** A line for the frames, with a number at its end. */
  function LineText(frames: seq<PathFrame>, number: int): string
    requires frames != []
  {
    PrintFirst(frames, |frames|) + NumberText(number)
  }

  /** The text with a line added, if there are frames. */
  function WithLine(text: string, frames: seq<PathFrame>, number: int): string {
    if frames == [] then text else text + LineText(frames, number)
  }

  /** The text with the frames added one by one. */
  function WithFrames(text: string, frames: seq<PathFrame>, n: nat): string
    requires n <= |frames|
  {
    if n == 0 then text else WithFrames(text, frames, n - 1) + PrintFrame(frames[n - 1])
  }

  function WithAll(text: string, frames: seq<PathFrame>): string {
    WithFrames(text, frames, |frames|)
  }

  lemma {:induction false} WithFramesAtOnce(text: string, frames: seq<PathFrame>, n: nat)
    requires 0 < n <= |frames|
    ensures WithFrames(text, frames, n) == text + PrintFirst(frames, n)
  {
    if n == 1 {
      assert WithFrames(text, frames, 0) == text;
    } else {
      WithFramesAtOnce(text, frames, n - 1);
      Associates(text, PrintFirst(frames, n - 1), PrintFrame(frames[n - 1]));
    }
  }

  lemma Associates(a: string, b: string, c: string)
    ensures (a + b) + c == a + (b + c)
  {
  }

  /** Adding the frames and then the number adds the line. */
  lemma WithNumber(text: string, frames: seq<PathFrame>, number: int)
    requires frames != []
    ensures WithAll(text, frames) + NumberText(number) == WithLine(text, frames, number)
  {
    WithFramesAtOnce(text, frames, |frames|);
    Associates(text, PrintFirst(frames, |frames|), NumberText(number));
  }

  lemma WithOneMore(text: string, before: seq<PathFrame>, f: PathFrame)
    ensures WithAll(text, before + [f]) == WithAll(text, before) + PrintFrame(f)
  {
    WithSame(text, before, f, |before|);
  }

  lemma {:induction false} WithSame(text: string, before: seq<PathFrame>, f: PathFrame, n: nat)
    requires n <= |before|
    ensures WithFrames(text, before + [f], n) == WithFrames(text, before, n)
  {
    if n > 0 {
      WithSame(text, before, f, n - 1);
    }
  }

  /** The output stream; one call writes less than a kilobyte, as its assertion demands. */
  class Output {
    var text: string

    constructor ()
      ensures text == ""
    {
      text := "";
    }

    method Write(s: string)
      requires |s| < 1024
      modifies this
      ensures text == old(text) + s
    {
      text := text + s;
    }
  }

  ghost predicate AllShort(frames: seq<PathFrame>) {
    forall i {:trigger PrintFrame(frames[i])} :: 0 <= i < |frames| ==> |PrintFrame(frames[i])| < 1024
  }

  /** The call-path printing loops of constructContext, for memory samples and for cache misses. */
  method PrintPath(path: seq<PathFrame>, metric: nat, out: Output)
    requires AllShort(path)
    modifies out
    ensures out.text == WithLine(old(out.text), Kept(path), ToInt32(metric))
  {
    ghost var start := out.text;
    PrintFrames(path, out);
    KeptIsEmpty(path, |path|);
    if |path| >= 1 {
      NumberIsShort(ToInt32(metric));
      WithNumber(start, Kept(path), ToInt32(metric));
      out.Write(NumberText(ToInt32(metric)));
    }
  }

  method PrintFrames(path: seq<PathFrame>, out: Output)
    requires AllShort(path)
    modifies out
    ensures out.text == WithAll(old(out.text), Kept(path))
  {
    ghost var start := out.text;
    for i := 0 to |path|
      invariant out.text == WithAll(start, KeptOf(path, i))
    {
      KeptNext(start, path, i);
      if i == 0 {
        out.Write(PrintFrame(path[i]));
      } else {
        if path[i].methodId != path[i - 1].methodId {
          out.Write(PrintFrame(path[i]));
        }
      }
    }
  }

  /** The indices, in order, at which the method is another than just before. */
  ghost predicate RunIndices(path: seq<PathFrame>, at: seq<nat>) {
    && (forall j :: 0 <= j < |at| ==>
          at[j] < |path| && (at[j] == 0 || path[at[j]].methodId != path[at[j] - 1].methodId))
    && (forall i, j :: 0 <= i < j < |at| ==> at[i] < at[j])
    && (forall i :: 0 <= i < |path| && (i == 0 || path[i].methodId != path[i - 1].methodId) ==> i in at)
  }

  /** The frames printed of a path are those at these indices. */
  lemma KeptExactly(path: seq<PathFrame>) returns (at: seq<nat>)
    ensures RunIndices(path, at)
    ensures Kept(path) == seq(|at|, j requires 0 <= j < |at| && at[j] < |path| => path[at[j]])
  {
    at := KeptIndices(path, |path|);
  }

  lemma {:induction false} KeptIndices(path: seq<PathFrame>, n: nat) returns (at: seq<nat>)
    requires n <= |path|
    ensures |at| == |KeptOf(path, n)|
    ensures forall j :: 0 <= j < |at| ==> at[j] < n && IsKept(path, at[j]) && KeptOf(path, n)[j] == path[at[j]]
    ensures forall i, j :: 0 <= i < j < |at| ==> at[i] < at[j]
    ensures forall i :: 0 <= i < n && IsKept(path, i) ==> i in at
  {
    if n == 0 {
      at := [];
    } else {
      at := KeptIndices(path, n - 1);
      if IsKept(path, n - 1) {
        at := at + [n - 1];
      }
    }
  }

  lemma KeptNext(text: string, path: seq<PathFrame>, i: nat)
    requires i < |path|
    ensures var before := WithAll(text, KeptOf(path, i));
            WithAll(text, KeptOf(path, i + 1)) == if IsKept(path, i) then before + PrintFrame(path[i]) else before
  {
    WithOneMore(text, KeptOf(path, i), path[i]);
  }

  lemma {:induction false} KeptIsEmpty(path: seq<PathFrame>, n: nat)
    requires n <= |path|
    ensures KeptOf(path, n) == [] <==> n == 0
  {
    if n > 1 {
      KeptIsEmpty(path, n - 1);
    }
  }

  /**
   What the allocation callback prints of a stack whose innermost frame comes first: from
   frame |stack| - 1 down to frame `k`, without the frames of the method `skipped`.
   */
  function Outermost(stack: seq<PathFrame>, skipped: nat, k: nat): seq<PathFrame>
    requires k <= |stack|
    decreases |stack| - k
  {
    if k == |stack| then []
    else if stack[k].methodId == skipped then Outermost(stack, skipped, k + 1)
    else Outermost(stack, skipped, k + 1) + [stack[k]]
  }

  function AllocFrames(stack: seq<PathFrame>, skipped: nat): seq<PathFrame> {
    Outermost(stack, skipped, 0)
  }

  /** The stack printing loop of the allocation callback. */
  method PrintAlloc(stack: seq<PathFrame>, skipped: nat, counter: nat, out: Output)
    requires AllShort(stack)
    modifies out
    ensures out.text == WithLine(old(out.text), AllocFrames(stack, skipped), ToInt64(counter))
  {
    ghost var start := out.text;
    var inside := false;
    for k := |stack| downto 0
      invariant out.text == WithAll(start, Outermost(stack, skipped, k))
      invariant inside <==> Outermost(stack, skipped, k) != []
    {
      OutermostNext(start, stack, skipped, k);
      if stack[k].methodId != skipped {
        inside := true;
        out.Write(PrintFrame(stack[k]));
      }
    }
    if inside {
      NumberIsShort(ToInt64(counter));
      WithNumber(start, AllocFrames(stack, skipped), ToInt64(counter));
      out.Write(NumberText(ToInt64(counter)));
    }
  }

  /**
   The indices, from the outermost frame in, of all frames of a stack but those of one method.
   A stack has its innermost frame first.
   */
  ghost predicate StackIndices(stack: seq<PathFrame>, skipped: nat, at: seq<nat>) {
    && (forall j :: 0 <= j < |at| ==> at[j] < |stack| && stack[at[j]].methodId != skipped)
    && (forall i, j :: 0 <= i < j < |at| ==> at[j] < at[i])
    && (forall i :: 0 <= i < |stack| && stack[i].methodId != skipped ==> i in at)
  }

  /** The frames printed of a stack are those at these indices, none missing and none doubled. */
  lemma AllocFramesExactly(stack: seq<PathFrame>, skipped: nat) returns (at: seq<nat>)
    ensures StackIndices(stack, skipped, at)
    ensures AllocFrames(stack, skipped) == seq(|at|, j requires 0 <= j < |at| && at[j] < |stack| => stack[at[j]])
  {
    at := OutermostIndices(stack, skipped, 0);
  }

  lemma {:induction false} OutermostIndices(stack: seq<PathFrame>, skipped: nat, k: nat) returns (at: seq<nat>)
    requires k <= |stack|
    ensures |at| == |Outermost(stack, skipped, k)|
    ensures forall j :: 0 <= j < |at| ==>
              && k <= at[j] < |stack| && stack[at[j]].methodId != skipped
              && Outermost(stack, skipped, k)[j] == stack[at[j]]
    ensures forall i, j :: 0 <= i < j < |at| ==> at[j] < at[i]
    ensures forall i :: k <= i < |stack| && stack[i].methodId != skipped ==> i in at
    decreases |stack| - k
  {
    if k == |stack| {
      at := [];
    } else {
      at := OutermostIndices(stack, skipped, k + 1);
      if stack[k].methodId != skipped {
        at := at + [k];
      }
    }
  }

  lemma OutermostNext(text: string, stack: seq<PathFrame>, skipped: nat, k: nat)
    requires k < |stack|
    ensures var before, skips := WithAll(text, Outermost(stack, skipped, k + 1)), stack[k].methodId == skipped;
            && WithAll(text, Outermost(stack, skipped, k)) == (if skips then before else before + PrintFrame(stack[k]))
            && (Outermost(stack, skipped, k) == [] <==> skips && Outermost(stack, skipped, k + 1) == [])
  {
    WithOneMore(text, Outermost(stack, skipped, k + 1), stack[k]);
  }

  lemma NumberIsShort(x: int)
    requires -TWO_63 <= x < TWO_63
    ensures |NumberText(x)| < 1024
  {
    assert Power10(20) == 1_0000_0000_0000_0000_0000 by {
      assert Power10(5) == 1_0_0000;
      assert Power10(10) == 100_0000_0000;
      assert Power10(15) == 1000_0000_0000_0000;
    }
    DigitsUpTo(if x < 0 then -x else x, 20);
  }

  /** A number below 10^k has at most k digits. */
  lemma {:induction false} DigitsUpTo(n: nat, k: nat)
    requires n < Power10(k) && k > 0
    ensures |Digits(n)| <= k
    decreases k
  {
    if n >= 10 {
      DigitsUpTo(n / 10, k - 1);
    }
  }

  function Power10(k: nat): nat {
    if k == 0 then 1 else 10 * Power10(k - 1)
  }

  // ----- Runs of equal methods -----

  /** The path cut into its maximal runs of equal adjacent method ids. */
  ghost predicate AreRuns(runs: seq<seq<PathFrame>>, path: seq<PathFrame>) {
    && Concat(runs) == path
    && (forall i :: 0 <= i < |runs| ==> runs[i] != [])
    && (forall i, j :: 0 <= i < |runs| && 0 <= j < |runs[i]| ==> runs[i][j].methodId == runs[i][0].methodId)
    && (forall i :: 0 < i < |runs| ==> runs[i - 1][0].methodId != runs[i][0].methodId)
  }

  ghost function Concat(runs: seq<seq<PathFrame>>): seq<PathFrame> {
    if runs == [] then [] else Concat(runs[..|runs| - 1]) + runs[|runs| - 1]
  }

  /** `kept` is the first frame of each run. */
  ghost predicate Heads(kept: seq<PathFrame>, runs: seq<seq<PathFrame>>) {
    |kept| == |runs| && forall i :: 0 <= i < |runs| ==> runs[i] != [] && kept[i] == runs[i][0]
  }

  lemma NewRun(kept: seq<PathFrame>, runs: seq<seq<PathFrame>>, path: seq<PathFrame>, f: PathFrame)
    requires AreRuns(runs, path) && Heads(kept, runs)
    requires runs != [] ==> runs[|runs| - 1][0].methodId != f.methodId
    ensures AreRuns(runs + [[f]], path + [f]) && Heads(kept + [f], runs + [[f]])
  {
    assert (runs + [[f]])[..|runs|] == runs;
  }

  /** The last run, one frame longer. */
  ghost function Lengthened(runs: seq<seq<PathFrame>>, f: PathFrame): seq<seq<PathFrame>>
    requires runs != []
  {
    runs[|runs| - 1 := runs[|runs| - 1] + [f]]
  }

  lemma LongerRun(kept: seq<PathFrame>, runs: seq<seq<PathFrame>>, path: seq<PathFrame>, f: PathFrame)
    requires AreRuns(runs, path) && Heads(kept, runs)
    requires runs != [] && runs[|runs| - 1][0].methodId == f.methodId
    ensures AreRuns(Lengthened(runs, f), path + [f]) && Heads(kept, Lengthened(runs, f))
  {
    var last, after := |runs| - 1, Lengthened(runs, f);
    assert after[..last] == runs[..last] && after[last] == runs[last] + [f];
    var start := Concat(runs[..last]);
    assert start + (runs[last] + [f]) == start + runs[last] + [f];
    assert after[last][0] == runs[last][0];
  }

  /** What is printed is the first frame of each run, in order. */
  lemma KeptAreRunHeads(path: seq<PathFrame>) returns (runs: seq<seq<PathFrame>>)
    ensures AreRuns(runs, path) && Heads(Kept(path), runs)
  {
    runs := KeptOfAreRunHeads(path, |path|);
    assert path[..|path|] == path;
  }

  lemma {:induction false} KeptOfAreRunHeads(path: seq<PathFrame>, n: nat) returns (runs: seq<seq<PathFrame>>)
    requires n <= |path|
    ensures AreRuns(runs, path[..n]) && Heads(KeptOf(path, n), runs)
    ensures n > 0 ==> runs != [] && path[n - 1].methodId == runs[|runs| - 1][0].methodId
  {
    if n == 0 {
      return [];
    }
    var f, start := path[n - 1], path[..n - 1];
    var before := KeptOfAreRunHeads(path, n - 1);
    assert path[..n] == start + [f];
    if IsKept(path, n - 1) {
      NewRun(KeptOf(path, n - 1), before, start, f);
      runs := before + [[f]];
    } else {
      LongerRun(KeptOf(path, n - 1), before, start, f);
      runs := Lengthened(before, f);
      assert KeptOf(path, n) == KeptOf(path, n - 1);
    }
  }

  // ----- Reading -----

  /** A frame as the converter keeps it: the texts of the method id and of the line. */
  datatype TraceFrame = TraceFrame(mid: string, line: string)

  /** Skipped lines hold no " |"; Raised stands for an IndexError or a ValueError. */
  datatype LineResult = Skipped | Raised | Trace(frames: seq<TraceFrame>, metric: int)

  function ReadFrame(s: string): Option<TraceFrame> {
    var parts := Split(s, ":");
    if |parts| < 2 then None else Some(TraceFrame(parts[1], parts[0]))
  }

  /** The frames of the first `n` parts, if all of them can be read. */
  function ReadFrames(parts: seq<string>, n: nat): Option<seq<TraceFrame>>
    requires n <= |parts|
  {
    if n == 0 then Some([])
    else
      match ReadFrames(parts, n - 1)
      case None => None
      case Some(frames) =>
        match ReadFrame(parts[n - 1])
        case None => None
        case Some(f) => Some(frames + [f])
  }

  function ReadBlanked(text: string): Option<seq<TraceFrame>> {
    var parts := Split(text, " ");
    ReadFrames(parts, |parts|)
  }

  function ReadLine(line: string): LineResult {
    if Find(line, " |", 0).None? then Skipped
    else
      var temp := Split(line, " |");
      if |temp| < 2 then Raised
      else
        match ReadInt(temp[1])
        case None => Raised
        case Some(metric) =>
          match ReadBlanked(temp[0])
          case None => Raised
          case Some(frames) => Trace(frames, metric)
  }

  /** The trace-line parse of the converter's loops. */
  method ParseLine(line: string) returns (r: LineResult)
    ensures r == ReadLine(line)
  {
    if Find(line, " |", 0).None? {
      return Skipped;
    }
    var temp := Split(line, " |");
    if |temp| < 2 {
      return Raised;
    }
    var metric := ReadInt(temp[1]);
    if metric.None? {
      return Raised;
    }
    var tempTrace := Split(temp[0], " ");
    var frames := [];
    for i := 0 to |tempTrace|
      invariant ReadFrames(tempTrace, i) == Some(frames)
    {
      var frame := ReadFrame(tempTrace[i]);
      if frame.None? {
        ReadFramesStop(tempTrace, i + 1, |tempTrace|);
        return Raised;
      }
      frames := frames + [frame.value];
    }
    return Trace(frames, metric.value);
  }

  lemma {:induction false} ReadFramesStop(parts: seq<string>, i: nat, n: nat)
    requires i <= n <= |parts| && ReadFrames(parts, i).None?
    ensures ReadFrames(parts, n).None?
  {
    if i < n {
      ReadFramesStop(parts, i, n - 1);
    }
  }

  // ----- Which lines are read, and as what -----

  /** A piece of the text before the bar: a line, a colon, a method id, and perhaps more behind another colon. */
  ghost predicate IsFrame(piece: string, f: TraceFrame) {
    && Without(f.line, ':') && Without(f.mid, ':')
    && exists more :: (more == "" || more[0] == ':') && piece == f.line + ":" + (f.mid + more)
  }

  lemma ReadFrameExactly(s: string)
    ensures ReadFrame(s).None? <==> Without(s, ':')
    ensures ReadFrame(s).Some? ==> IsFrame(s, ReadFrame(s).value)
  {
    var at := FirstColon(s);
    if at < |s| {
      var rest := s[at + 1..];
      var end := FirstColon(rest);
      assert rest == rest[..end] + rest[end..];
      assert s == s[..at] + [':'] + rest;
      TwoParts(s[..at], rest[..end], rest[end..]);
    } else {
      SplitWithoutChar(s, ':');
    }
  }

  lemma TwoParts(line: string, mid: string, more: string)
    requires Without(line, ':') && Without(mid, ':') && (more == "" || more[0] == ':')
    ensures var s := line + [':'] + (mid + more);
            ReadFrame(s) == Some(TraceFrame(mid, line)) && IsFrame(s, TraceFrame(mid, line)) && !Without(s, ':')
  {
    var s := line + [':'] + (mid + more);
    SplitAtChar(line, ':', mid + more);
    FirstPart(mid, more);
    assert s == line + ":" + (mid + more) && s[|line|] == ':';
  }

  lemma {:induction false} FirstColon(s: string) returns (at: nat)
    ensures at <= |s| && Without(s[..at], ':') && (at < |s| ==> s[at] == ':')
  {
    at := 0;
    while at < |s| && s[at] != ':'
      invariant at <= |s| && Without(s[..at], ':')
    {
      at := at + 1;
    }
  }

  lemma FirstPart(a: string, tail: string)
    requires Without(a, ':') && (tail == "" || tail[0] == ':')
    ensures Split(a + tail, ":")[0] == a
  {
    if tail == "" {
      assert a + tail == a;
      SplitWithoutChar(a, ':');
    } else {
      assert a + tail == a + [':'] + tail[1..];
      SplitAtChar(a, ':', tail[1..]);
    }
  }

  /** Blank-separated pieces are read exactly when each holds a colon, and each as its frame. */
  lemma ReadBlankedExactly(pieces: seq<string>)
    requires pieces != [] && forall i :: 0 <= i < |pieces| ==> Without(pieces[i], ' ')
    ensures var r := ReadBlanked(Join(pieces, ' '));
            && (r.Some? <==> forall i :: 0 <= i < |pieces| ==> !Without(pieces[i], ':'))
            && (r.Some? ==> |r.value| == |pieces| && forall i :: 0 <= i < |pieces| ==> IsFrame(pieces[i], r.value[i]))
  {
    SplitJoin(pieces, ' ');
    ReadFramesExactly(pieces, |pieces|);
  }

  lemma {:induction false} ReadFramesExactly(pieces: seq<string>, n: nat)
    requires n <= |pieces|
    ensures FramesRead(pieces, ReadFrames(pieces, n), n)
  {
    if n > 0 {
      ReadFramesExactly(pieces, n - 1);
      ReadFrameExactly(pieces[n - 1]);
      ReadFramesNext(pieces, n - 1);
      FramesReadNext(pieces, ReadFrames(pieces, n - 1), n - 1, ReadFrame(pieces[n - 1]), ReadFrames(pieces, n));
    }
  }

  ghost predicate FramesRead(pieces: seq<string>, r: Option<seq<TraceFrame>>, n: nat)
    requires n <= |pieces|
  {
    && (r.Some? <==> forall i :: 0 <= i < n ==> !Without(pieces[i], ':'))
    && (r.Some? ==> |r.value| == n && forall i :: 0 <= i < n ==> IsFrame(pieces[i], r.value[i]))
  }

  lemma FramesReadNext(pieces: seq<string>, r: Option<seq<TraceFrame>>, n: nat, f: Option<TraceFrame>,
                       r': Option<seq<TraceFrame>>)
    requires n < |pieces| && FramesRead(pieces, r, n)
    requires (f.None? <==> Without(pieces[n], ':')) && (f.Some? ==> IsFrame(pieces[n], f.value))
    requires r' == if r.Some? && f.Some? then Some(r.value + [f.value]) else None
    ensures FramesRead(pieces, r', n + 1)
  {
  }

  lemma ReadFramesNext(pieces: seq<string>, n: nat)
    requires n < |pieces|
    ensures var r, f := ReadFrames(pieces, n), ReadFrame(pieces[n]);
            ReadFrames(pieces, n + 1) == if r.Some? && f.Some? then Some(r.value + [f.value]) else None
  {
  }

  /** Exactly the lines without a blank and a bar are skipped. */
  lemma ReadLineSkips(line: string)
    ensures ReadLine(line) == Skipped <==> forall j :: !StandsAt(line, " |", j)
  {
  }

  /** `part` is the text up to the first " |", or all of it. */
  ghost predicate UpToBar(s: string, part: string) {
    && part <= s && (forall j :: 0 <= j < |part| ==> !StandsAt(s, " |", j))
    && (|part| == |s| || StandsAt(s, " |", |part|))
  }

  /**
   Any other line is read from what is before its first bar and what is between that and the next:
   it raises exactly when the one has a piece without a colon or the other is no number.
   */
  lemma ReadLineExactly(line: string, pieces: seq<string>, number: string)
    requires pieces != [] && forall i :: 0 <= i < |pieces| ==> Without(pieces[i], ' ')
    requires var head := Join(pieces, ' ');
             UpToBar(line, head) && |head| < |line| && UpToBar(line[|head| + 2..], number)
    ensures var r := ReadLine(line);
            && (r.Raised? <==> ReadInt(number).None? || exists i :: 0 <= i < |pieces| && Without(pieces[i], ':'))
            && (!r.Raised? ==> && r.Trace? && ReadInt(number) == Some(r.metric) && |r.frames| == |pieces|
                               && forall i :: 0 <= i < |pieces| ==> IsFrame(pieces[i], r.frames[i]))
  {
    var head := Join(pieces, ' ');
    var tail := line[|head| + 2..];
    SplitAtBar(line, head);
    FirstOfSplit(tail, number);
    ReadLineOfParts(line, head, Split(tail, " |"));
    ReadBlankedExactly(pieces);
  }

  /** Two parts are all that matters of a split line. */
  lemma ReadLineOfParts(line: string, head: string, rest: seq<string>)
    requires Find(line, " |", 0).Some? && rest != [] && Split(line, " |") == [head] + rest
    ensures var metric, frames := ReadInt(rest[0]), ReadBlanked(head);
            ReadLine(line) == if metric.None? || frames.None? then Raised else Trace(frames.value, metric.value)
  {
    var temp := [head] + rest;
    assert temp[0] == head && temp[1] == rest[0];
  }

  lemma {:induction false} SplitAtBar(s: string, part: string)
    requires UpToBar(s, part) && |part| < |s|
    ensures Find(s, " |", 0) == Some(|part|) && Split(s, " |") == [part] + Split(s[|part| + 2..], " |")
  {
    SplitAt(s, " |", |part|);
    assert s[..|part|] == part;
  }

  lemma FirstOfSplit(s: string, part: string)
    requires UpToBar(s, part)
    ensures Split(s, " |")[0] == part
  {
    if |part| < |s| {
      SplitAtBar(s, part);
    } else {
      SplitNone(s, " |");
    }
  }

  // ----- The round trip -----

  /** No character that the line format uses; digits in particular. */
  predicate PlainChar(c: char) {
    c != ' ' && c != ':' && c != '|' && c != '\n' && c != '\r'
  }

  predicate PlainScope(f: PathFrame) {
    forall i :: 0 <= i < |f.scope| ==> PlainChar(f.scope[i])
  }

  predicate AllPlain(frames: seq<PathFrame>) {
    forall i {:trigger PlainScope(frames[i])} :: 0 <= i < |frames| ==> PlainScope(frames[i])
  }

  /** Nothing in the token is taken for a separator. */
  ghost predicate IsClean(token: string) {
    Without(token, ' ') && Without(token, '|') && Without(token, '\n') && Without(token, '\r')
  }

  function Token(f: PathFrame): string {
    f.scope + ":" + Decimal(ToInt32(f.methodId))
  }

  function Tokens(frames: seq<PathFrame>): seq<string> {
    seq(|frames|, i requires 0 <= i < |frames| => Token(frames[i]))
  }

  /** What the converter should make of a frame. */
  function AsRead(f: PathFrame): TraceFrame {
    TraceFrame(Decimal(ToInt32(f.methodId)), f.scope)
  }

  function AllAsRead(frames: seq<PathFrame>): seq<TraceFrame> {
    seq(|frames|, i requires 0 <= i < |frames| => AsRead(frames[i]))
  }

  lemma TokenChars(f: PathFrame)
    requires PlainScope(f)
    ensures Token(f) != "" && IsClean(Token(f))
    ensures ReadFrame(Token(f)) == Some(AsRead(f))
  {
    var number := Decimal(ToInt32(f.methodId));
    DecimalChars(ToInt32(f.methodId));
    assert Without(f.scope, ':') && Without(number, ':');
    SplitAtChar(f.scope, ':', number);
    SplitWithoutChar(number, ':');
    assert f.scope + [':'] + number == Token(f);
  }

  lemma {:induction false} JoinSnoc(parts: seq<string>, last: string, c: char)
    requires parts != []
    ensures Join(parts + [last], c) == Join(parts, c) + [c] + last
  {
    if |parts| > 1 {
      JoinSnoc(parts[1..], last, c);
      assert (parts + [last])[1..] == parts[1..] + [last];
    }
  }

  /** The printed frames are the joined tokens, and one more blank. */
  lemma {:induction false} PrintFirstIsJoin(frames: seq<PathFrame>, n: nat)
    requires 0 < n <= |frames|
    ensures PrintFirst(frames, n) == Join(Tokens(frames)[..n], ' ') + " "
  {
    if n == 1 {
      FirstToken(frames);
    } else {
      PrintFirstIsJoin(frames, n - 1);
      TokensNext(frames, n - 1);
      JoinedNext(Tokens(frames)[..n - 1], frames[n - 1]);
    }
  }

  lemma FirstToken(frames: seq<PathFrame>)
    requires frames != []
    ensures PrintFrame(frames[0]) == Join(Tokens(frames)[..1], ' ') + " "
  {
    assert Tokens(frames)[..1] == [Token(frames[0])];
  }

  lemma TokensNext(frames: seq<PathFrame>, n: nat)
    requires n < |frames|
    ensures Tokens(frames)[..n + 1] == Tokens(frames)[..n] + [Token(frames[n])]
  {
  }

  lemma JoinedNext(tokens: seq<string>, f: PathFrame)
    requires tokens != []
    ensures (Join(tokens, ' ') + " ") + PrintFrame(f) == Join(tokens + [Token(f)], ' ') + " "
  {
    JoinSnoc(tokens, Token(f), ' ');
    PrintSnoc(Join(tokens, ' '), f);
  }

  lemma PrintSnoc(start: string, f: PathFrame)
    ensures (start + " ") + PrintFrame(f) == (start + [' '] + Token(f)) + " "
  {
  }

  lemma {:induction false} JoinChars(parts: seq<string>, c: char)
    requires parts != [] && c != ' ' && forall i :: 0 <= i < |parts| ==> Without(parts[i], c)
    ensures Without(Join(parts, ' '), c)
  {
    if |parts| > 1 {
      JoinChars(parts[1..], c);
    }
  }

  lemma ReadTokens(frames: seq<PathFrame>)
    requires AllPlain(frames)
    ensures ReadFrames(Tokens(frames), |frames|) == Some(AllAsRead(frames))
  {
    var parts, read := Tokens(frames), AllAsRead(frames);
    forall i | 0 <= i < |frames|
      ensures ReadFrame(parts[i]) == Some(read[i])
    {
      assert PlainScope(frames[i]);
      TokenChars(frames[i]);
    }
    ReadParts(parts, read, |parts|);
    assert read[..|read|] == read;
  }

  lemma {:induction false} ReadParts(parts: seq<string>, read: seq<TraceFrame>, n: nat)
    requires n <= |parts| == |read|
    requires forall i {:trigger ReadFrame(parts[i])} :: 0 <= i < |parts| ==> ReadFrame(parts[i]) == Some(read[i])
    ensures ReadFrames(parts, n) == Some(read[..n])
  {
    if n > 0 {
      ReadParts(parts, read, n - 1);
      assert ReadFrame(parts[n - 1]) == Some(read[n - 1]);
      assert read[..n] == read[..n - 1] + [read[n - 1]];
    }
  }

  /** The only " |" of a printed line is the one before the metric. */
  lemma SplitPrinted(body: string, number: string)
    requires Without(body, '|') && Without(number, '|')
    ensures Split(body + " |" + number, " |") == [body, number]
    ensures Find(body + " |" + number, " |", 0).Some?
  {
    var line := body + " |" + number;
    forall j | 0 <= j < |body|
      ensures !StandsAt(line, " |", j)
    {
      NoBar(line, j);
    }
    SplitFirst(body, " |", number);
    forall j | 0 <= j < |number|
      ensures !StandsAt(number, " |", j)
    {
      NoBar(number, j);
    }
    SplitNone(number, " |");
    assert line[|body|..|body| + 2] == " |";
    assert StandsAt(line, " |", |body|);
  }

  lemma NoBar(s: string, j: nat)
    requires j + 1 < |s| ==> s[j + 1] != '|'
    ensures !StandsAt(s, " |", j)
  {
    if j + 2 <= |s| {
      assert s[j..j + 2][1] == s[j + 1];
    }
  }

  lemma {:induction false} KeptArePlain(path: seq<PathFrame>, n: nat)
    requires n <= |path| && AllPlain(path)
    ensures AllPlain(KeptOf(path, n))
  {
    if n > 0 {
      KeptArePlain(path, n - 1);
      assert PlainScope(path[n - 1]);
      PlainJoin(KeptOf(path, n - 1), path[n - 1]);
    }
  }

  lemma {:induction false} OutermostArePlain(stack: seq<PathFrame>, skipped: nat, k: nat)
    requires k <= |stack| && AllPlain(stack)
    ensures AllPlain(Outermost(stack, skipped, k))
    decreases |stack| - k
  {
    if k < |stack| {
      OutermostArePlain(stack, skipped, k + 1);
      assert PlainScope(stack[k]);
      PlainJoin(Outermost(stack, skipped, k + 1), stack[k]);
    }
  }

  lemma PlainJoin(frames: seq<PathFrame>, f: PathFrame)
    requires AllPlain(frames) && PlainScope(f)
    ensures AllPlain(frames + [f])
  {
    forall i {:trigger PlainScope((frames + [f])[i])} | 0 <= i < |frames| + 1
      ensures PlainScope((frames + [f])[i])
    {
      assert i < |frames| ==> PlainScope(frames[i]);
    }
  }

  /** Reading a line gives back its frames and its number, in every case. */
  lemma LineReadsBack(frames: seq<PathFrame>, number: int)
    requires frames != [] && AllPlain(frames)
    ensures ReadLine(LineText(frames, number)) == Trace(AllAsRead(frames), number)
  {
    var body, end := Join(Tokens(frames), ' '), Decimal(number) + "\n";
    PrintedShape(frames, number);
    ReadBody(frames);
    ReadNumber(number);
    SplitPrinted(body, end);
    ReadLineParts(body + " |" + end, body, end, AllAsRead(frames), number);
  }

  /**
   Reading a printed line gives back the path, each run of equal adjacent methods cut to its
   first frame, and the metric, ids and metric being the numbers printed.
   */
  lemma RoundTrip(path: seq<PathFrame>, metric: nat)
    requires path != [] && AllPlain(path)
    ensures Kept(path) != []
    ensures ReadLine(LineText(Kept(path), ToInt32(metric))) == Trace(AllAsRead(Kept(path)), ToInt32(metric))
  {
    KeptArePlain(path, |path|);
    KeptIsEmpty(path, |path|);
    LineReadsBack(Kept(path), ToInt32(metric));
  }

  /** An allocation line gives back the whole stack, but for the skipped method. */
  lemma AllocRoundTrip(stack: seq<PathFrame>, skipped: nat, counter: nat)
    requires AllPlain(stack) && AllocFrames(stack, skipped) != []
    ensures ReadLine(LineText(AllocFrames(stack, skipped), ToInt64(counter))) ==
            Trace(AllAsRead(AllocFrames(stack, skipped)), ToInt64(counter))
  {
    OutermostArePlain(stack, skipped, 0);
    LineReadsBack(AllocFrames(stack, skipped), ToInt64(counter));
  }

  lemma ReadBody(frames: seq<PathFrame>)
    requires frames != [] && AllPlain(frames)
    ensures Without(Join(Tokens(frames), ' '), '|')
    ensures ReadBlanked(Join(Tokens(frames), ' ')) == Some(AllAsRead(frames))
  {
    TokensAreClean(frames);
    JoinChars(Tokens(frames), '|');
    SplitJoin(Tokens(frames), ' ');
    ReadTokens(frames);
  }

  lemma ReadNumber(number: int)
    ensures Without(Decimal(number) + "\n", '|')
    ensures ReadInt(Decimal(number) + "\n") == Some(number)
  {
    DecimalChars(number);
    ReadIntOfDecimal(number);
  }

  lemma ReadLineParts(line: string, body: string, number: string, frames: seq<TraceFrame>, metric: int)
    requires Find(line, " |", 0).Some? && Split(line, " |") == [body, number]
    requires ReadInt(number) == Some(metric) && ReadBlanked(body) == Some(frames)
    ensures ReadLine(line) == Trace(frames, metric)
  {
  }

  lemma PrintedShape(frames: seq<PathFrame>, number: int)
    requires frames != []
    ensures LineText(frames, number) == Join(Tokens(frames), ' ') + " |" + (Decimal(number) + "\n")
  {
    PrintFirstIsJoin(frames, |frames|);
    assert Tokens(frames)[..|frames|] == Tokens(frames);
    BarAfterBlank(Join(Tokens(frames), ' '), Decimal(number));
  }

  lemma BarAfterBlank(body: string, number: string)
    ensures (body + " ") + ("|" + number + "\n") == body + " |" + (number + "\n")
  {
  }

  lemma TokensAreClean(frames: seq<PathFrame>)
    requires AllPlain(frames)
    ensures forall i :: 0 <= i < |frames| ==> IsClean(Tokens(frames)[i])
  {
    forall i | 0 <= i < |frames|
      ensures IsClean(Tokens(frames)[i])
    {
      assert PlainScope(frames[i]);
      TokenChars(frames[i]);
    }
  }

  /** What is printed for some frames is one line of text. */
  lemma PrintedIsLine(frames: seq<PathFrame>, number: int) returns (line: string)
    requires frames != [] && AllPlain(frames)
    ensures LineText(frames, number) == line + "\n" && Without(line, '\n') && Without(line, '\r')
  {
    var body, end := Join(Tokens(frames), ' '), Decimal(number);
    line := body + " |" + end;
    PrintedShape(frames, number);
    TokensAreClean(frames);
    JoinChars(Tokens(frames), '\n');
    JoinChars(Tokens(frames), '\r');
    DecimalChars(number);
    LineEndOutside(body, end);
  }

  lemma LineEndOutside(body: string, number: string)
    ensures body + " |" + (number + "\n") == (body + " |" + number) + "\n"
  {
  }

  /** Two methods have the same printed id exactly when the low 32 bits of their ids agree. */
  lemma PrintedIdsEqual(f: PathFrame, g: PathFrame)
    ensures AsRead(f).mid == AsRead(g).mid <==> f.methodId % TWO_32 == g.methodId % TWO_32
  {
    IdReadsBack(f);
    IdReadsBack(g);
    SameInt32(f.methodId, g.methodId);
  }

  /** The text kept for a method id reads as the number that was printed for it. */
  lemma IdReadsBack(f: PathFrame)
    ensures ReadInt(AsRead(f).mid) == Some(ToInt32(f.methodId))
    ensures ReadInt(AsRead(f).mid).value % TWO_32 == f.methodId % TWO_32
    ensures -TWO_31 <= ReadInt(AsRead(f).mid).value < TWO_31
  {
    Int32Remainder(f.methodId);
    ReadIntOfDecimal(ToInt32(f.methodId));
  }
}
