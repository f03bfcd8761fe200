/** Strings as the two programs handle them: printing numbers, splitting, and reading numbers. */
module Text {
  import opened Wrappers

  // ----- Searching and splitting -----

  /** `sep` stands at position `i`. */
  predicate StandsAt(s: string, sep: string, i: nat) {
    i + |sep| <= |s| && s[i..i + |sep|] == sep
  }

  /** The first position from `i` on where `sep` stands. */
  function Find(s: string, sep: string, i: nat): (at: Option<nat>)
    ensures at.Some? ==> i <= at.value && StandsAt(s, sep, at.value)
    ensures match at
            case Some(k) => forall j :: i <= j < k ==> !StandsAt(s, sep, j)
            case None => forall j :: i <= j ==> !StandsAt(s, sep, j)
    decreases |s| - i
  {
    if |s| < i + |sep| then None
    else if StandsAt(s, sep, i) then Some(i)
    else if i == |s| then None
    else Find(s, sep, i + 1)
  }

  /** str.split with a separator. */
  function Split(s: string, sep: string): (parts: seq<string>)
    requires sep != ""
    ensures parts != []
    decreases |s|
  {
    match Find(s, sep, 0)
    case None => [s]
    case Some(i) => [s[..i]] + Split(s[i + |sep|..], sep)
  }

  lemma SplitFirst(a: string, sep: string, b: string)
    requires sep != ""
    requires forall j :: 0 <= j < |a| ==> !StandsAt(a + sep + b, sep, j)
    ensures Split(a + sep + b, sep) == [a] + Split(b, sep)
  {
    var s := a + sep + b;
    assert s[|a|..|a| + |sep|] == sep;
    assert StandsAt(s, sep, |a|);
    assert Find(s, sep, 0) == Some(|a|);
    assert s[..|a|] == a && s[|a| + |sep|..] == b;
  }

  lemma {:induction false} SplitAt(s: string, sep: string, k: nat)
    requires sep != "" && StandsAt(s, sep, k) && forall j :: 0 <= j < k ==> !StandsAt(s, sep, j)
    ensures Find(s, sep, 0) == Some(k) && Split(s, sep) == [s[..k]] + Split(s[k + |sep|..], sep)
  {
  }

  lemma SplitNone(s: string, sep: string)
    requires sep != "" && forall j :: 0 <= j < |s| ==> !StandsAt(s, sep, j)
    ensures Split(s, sep) == [s]
  {
    assert Find(s, sep, 0).None?;
  }

  /** The character does not occur. */
  ghost predicate Without(s: string, c: char) {
    forall i :: 0 <= i < |s| ==> s[i] != c
  }

  lemma CharStandsAt(s: string, c: char, j: nat)
    ensures StandsAt(s, [c], j) <==> j < |s| && s[j] == c
  {
    if j < |s| {
      assert s[j..j + 1] == [s[j]];
    }
  }

  lemma SplitAtChar(a: string, c: char, b: string)
    requires Without(a, c)
    ensures Split(a + [c] + b, [c]) == [a] + Split(b, [c])
  {
    forall j | 0 <= j < |a|
      ensures !StandsAt(a + [c] + b, [c], j)
    {
      CharStandsAt(a + [c] + b, c, j);
    }
    SplitFirst(a, [c], b);
  }

  lemma SplitWithoutChar(s: string, c: char)
    requires Without(s, c)
    ensures Split(s, [c]) == [s]
  {
    forall j | 0 <= j < |s|
      ensures !StandsAt(s, [c], j)
    {
      CharStandsAt(s, c, j);
    }
    SplitNone(s, [c]);
  }

  function Join(parts: seq<string>, c: char): string {
    if parts == [] then ""
    else if |parts| == 1 then parts[0]
    else parts[0] + [c] + Join(parts[1..], c)
  }

  /** Splitting undoes joining when no part holds the separator. */
  lemma {:induction false} SplitJoin(parts: seq<string>, c: char)
    requires parts != [] && forall i :: 0 <= i < |parts| ==> Without(parts[i], c)
    ensures Split(Join(parts, c), [c]) == parts
  {
    if |parts| == 1 {
      SplitWithoutChar(parts[0], c);
    } else {
      SplitJoin(parts[1..], c);
      SplitAtChar(parts[0], c, Join(parts[1..], c));
      assert parts == [parts[0]] + parts[1..];
    }
  }

  /** No part of a split holds the separator. */
  lemma {:induction false} SplitPartsWithout(s: string, c: char)
    ensures forall i :: 0 <= i < |Split(s, [c])| ==> Without(Split(s, [c])[i], c)
    decreases |s|
  {
    forall j | 0 <= j < |s|
      ensures StandsAt(s, [c], j) <==> s[j] == c
    {
      CharStandsAt(s, c, j);
    }
    var at := Find(s, [c], 0);
    if at.Some? {
      SplitPartsWithout(s[at.value + 1..], c);
      assert Without(s[..at.value], c);
    } else {
      assert Without(s, c);
    }
  }

  // ----- Lines of a file -----

  /**
   The pieces that iterating over a text file gives: lines with their line ends. Reading in
   text mode turns "\r\n" and "\r" into "\n" first.
   */
  function FileLines(s: string): seq<string> {
    FileLinesFrom(Universal(s, |s|), 0)
  }

  /** The first `n` characters of `s`, with one kind of line end. */
  function Universal(s: string, n: nat): string
    requires n <= |s|
  {
    if n == 0 then ""
    else if s[n - 1] == '\r' then Universal(s, n - 1) + "\n"
    else if s[n - 1] == '\n' && n > 1 && s[n - 2] == '\r' then Universal(s, n - 1)
    else Universal(s, n - 1) + [s[n - 1]]
  }

  lemma {:induction false} UniversalSame(s: string, n: nat)
    requires n <= |s| && Without(s, '\r')
    ensures Universal(s, n) == s[..n]
  {
    if n > 0 {
      UniversalSame(s, n - 1);
      assert s[..n] == s[..n - 1] + [s[n - 1]];
    }
  }

  function FileLinesFrom(s: string, i: nat): seq<string>
    requires i <= |s|
    decreases |s| - i
  {
    if i == |s| then []
    else
      var k := LineEnd(s, i);
      if |s| <= k + 1 then [s[i..]] else [s[i..k + 1]] + FileLinesFrom(s, k + 1)
  }

  /** The next line end, or the end of the text. */
  function LineEnd(s: string, i: nat): (k: nat)
    requires i <= |s|
    ensures i <= k <= |s| && (k < |s| ==> s[k] == '\n')
    ensures forall j :: i <= j < k ==> s[j] != '\n'
    decreases |s| - i
  {
    if i == |s| || s[i] == '\n' then i else LineEnd(s, i + 1)
  }

  /** Nothing is written, or the last line is complete; and no carriage return is there. */
  ghost predicate EndsInLine(s: string) {
    (s == "" || s[|s| - 1] == '\n') && Without(s, '\r')
  }

  /** `more` is `lines` and then `last`. */
  ghost predicate OneMoreLine(lines: seq<string>, more: seq<string>, last: string) {
    && |more| == |lines| + 1 && more[|lines|] == last
    && forall i :: 0 <= i < |lines| ==> more[i] == lines[i]
  }

  /** A line that is added to complete lines is read as one more line. */
  lemma FileLinesSnoc(s: string, line: string)
    requires EndsInLine(s) && Without(line, '\n') && Without(line, '\r')
    ensures OneMoreLine(FileLines(s), FileLines(s + (line + "\n")), line + "\n")
    ensures EndsInLine(s + (line + "\n"))
  {
    var last := line + "\n";
    var all := s + last;
    OneLineEnd(line);
    WithoutJoin(s, last, '\r');
    assert all[|all| - 1] == last[|last| - 1] == '\n';
    UniversalWhole(s);
    UniversalWhole(all);
    LastLine(s, last);
    LinesBeforeLast(s, all, last, 0);
  }

  lemma OneLineEnd(line: string)
    requires Without(line, '\n') && Without(line, '\r')
    ensures var last := line + "\n"; IsOneLine(last) && Without(last, '\r')
  {
    var last := line + "\n";
    assert last[|line|] == '\n';
  }

  ghost predicate IsOneLine(last: string) {
    last != "" && last[|last| - 1] == '\n' && forall j :: 0 <= j < |last| - 1 ==> last[j] != '\n'
  }

  lemma WithoutJoin(s: string, t: string, c: char)
    requires Without(s, c) && Without(t, c)
    ensures Without(s + t, c)
  {
  }

  lemma UniversalWhole(s: string)
    requires Without(s, '\r')
    ensures FileLines(s) == FileLinesFrom(s, 0)
  {
    UniversalSame(s, |s|);
    assert s[..|s|] == s;
  }

  lemma LastLine(s: string, last: string)
    requires IsOneLine(last)
    ensures FileLinesFrom(s + last, |s|) == [last]
  {
    LastLineEnd(s, last);
    assert (s + last)[|s|..] == last;
  }

  lemma LastLineEnd(s: string, last: string)
    requires IsOneLine(last)
    ensures LineEnd(s + last, |s|) == |s| + |last| - 1
  {
    var all := s + last;
    assert all[|all| - 1] == last[|last| - 1];
    forall j | |s| <= j < |all| - 1
      ensures all[j] != '\n'
    {
      assert all[j] == last[j - |s|];
    }
  }

  lemma {:induction false} LinesBeforeLast(s: string, all: string, last: string, i: nat)
    requires EndsInLine(s) && i <= |s| && s < all && FileLinesFrom(all, |s|) == [last]
    ensures OneMoreLine(FileLinesFrom(s, i), FileLinesFrom(all, i), last)
    decreases |s| - i
  {
    if i < |s| {
      var k := LineEnd(s, i);
      LineEndBefore(s, all, i);
      LinesBeforeLast(s, all, last, k + 1);
      LinesBefore(s, all, last, i, k);
    }
  }

  lemma LinesBefore(s: string, all: string, last: string, i: nat, k: nat)
    requires i <= k < |s| < |all| && LineEnd(s, i) == LineEnd(all, i) == k && s[i..k + 1] == all[i..k + 1]
    requires OneMoreLine(FileLinesFrom(s, k + 1), FileLinesFrom(all, k + 1), last)
    ensures OneMoreLine(FileLinesFrom(s, i), FileLinesFrom(all, i), last)
  {
    FirstLine(s, i, k);
    FirstLine(all, i, k);
    OneMoreBehind(FileLinesFrom(s, k + 1), FileLinesFrom(all, k + 1), FileLinesFrom(s, i), FileLinesFrom(all, i), last);
  }

  /** `lines` is `rest` behind one more line. */
  ghost predicate Behind(lines: seq<string>, rest: seq<string>) {
    |lines| == 1 + |rest| && forall j :: 0 <= j < |rest| ==> lines[1 + j] == rest[j]
  }

  lemma OneMoreBehind(rest: seq<string>, rest': seq<string>, lines: seq<string>, lines': seq<string>, last: string)
    requires OneMoreLine(rest, rest', last) && Behind(lines, rest) && Behind(lines', rest') && lines[0] == lines'[0]
    ensures OneMoreLine(lines, lines', last)
  {
    forall i | 0 <= i < |lines|
      ensures lines'[i] == lines[i]
    {
      if i > 0 {
        assert lines[1 + (i - 1)] == rest[i - 1] && lines'[1 + (i - 1)] == rest'[i - 1];
      }
    }
    assert lines'[1 + |rest|] == rest'[|rest|];
  }

  /** The line from `i` to the line end at `k`, and the others. */
  lemma FirstLine(s: string, i: nat, k: nat)
    requires i <= k < |s| && LineEnd(s, i) == k
    ensures Behind(FileLinesFrom(s, i), FileLinesFrom(s, k + 1)) && FileLinesFrom(s, i)[0] == s[i..k + 1]
  {
    if k + 1 == |s| {
      assert s[i..] == s[i..k + 1];
    } else {
      FirstOfMore(s, i, k);
      BehindFirst(s[i..k + 1], FileLinesFrom(s, k + 1));
    }
  }

  lemma FirstOfMore(s: string, i: nat, k: nat)
    requires i <= k < |s| - 1 && LineEnd(s, i) == k
    ensures FileLinesFrom(s, i) == [s[i..k + 1]] + FileLinesFrom(s, k + 1)
  {
  }

  lemma BehindFirst(first: string, rest: seq<string>)
    ensures Behind([first] + rest, rest) && ([first] + rest)[0] == first
  {
  }

  lemma LineEndBefore(s: string, all: string, i: nat)
    requires EndsInLine(s) && i < |s| && s <= all
    ensures var k := LineEnd(s, i);
            k < |s| && LineEnd(all, i) == k && all[i..k + 1] == s[i..k + 1]
  {
    var k := LineEnd(s, i);
    assert k < |s|;
    assert all[k] == '\n' && forall j :: i <= j < k ==> all[j] == s[j];
  }

  // ----- Numbers -----

  function DigitChar(d: nat): char
    requires d < 10
  {
    ('0' as int + d) as char
  }

  predicate IsDigit(c: char) {
    '0' <= c <= '9'
  }

  function Digits(n: nat): (s: string)
    ensures s != ""
  {
    if n < 10 then [DigitChar(n)] else Digits(n / 10) + [DigitChar(n % 10)]
  }

  /** %d, and str of an int. */
  function Decimal(x: int): string {
    if x < 0 then "-" + Digits(-x) else Digits(x)
  }

  /** The number written in s[i..j], if there is something and nothing but digits. */
  function ReadDigits(s: string, i: nat, j: nat): Option<nat>
    requires i <= j <= |s|
    decreases j - i
  {
    if i == j || !IsDigit(s[j - 1]) then None
    else
      var d := s[j - 1] as int - '0' as int;
      if i + 1 == j then Some(d)
      else
        match ReadDigits(s, i, j - 1)
        case None => None
        case Some(n) => Some(10 * n + d)
  }

  predicate IsSpace(c: char) {
    c == ' ' || '\t' <= c <= '\r'
  }

  /** Past the leading white space of s[i..]. */
  function SkipSpace(s: string, i: nat): (k: nat)
    requires i <= |s|
    ensures i <= k <= |s|
    decreases |s| - i
  {
    if i < |s| && IsSpace(s[i]) then SkipSpace(s, i + 1) else i
  }

  /** Before the trailing white space of s[i..j]. */
  function DropSpace(s: string, i: nat, j: nat): (k: nat)
    requires i <= j <= |s|
    ensures i <= k <= j
    decreases j
  {
    if i < j && IsSpace(s[j - 1]) then DropSpace(s, i, j - 1) else j
  }

  /** int of a string: white space around, a sign, digits. None where Python raises ValueError. */
  function ReadInt(s: string): Option<int> {
    var i := SkipSpace(s, 0);
    var j := DropSpace(s, i, |s|);
    if i == j then None
    else if s[i] == '-' then
      match ReadDigits(s, i + 1, j)
      case None => None
      case Some(n) => var m: int := n; Some(-m)
    else
      match ReadDigits(s, if s[i] == '+' then i + 1 else i, j)
      case None => None
      case Some(n) => Some(n)
  }

  lemma {:induction false} ReadDigitsOf(s: string, i: nat, n: nat, j: nat)
    requires i <= j <= |s| && s[i..j] == Digits(n)
    ensures ReadDigits(s, i, j) == Some(n)
    decreases n
  {
    if n >= 10 {
      var t := Digits(n / 10);
      assert s[i..j] == t + [DigitChar(n % 10)];
      LastOff(s, i, j, t, DigitChar(n % 10));
      ReadDigitsOf(s, i, n / 10, j - 1);
    } else {
      assert s[i..j][0] == DigitChar(n);
    }
  }

  lemma LastOff(s: string, i: nat, j: nat, t: string, c: char)
    requires i <= j <= |s| && s[i..j] == t + [c]
    ensures i < j && s[j - 1] == c && s[i..j - 1] == t
  {
    assert s[i..j][|t|] == c;
    assert s[i..j][..|t|] == t;
  }

  lemma {:induction false} AllDigitsRead(s: string, i: nat, j: nat)
    requires i < j <= |s| && forall k :: i <= k < j ==> IsDigit(s[k])
    ensures ReadDigits(s, i, j).Some?
    decreases j - i
  {
    if i + 1 < j {
      AllDigitsRead(s, i, j - 1);
    }
  }

  lemma ReadIntOfDigits(s: string)
    requires s != "" && forall i :: 0 <= i < |s| ==> IsDigit(s[i])
    ensures ReadInt(s).Some?
  {
    AllDigitsRead(s, 0, |s|);
    assert SkipSpace(s, 0) == 0 && DropSpace(s, 0, |s|) == |s|;
  }

  ghost predicate AllDigits(s: string) {
    forall i :: 0 <= i < |s| ==> IsDigit(s[i])
  }

  lemma {:induction false} DigitsAreDigits(n: nat)
    ensures AllDigits(Digits(n))
  {
    if n >= 10 {
      DigitsAreDigits(n / 10);
    }
  }

  lemma DecimalChars(x: int)
    ensures Decimal(x) != ""
    ensures forall i :: 0 <= i < |Decimal(x)| ==> IsDigit(Decimal(x)[i]) || Decimal(x)[i] == '-'
  {
    DigitsAreDigits(if x < 0 then -x else x);
  }

  /** Reading a printed number gives the number, with or without the end of the line after it. */
  lemma ReadIntOfDecimal(x: int)
    ensures ReadInt(Decimal(x)) == Some(x)
    ensures ReadInt(Decimal(x) + "\n") == Some(x)
  {
    ReadIntWithEnd(x, Decimal(x));
    ReadIntWithEnd(x, Decimal(x) + "\n");
  }

  lemma ReadIntWithEnd(x: int, s: string)
    requires var n := |Decimal(x)|; n <= |s| <= n + 1 && s[..n] == Decimal(x) && (n < |s| ==> s[n] == '\n')
    ensures ReadInt(s) == Some(x)
  {
    var d := Decimal(x);
    DecimalChars(x);
    assert s[0] == d[0] && s[|d| - 1] == d[|d| - 1];
    assert SkipSpace(s, 0) == 0;
    assert DropSpace(s, 0, |s|) == |d| by {
      assert DropSpace(s, 0, |d|) == |d|;
    }
    if x < 0 {
      assert s[1..|d|] == Digits(-x);
      ReadDigitsOf(s, 1, -x, |d|);
    } else {
      DigitsAreDigits(x);
      assert s[0..|d|] == Digits(x) && IsDigit(d[0]);
      ReadDigitsOf(s, 0, x, |d|);
    }
  }

  /** A number is printed without leading zeros. */
  lemma DecimalIsPlain(x: int)
    ensures x >= 0 ==> AllDigits(Decimal(x)) && (Decimal(x)[0] == '0' ==> Decimal(x) == "0")
    ensures x < 0 ==> Decimal(x) == "-" + Decimal(-x) && Decimal(-x)[0] != '0'
  {
    var n: nat := if x < 0 then -x else x;
    DigitsAreDigits(n);
    FirstDigit(n);
  }

  lemma {:induction false} FirstDigit(n: nat)
    ensures Digits(n)[0] == '0' <==> n == 0
    ensures n == 0 ==> Digits(n) == "0"
  {
    if n >= 10 {
      FirstDigit(n / 10);
    }
  }

  // ----- Which texts are numbers -----

  /** White space, perhaps a sign before `k`, digits from `k` to `j`, white space. */
  ghost predicate IsNumber(s: string, i: nat, k: nat, j: nat) {
    && i <= k < j <= |s|
    && (k == i || (k == i + 1 && (s[i] == '+' || s[i] == '-')))
    && (forall p :: 0 <= p < i || j <= p < |s| ==> s[p] == ' ' || '\t' <= s[p] <= '\r')
    && (forall p :: k <= p < j ==> '0' <= s[p] <= '9')
  }

  /** The number that the digits from `k` to `j` stand for. */
  function Numeral(s: string, k: nat, j: nat): nat
    requires k <= j <= |s| && forall p :: k <= p < j ==> IsDigit(s[p])
  {
    if k == j then 0
    else
      assert IsDigit(s[j - 1]);
      10 * Numeral(s, k, j - 1) + (s[j - 1] as int - '0' as int)
  }

  function SignedNumeral(s: string, i: nat, k: nat, j: nat): int
    requires i <= k <= j <= |s| && k < |s| && forall p :: k <= p < j ==> IsDigit(s[p])
  {
    var n: int := Numeral(s, k, j);
    if i < k && s[i] == '-' then -n else n
  }

  /** Exactly these texts are read, and as that number. */
  lemma ReadIntExactly(s: string)
    ensures ReadInt(s).Some? <==> exists i, k, j :: IsNumber(s, i, k, j)
    ensures forall i, k, j :: IsNumber(s, i, k, j) ==> ReadInt(s) == Some(SignedNumeral(s, i, k, j))
  {
    forall i, k, j | IsNumber(s, i, k, j)
      ensures ReadInt(s) == Some(SignedNumeral(s, i, k, j))
    {
      NumberIsRead(s, i, k, j);
    }
    if ReadInt(s).Some? {
      ReadIsNumber(s);
    }
  }

  lemma NumberIsRead(s: string, i: nat, k: nat, j: nat)
    requires IsNumber(s, i, k, j)
    ensures ReadInt(s) == Some(SignedNumeral(s, i, k, j))
  {
    SkipsTo(s, 0, i);
    DropsTo(s, i, j, |s|);
    DigitsRead(s, k, j);
  }

  lemma {:induction false} SkipsTo(s: string, p: nat, i: nat)
    requires p <= i < |s| && !IsSpace(s[i]) && forall q :: p <= q < i ==> IsSpace(s[q])
    ensures SkipSpace(s, p) == i
    decreases i - p
  {
    if p < i {
      SkipsTo(s, p + 1, i);
    }
  }

  lemma {:induction false} DropsTo(s: string, i: nat, j: nat, p: nat)
    requires i < j <= p <= |s| && !IsSpace(s[j - 1]) && forall q :: j <= q < p ==> IsSpace(s[q])
    ensures DropSpace(s, i, p) == j
  {
    if j < p {
      DropsTo(s, i, j, p - 1);
    }
  }

  lemma {:induction false} DigitsRead(s: string, k: nat, j: nat)
    requires k < j <= |s| && forall p :: k <= p < j ==> IsDigit(s[p])
    ensures ReadDigits(s, k, j) == Some(Numeral(s, k, j))
    decreases j
  {
    if k + 1 < j {
      DigitsRead(s, k, j - 1);
    } else {
      assert Numeral(s, k, k) == 0;
    }
  }

  lemma ReadIsNumber(s: string)
    requires ReadInt(s).Some?
    ensures exists i, k, j :: IsNumber(s, i, k, j)
  {
    var i := SkipSpace(s, 0);
    var j := DropSpace(s, i, |s|);
    var k := if s[i] == '-' || s[i] == '+' then i + 1 else i;
    Skipped(s, 0);
    Dropped(s, i, |s|);
    ReadAreDigits(s, k, j);
    assert IsNumber(s, i, k, j);
  }

  lemma {:induction false} Skipped(s: string, p: nat)
    requires p <= |s|
    ensures forall q :: p <= q < SkipSpace(s, p) ==> IsSpace(s[q])
    decreases |s| - p
  {
    if p < |s| && IsSpace(s[p]) {
      Skipped(s, p + 1);
    }
  }

  lemma {:induction false} Dropped(s: string, i: nat, p: nat)
    requires i <= p <= |s|
    ensures forall q :: DropSpace(s, i, p) <= q < p ==> IsSpace(s[q])
    decreases p
  {
    if i < p && IsSpace(s[p - 1]) {
      Dropped(s, i, p - 1);
    }
  }

  lemma {:induction false} ReadAreDigits(s: string, k: nat, j: nat)
    requires k <= j <= |s| && ReadDigits(s, k, j).Some?
    ensures k < j && forall p :: k <= p < j ==> IsDigit(s[p])
    decreases j
  {
    if k + 1 < j {
      ReadAreDigits(s, k, j - 1);
    }
  }

  // ----- Every kind of line end -----

  ghost predicate OnLine(line: string) {
    Without(line, '\n') && Without(line, '\r')
  }

  /**
   `line` is the text between `a` and `b`, and one line: its only line feed is at its end, or it is
   the last line and has none.
   */
  ghost predicate IsLineAt(s: string, a: nat, b: nat, line: string) {
    && a < b <= |s| && line == s[a..b] && (forall p :: a <= p < b - 1 ==> s[p] != '\n')
    && (b < |s| ==> s[b - 1] == '\n')
  }

  /** The lines of a text are what its line ends cut it into, none missing and none doubled. */
  lemma FileLinesCut(s: string) returns (cuts: seq<nat>)
    ensures var u, lines := Universal(s, |s|), FileLines(s);
            && |cuts| == |lines| + 1 && cuts[0] == 0 && cuts[|lines|] == |u|
            && forall j :: 0 <= j < |lines| ==> IsLineAt(u, cuts[j], cuts[j + 1], lines[j])
  {
    cuts := LineCuts(Universal(s, |s|), 0);
  }

  lemma {:induction false} LineCuts(u: string, i: nat) returns (cuts: seq<nat>)
    requires i <= |u|
    ensures var lines := FileLinesFrom(u, i);
            && |cuts| == |lines| + 1 && cuts[0] == i && cuts[|lines|] == |u|
            && forall j :: 0 <= j < |lines| ==> IsLineAt(u, cuts[j], cuts[j + 1], lines[j])
    decreases |u| - i
  {
    var k := LineEnd(u, i);
    if i == |u| {
      cuts := [i];
    } else if k == |u| {
      cuts := [i, |u|];
      OnlyLine(u, i);
    } else {
      var rest := LineCuts(u, k + 1);
      cuts := [i] + rest;
      FirstLine(u, i, k);
      CutsBehind(u, FileLinesFrom(u, i), FileLinesFrom(u, k + 1), i, rest);
    }
  }

  lemma CutsBehind(u: string, lines: seq<string>, rest: seq<string>, i: nat, cuts: seq<nat>)
    requires Behind(lines, rest) && |cuts| == |rest| + 1 && IsLineAt(u, i, cuts[0], lines[0])
    requires forall j :: 0 <= j < |rest| ==> IsLineAt(u, cuts[j], cuts[j + 1], rest[j])
    ensures var all := [i] + cuts;
            forall j :: 0 <= j < |lines| ==> IsLineAt(u, all[j], all[j + 1], lines[j])
  {
    var all := [i] + cuts;
    forall j | 0 <= j < |lines|
      ensures IsLineAt(u, all[j], all[j + 1], lines[j])
    {
      if j > 0 {
        assert all[j] == cuts[j - 1] && all[j + 1] == cuts[j] && lines[1 + (j - 1)] == rest[j - 1];
      }
    }
  }

  lemma OnlyLine(s: string, i: nat)
    requires i < |s| <= LineEnd(s, i) + 1
    ensures FileLinesFrom(s, i) == [s[i..|s|]]
  {
    assert s[i..] == s[i..|s|];
  }

  /** Every line end becomes a line feed, and whatever else stands stays. */
  lemma UniversalFirst(line: string, end: string, rest: string)
    requires OnLine(line) && (end == "\n" || end == "\r\n" || (end == "\r" && (rest == "" || rest[0] != '\n')))
    ensures Universal(line + end + rest, |line + end + rest|) == (line + "\n") + Universal(rest, |rest|)
  {
    UniversalLine(line, end);
    UniversalJoin(line + end, rest, |rest|);
  }

  lemma UniversalLine(line: string, end: string)
    requires OnLine(line) && (end == "\n" || end == "\r\n" || end == "\r")
    ensures Universal(line + end, |line + end|) == line + "\n"
  {
    var s, n := line + end, |line|;
    UniversalPrefix(s, line, n);
    UniversalSame(line, n);
    assert line[..n] == line;
    assert s[n] == end[0];
    if end == "\r\n" {
      assert s[n + 1] == '\n';
      assert Universal(s, n + 1) == line + "\n";
    }
  }

  lemma {:induction false} UniversalPrefix(s: string, t: string, n: nat)
    requires n <= |t| && t <= s
    ensures Universal(s, n) == Universal(t, n)
  {
    if n > 0 {
      UniversalPrefix(s, t, n - 1);
    }
  }

  /** Line ends are turned into line feeds part by part, unless a cut goes through one. */
  lemma {:induction false} UniversalJoin(a: string, b: string, n: nat)
    requires n <= |b| && (a == "" || b == "" || a[|a| - 1] != '\r' || b[0] != '\n')
    ensures Universal(a + b, |a| + n) == Universal(a, |a|) + Universal(b, n)
  {
    var s := a + b;
    if n == 0 {
      UniversalPrefix(s, a, |a|);
    } else {
      UniversalJoin(a, b, n - 1);
      assert s[|a| + n - 1] == b[n - 1];
      assert n > 1 ==> s[|a| + n - 2] == b[n - 2];
      assert n == 1 && a != "" ==> s[|a| + n - 2] == a[|a| - 1];
    }
  }
}
