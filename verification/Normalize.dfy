/** Text-field normalization (internal/textnorm/normalize.go, Normalize). */
module Normalize {
  import opened Bytes
  import opened AnsiStrip

  type Line = seq<byte>

  // --- Lines -----------------------------------------------------------------------

  /** strings.Split(s, "\n") */
  function Split(s: seq<byte>): (lines: seq<Line>)
    ensures lines != []
    ensures forall l <- lines :: LF !in l
  {
    if s == [] then [[]]
    else
      var rest := Split(s[1..]);
      if s[0] == LF then [[]] + rest else [[s[0]] + rest[0]] + rest[1..]
  }

  lemma {:induction false} SplitAddsNothing(s: seq<byte>, c: byte)
    requires c !in s
    ensures forall l <- Split(s) :: c !in l
  {
    if s == [] {
    } else {
      SplitAddsNothing(s[1..], c);
    }
  }

  /** strings.Join(lines, "\n") */
  function Join(lines: seq<Line>): seq<byte> {
    if lines == [] then []
    else if |lines| == 1 then lines[0]
    else lines[0] + [LF] + Join(lines[1..])
  }

  /** Joining: the lines with a line feed between each and the next. */
  lemma JoinOf(l: Line, lines: seq<Line>)
    ensures Join([]) == [] && Join([l]) == l
    ensures lines != [] ==> Join([l] + lines) == l + [0x0A] + Join(lines)
  {
    assert ([l] + lines)[1..] == lines;
  }

  lemma {:induction false} JoinSplit(s: seq<byte>)
    ensures Join(Split(s)) == s
  {
    if s == [] {
    } else {
      JoinSplit(s[1..]);
      var rest := Split(s[1..]);
      if s[0] == LF {
        assert ([[]] + rest)[1..] == rest;
      } else {
        JoinFront([s[0]], rest);
      }
      assert s == [s[0]] + s[1..];
    }
  }

  lemma JoinFront(a: seq<byte>, lines: seq<Line>)
    requires lines != []
    ensures Join([a + lines[0]] + lines[1..]) == a + Join(lines)
  {
    if |lines| > 1 {
      assert ([a + lines[0]] + lines[1..])[1..] == lines[1..];
      assert a + lines[0] + [LF] + Join(lines[1..]) == a + (lines[0] + [LF] + Join(lines[1..]));
    }
  }

  lemma {:induction false} SplitFront(l: Line, s: seq<byte>)
    requires LF !in l
    ensures Split(l + s) == [l + Split(s)[0]] + Split(s)[1..]
  {
    if l == [] {
      assert l + s == s && l + Split(s)[0] == Split(s)[0];
    } else {
      assert (l + s)[1..] == l[1..] + s;
      SplitFront(l[1..], s);
      assert [l[0]] + (l[1..] + Split(s)[0]) == l + Split(s)[0];
    }
  }

  lemma {:induction false} SplitJoin(lines: seq<Line>)
    requires lines != [] && forall l <- lines :: LF !in l
    ensures Split(Join(lines)) == lines
  {
    if |lines| == 1 {
      SplitFront(lines[0], []);
      assert lines[0] + [] == lines[0] && lines == [lines[0]];
    } else {
      SplitJoin(lines[1..]);
      var tail := [LF] + Join(lines[1..]);
      assert tail[1..] == Join(lines[1..]);
      SplitFront(lines[0], tail);
      assert ([[]] + lines[1..])[1..] == lines[1..] && lines[0] + [] == lines[0];
      assert lines[0] + [LF] + Join(lines[1..]) == lines[0] + tail;
      assert lines == [lines[0]] + lines[1..];
    }
  }

  lemma {:induction false} JoinAddsOnlyNewlines(lines: seq<Line>, c: byte)
    requires c != LF && forall l <- lines :: c !in l
    ensures c !in Join(lines)
  {
    if |lines| > 1 {
      JoinAddsOnlyNewlines(lines[1..], c);
    }
  }

  // --- Trimming --------------------------------------------------------------------

  predicate IsBlank(c: byte) { c == 0x20 || c == 0x09 }

  predicate AllBlank(l: Line, from: nat) {
    forall k :: from <= k < |l| ==> IsBlank(l[k])
  }

  /** strings.TrimRight(l, " \t"): the longest prefix not ending in a blank. */
  function TrimRight(l: Line): (t: Line)
    ensures t <= l && AllBlank(l, |t|)
    ensures t != [] ==> !IsBlank(t[|t| - 1])
  {
    if l != [] && IsBlank(l[|l| - 1]) then TrimRight(l[..|l| - 1]) else l
  }

  function TrimAll(lines: seq<Line>): seq<Line> {
    seq(|lines|, i requires 0 <= i < |lines| => TrimRight(lines[i]))
  }

  function DropBlankTail(lines: seq<Line>): (kept: seq<Line>)
    ensures kept <= lines && forall i :: |kept| <= i < |lines| ==> lines[i] == []
    ensures kept != [] ==> kept[|kept| - 1] != []
  {
    if lines != [] && lines[|lines| - 1] == [] then DropBlankTail(lines[..|lines| - 1]) else lines
  }

  function KeptLines(s: seq<byte>): seq<Line> {
    DropBlankTail(TrimAll(Split(MatchInput(s))))
  }

  function Normal(s: seq<byte>): seq<byte> { Join(KeptLines(s)) }

  method Normalize(s: seq<byte>) returns (r: seq<byte>)
    ensures r == Normal(s)
  {
    var t := StripANSI(s);
    if CR in t {
      t := DropCR(t);
    } else {
      DropCRIdentity(t);
    }
    var lines := TrimLines(Split(t));
    while |lines| > 0 && lines[|lines| - 1] == []
      invariant DropBlankTail(lines) == KeptLines(s)
    {
      lines := lines[..|lines| - 1];
    }
    return Join(lines);
  }

  /** The trimming loop, line by line in place. */
  method TrimLines(split: seq<Line>) returns (lines: seq<Line>)
    ensures lines == TrimAll(split)
  {
    lines := split;
    for i := 0 to |lines|
      invariant |lines| == |split|
      invariant forall k :: 0 <= k < i ==> lines[k] == TrimRight(split[k])
      invariant forall k :: i <= k < |lines| ==> lines[k] == split[k]
    {
      lines := lines[i := TrimRight(lines[i])];
    }
  }

  // --- What it promises --------------------------------------------------------------

  /** Spaces and tabs only, from k on. */
  predicate BlankFrom(l: Line, k: nat) {
    forall i :: k <= i < |l| ==> l[i] == 0x20 || l[i] == 0x09
  }

  /** `kept` is what remains of `line`: it is cut back over blanks only, and ends in none. */
  predicate CutBack(line: Line, kept: Line) {
    && kept <= line && BlankFrom(line, |kept|)
    && (kept != [] ==> kept[|kept| - 1] != 0x20 && kept[|kept| - 1] != 0x09)
  }

  /** r is the text whose lines are those of `all`, each cut back, up to the last that is
      not blank. */
  predicate NormalOf(all: seq<Line>, n: nat, r: seq<byte>) {
    && n <= |all|
    && (forall i :: n <= i < |all| ==> BlankFrom(all[i], 0))
    && (if n == 0 then r == []
        else
          && |Split(r)| == n && Split(r)[n - 1] != []
          && forall i :: 0 <= i < n ==> CutBack(all[i], Split(r)[i]))
  }

  lemma TrimIsCutBack(l: Line)
    ensures CutBack(l, TrimRight(l)) && (TrimRight(l) == [] ==> BlankFrom(l, 0))
  {
  }

  lemma KeptAreCutBack(all: seq<Line>, kept: seq<Line>)
    requires kept == DropBlankTail(TrimAll(all))
    ensures |kept| <= |all| && (kept != [] ==> kept[|kept| - 1] != [])
    ensures forall i :: 0 <= i < |kept| ==> CutBack(all[i], kept[i])
    ensures forall i :: |kept| <= i < |all| ==> BlankFrom(all[i], 0)
  {
    forall i | 0 <= i < |kept| ensures CutBack(all[i], kept[i]) {
      assert kept[i] == TrimAll(all)[i];
      TrimIsCutBack(all[i]);
    }
    forall i | |kept| <= i < |all| ensures BlankFrom(all[i], 0) {
      assert TrimAll(all)[i] == [];
      TrimIsCutBack(all[i]);
    }
  }

  /** What the result is, line by line: `n` lines of the stripped text are kept. */
  lemma NormalMeans(s: seq<byte>) returns (n: nat)
    ensures NormalOf(Split(MatchInput(s)), n, Normal(s))
  {
    n := |KeptLines(s)|;
    KeptAreCutBack(Split(MatchInput(s)), KeptLines(s));
    KeptAreClean(s);
  }

  /** Hence nothing is left iff every line is blank. */
  lemma EmptyIffAllBlank(s: seq<byte>)
    ensures Normal(s) == [] <==> forall l <- Split(MatchInput(s)) :: BlankFrom(l, 0)
  {
    var all := Split(MatchInput(s));
    var n := NormalMeans(s);
    if n > 0 {
      assert !BlankFrom(all[n - 1], 0) by {
        var last := Split(Normal(s))[n - 1];
        assert all[n - 1][|last| - 1] == last[|last| - 1];
      }
      assert Split([]) == [[]];
    }
  }

  /** The text has a normal form: no ESC, no CR, no line ending in a blank, and no blank
      line at the end. */
  lemma NormalForm(s: seq<byte>)
    ensures 0x1B !in Normal(s) && 0x0D !in Normal(s)
    ensures forall l <- Split(Normal(s)) :: l != [] ==> l[|l| - 1] != 0x20 && l[|l| - 1] != 0x09
    ensures Normal(s) == [] || Split(Normal(s))[|Split(Normal(s))| - 1] != []
  {
    NothingToEscape(s);
    KeptAreClean(s);
    if KeptLines(s) == [] {
      assert Split(Normal(s)) == [[]];
    } else {
      forall l <- Split(Normal(s)) ensures CleanLine(l) {
      }
    }
  }

  lemma NothingToEscape(s: seq<byte>)
    ensures ESC !in Normal(s) && CR !in Normal(s)
  {
    KeptAreClean(s);
    JoinAddsOnlyNewlines(KeptLines(s), ESC);
    JoinAddsOnlyNewlines(KeptLines(s), CR);
  }

  predicate CleanLine(l: Line) {
    ESC !in l && CR !in l && LF !in l && (l == [] || !IsBlank(l[|l| - 1]))
  }

  lemma KeptLineIsClean(s: seq<byte>, i: nat)
    requires i < |KeptLines(s)|
    ensures CleanLine(KeptLines(s)[i])
  {
    var all := Split(MatchInput(s));
    MatchInputIdempotent(s);
    SplitAddsNothing(MatchInput(s), ESC);
    SplitAddsNothing(MatchInput(s), CR);
    assert KeptLines(s)[i] == TrimAll(all)[i] == TrimRight(all[i]);
    assert all[i] in all;
  }

  lemma KeptAreClean(s: seq<byte>)
    ensures forall l <- KeptLines(s) :: CleanLine(l)
    ensures KeptLines(s) != [] ==> Split(Normal(s)) == KeptLines(s)
  {
    var kept := KeptLines(s);
    forall l <- kept ensures CleanLine(l) {
      var i :| 0 <= i < |kept| && kept[i] == l;
      KeptLineIsClean(s, i);
    }
    if kept != [] {
      SplitJoin(kept);
    }
  }

  /** What is already trimmed is left alone. */
  lemma TrimmedStays(lines: seq<Line>)
    requires forall l <- lines :: l == [] || !IsBlank(l[|l| - 1])
    ensures TrimAll(lines) == lines
  {
    forall i | 0 <= i < |lines| ensures TrimRight(lines[i]) == lines[i] {
      assert lines[i] in lines;
    }
  }

  /** Normalizing twice changes nothing, and neither does stripping first. */
  lemma NormalIdempotent(s: seq<byte>)
    ensures Normal(Normal(s)) == Normal(s)
    ensures Normal(MatchInput(s)) == Normal(s)
  {
    var r, kept := Normal(s), KeptLines(s);
    NormalForm(s);
    KeptAreClean(s);
    PlainTextPasses(r, []);
    assert r + [] == r;
    DropCRIdentity(r);
    assert MatchInput(r) == r;
    if r == [] {
      assert TrimAll(Split(r)) == [[]];
      assert KeptLines(r) == [];
    } else {
      TrimmedStays(kept);
    }
    MatchInputIdempotent(s);
  }
}
