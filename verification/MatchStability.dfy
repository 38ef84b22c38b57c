/**
 A wait re-strips and re-searches ever longer reads of one stream. When does a sentinel
 found in one of them stand for good?
 */
module MatchStability {
  import opened Bytes
  import opened AnsiStrip
  import opened Sentinel

  // --- Extending the searched text -------------------------------------------------

  /** A digit run that stopped before the end of the text stops there in any extension. */
  lemma {:induction false} StoppedRunStays(t: seq<byte>, more: seq<byte>, i: nat)
    requires i <= |t| && DigitsEnd(t, i) < |t|
    ensures DigitsEnd(t + more, i) == DigitsEnd(t, i)
    decreases |t| - i
  {
    if IsDigit(t[i]) {
      StoppedRunStays(t, more, i + 1);
    }
  }

  /** Before a known occurrence of the prefix, whose last byte is no digit, nothing
      depends on what follows the text. */
  lemma EarlierUnaffected(t: seq<byte>, more: seq<byte>, prefix: seq<byte>, i: nat, j: nat)
    requires |prefix| > 0 && !IsDigit(prefix[|prefix| - 1])
    requires j < i && OccursAt(t, prefix, i)
    ensures SentinelAt(t + more, prefix, j) <==> SentinelAt(t, prefix, j)
  {
    var start := j + |prefix|;
    assert t[i + |prefix| - 1] == t[i..i + |prefix|][|prefix| - 1];
    assert (t + more)[j..start] == t[j..start];
    StoppedRunStays(t, more, start);
    var end := DigitsEnd(t, start);
    assert (t + more)[start..end] == t[start..end];
  }

  lemma StrictMatchStays(t: seq<byte>, more: seq<byte>, prefix: seq<byte>)
    requires |prefix| > 0 && !IsDigit(prefix[|prefix| - 1])
    requires FirstFrom(t, prefix, 0).Some? && FirstFrom(t, prefix, 0).value.end < |t|
    ensures FirstFrom(t + more, prefix, 0) == FirstFrom(t, prefix, 0)
  {
    var i := FirstFromStart(t, prefix, 0);
    forall j | 0 <= j < i ensures !SentinelAt(t + more, prefix, j) {
      EarlierUnaffected(t, more, prefix, i, j);
    }
    StrictSentinelStays(t, more, prefix, i);
    FirstFromIsLeftmost(t + more, prefix, 0, i);
  }

  lemma StrictSentinelStays(t: seq<byte>, more: seq<byte>, prefix: seq<byte>, i: nat)
    requires SentinelAt(t, prefix, i) && MatchAt(t, prefix, i).end < |t|
    ensures SentinelAt(t + more, prefix, i) && MatchAt(t + more, prefix, i) == MatchAt(t, prefix, i)
  {
    var t', start := t + more, i + |prefix|;
    StoppedRunStays(t, more, start);
    var end := DigitsEnd(t, start);
    assert t'[i..start] == t[i..start] && t'[start..end] == t[start..end] && t'[i..end] == t[i..end];
  }

  /** A match that reaches the end of the text is undone by one more digit. */
  lemma LooseMatchChanges(t: seq<byte>, prefix: seq<byte>)
    requires |prefix| > 0 && !IsDigit(prefix[|prefix| - 1])
    requires FirstFrom(t, prefix, 0).Some? && FirstFrom(t, prefix, 0).value.end == |t|
    ensures var was, now := FirstFrom(t, prefix, 0), FirstFrom(t + [0x30], prefix, 0);
            now.None? || now.value.matched != was.value.matched
  {
    var i := FirstFromStart(t, prefix, 0);
    var t' := t + [0x30];
    if FirstFrom(t', prefix, 0).Some? {
      var j := FirstFromStart(t', prefix, 0);
      if j < i {
        EarlierUnaffected(t, [0x30], prefix, i, j);
      } else if i < j {
        OnlyDigitsFollow(t, prefix, i, j);
      }
      RunReachesNewEnd(t, i + |prefix|);
    }
  }

  lemma OnlyDigitsFollow(t: seq<byte>, prefix: seq<byte>, i: nat, j: nat)
    requires |prefix| > 0 && !IsDigit(prefix[|prefix| - 1])
    requires i < j && i + |prefix| <= |t| && DigitsEnd(t, i + |prefix|) == |t|
    ensures !OccursAt(t + [0x30], prefix, j)
  {
    var t', last := t + [0x30], j + |prefix| - 1;
    if last < |t'| {
      assert IsDigit(t'[last]);
      assert t'[j..last + 1][|prefix| - 1] == t'[last];
    }
  }

  lemma {:induction false} RunReachesNewEnd(t: seq<byte>, i: nat)
    requires i <= |t| && DigitsEnd(t, i) == |t|
    ensures DigitsEnd(t + [0x30], i) == |t| + 1
    decreases |t| - i
  {
    if i < |t| {
      RunReachesNewEnd(t, i + 1);
    }
  }

  // --- Extending the raw stream ------------------------------------------------------

  /** Raw bytes that end whatever sequence is open and then show a single 0. */
  function ThenZero(m: Mode): seq<byte> {
    match m
    case Ground => [0x30]
    case Escape => [0x37, 0x30]
    case EscapeInter => [0x42, 0x30]
    case CsiParam => [0x6D, 0x30]
    case CsiInter => [0x6D, 0x30]
    case Text(bel) => if bel then [BEL, 0x30] else [ESC, BACKSLASH, 0x30]
    case TextEscape(bel) => [BACKSLASH, 0x30]
  }

  lemma ThenZeroShowsZero(m: Mode)
    ensures DropCR(Out(m, ThenZero(m))) == [0x30]
  {
    var s := ThenZero(m);
    Onward(m, s, 0);
    assert s[0..] == s;
    if |s| > 1 {
      Onward(Step(m, s[0]).0, s, 1);
    }
    if |s| > 2 {
      Onward(Step(Step(m, s[0]).0, s[1]).0, s, 2);
    }
    assert s[|s|..] == [] && [0x30][1..] == [];
  }

  function Found(raw: seq<byte>, token: seq<byte>): Option<Match> {
    FirstSentinel(MatchInput(raw), token)
  }

  predicate SameReport(a: Option<Match>, b: Option<Match>) {
    a.Some? && b.Some? && a.value.matched == b.value.matched && a.value.exitCode == b.value.exitCode
  }

  lemma ColonIsNoDigit(token: seq<byte>)
    ensures !IsDigit(Prefix(token)[|Prefix(token)| - 1])
  {
  }

  /** A match ending strictly inside the stripped text is what every longer read reports. */
  lemma StrictMatchIsFinal(raw: seq<byte>, more: seq<byte>, token: seq<byte>)
    requires Found(raw, token).Some? && Found(raw, token).value.end < |MatchInput(raw)|
    ensures Found(raw + more, token) == Found(raw, token)
  {
    MatchInputGrows(raw, more);
    ColonIsNoDigit(token);
    StrictMatchStays(MatchInput(raw), DropCR(Out(After(Ground, raw), more)), Prefix(token));
  }

  /** A reported sentinel is final iff it ends strictly before the end of the text read
      so far: otherwise its digits may still be arriving. */
  lemma ReportIsFinalIff(raw: seq<byte>, token: seq<byte>)
    requires Found(raw, token).Some?
    ensures (forall more :: SameReport(Found(raw, token), Found(raw + more, token)))
       <==> Found(raw, token).value.end < |MatchInput(raw)|
  {
    var t := MatchInput(raw);
    if Found(raw, token).value.end < |t| {
      forall more ensures SameReport(Found(raw, token), Found(raw + more, token)) {
        StrictMatchIsFinal(raw, more, token);
      }
    } else {
      var m := After(Ground, raw);
      var i := FirstFromStart(t, Prefix(token), 0);
      ColonIsNoDigit(token);
      LooseMatchChanges(t, Prefix(token));
      MatchInputGrows(raw, ThenZero(m));
      ThenZeroShowsZero(m);
      assert !SameReport(Found(raw, token), Found(raw + ThenZero(m), token));
    }
  }

  /** The failing case: exit code 12, read between its digits, is reported as 1. */
  lemma CutCodeMisreported(token: seq<byte>)
    requires ESC !in token && CR !in token
    ensures var raw := Prefix(token) + [0x31];
            && Found(raw, token).Some? && Found(raw, token).value.exitCode == 1
            && Found(raw + [0x32], token).Some? && Found(raw + [0x32], token).value.exitCode == 12
  {
    AtFront(token, [0x31], 1);
    assert [0x31, 0x32][..1] == [0x31];
    AtFront(token, [0x31, 0x32], 12);
    assert Prefix(token) + [0x31] + [0x32] == Prefix(token) + [0x31, 0x32];
  }

  lemma AtFront(token: seq<byte>, digits: seq<byte>, code: nat)
    requires ESC !in token && CR !in token
    requires digits != [] && (forall d <- digits :: IsDigit(d)) && Value(digits) == code <= MAX_INT
    ensures Found(Prefix(token) + digits, token).Some?
    ensures Found(Prefix(token) + digits, token).value.exitCode == code
  {
    var raw := Prefix(token) + digits;
    PlainTextPasses(raw, []);
    assert raw + [] == raw;
    DropCRIdentity(raw);
    OnlySentinel(Prefix(token), digits);
  }

  lemma OnlySentinel(prefix: seq<byte>, digits: seq<byte>)
    requires prefix != [] && digits != []
    requires (forall d <- digits :: IsDigit(d)) && Value(digits) <= MAX_INT
    ensures FirstFrom(prefix + digits, prefix, 0) == Some(Match(prefix + digits, Value(digits), |prefix + digits|))
  {
    var t := prefix + digits;
    AllDigits(t, |prefix|);
    assert t[|prefix|..|t|] == digits && t[0..|t|] == t;
  }

  lemma {:induction false} AllDigits(t: seq<byte>, i: nat)
    requires i <= |t| && forall k :: i <= k < |t| ==> IsDigit(t[k])
    ensures DigitsEnd(t, i) == |t|
    decreases |t| - i
  {
    if i < |t| {
      AllDigits(t, i + 1);
    }
  }
}
