/**
 The sentinel matcher (internal/waiter/sentinel.go): the first occurrence of
 "__DONE__:<token>:<digits>" whose digits fit an int.
 */
module Sentinel {
  import opened Bytes

  /** The largest exit code strconv.Atoi accepts on a 64-bit platform. */
  const MAX_INT: nat := 0x7FFF_FFFF_FFFF_FFFF

  const COLON: byte := 0x3A

  /** "__DONE__:" */
  const MARKER: seq<byte> := [0x5F, 0x5F, 0x44, 0x4F, 0x4E, 0x45, 0x5F, 0x5F, 0x3A]

  function Prefix(token: seq<byte>): (p: seq<byte>)
    ensures |p| > 0 && p[|p| - 1] == COLON
  {
    MARKER + token + [COLON]
  }

  predicate IsDigit(c: byte) { 0x30 <= c <= 0x39 }

  /** Where the run of digits starting at i ends. */
  function DigitsEnd(buf: seq<byte>, i: nat): (end: nat)
    requires i <= |buf|
    ensures i <= end <= |buf|
    ensures forall k :: i <= k < end ==> IsDigit(buf[k])
    ensures end < |buf| ==> !IsDigit(buf[end])
    decreases |buf| - i
  {
    if i < |buf| && IsDigit(buf[i]) then DigitsEnd(buf, i + 1) else i
  }

  function Value(digits: seq<byte>): nat
    requires forall d <- digits :: IsDigit(d)
  {
    if digits == [] then 0
    else
      assert IsDigit(digits[|digits| - 1]);
      var last: int := digits[|digits| - 1];
      10 * Value(digits[..|digits| - 1]) + (last - 0x30)
  }

  predicate OccursAt(buf: seq<byte>, prefix: seq<byte>, i: nat) {
    i + |prefix| <= |buf| && buf[i..i + |prefix|] == prefix
  }

  /** A sentinel starts at i: the prefix, then a non-empty maximal run of digits whose
      value fits an int. */
  predicate SentinelAt(buf: seq<byte>, prefix: seq<byte>, i: nat) {
    && OccursAt(buf, prefix, i)
    && var start := i + |prefix|;
       var end := DigitsEnd(buf, start);
       end > start && Value(buf[start..end]) <= MAX_INT
  }

  datatype Match = Match(matched: seq<byte>, exitCode: nat, end: nat)

  /** The sentinel at i, read off the buffer. */
  function MatchAt(buf: seq<byte>, prefix: seq<byte>, i: nat): (m: Match)
    requires SentinelAt(buf, prefix, i)
    ensures i < m.end <= |buf| && m.matched == buf[i..m.end] && prefix < m.matched
    ensures forall d <- m.matched[|prefix|..] :: IsDigit(d)
    ensures m.exitCode == Value(m.matched[|prefix|..])
  {
    var start := i + |prefix|;
    var end := DigitsEnd(buf, start);
    assert buf[i..end][|prefix|..] == buf[start..end];
    assert buf[i..end][..|prefix|] == buf[i..start];
    Match(buf[i..end], Value(buf[start..end]), end)
  }

  /** First sentinel at or after `from`. */
  function FirstFrom(buf: seq<byte>, prefix: seq<byte>, from: nat): Option<Match>
    decreases |buf| - from
  {
    if from >= |buf| then None
    else if SentinelAt(buf, prefix, from) then Some(MatchAt(buf, prefix, from))
    else FirstFrom(buf, prefix, from + 1)
  }

  function FirstSentinel(buf: seq<byte>, token: seq<byte>): Option<Match> {
    FirstFrom(buf, Prefix(token), 0)
  }

  predicate NoneIn(buf: seq<byte>, prefix: seq<byte>, from: nat, to: nat) {
    forall i :: from <= i < to ==> !SentinelAt(buf, prefix, i)
  }

  /** Sound, complete and leftmost. */
  lemma {:induction false} FirstFromIsLeftmost(buf: seq<byte>, prefix: seq<byte>, from: nat, i: nat)
    requires |prefix| > 0
    ensures (from <= i && SentinelAt(buf, prefix, i) && NoneIn(buf, prefix, from, i))
        ==> FirstFrom(buf, prefix, from) == Some(MatchAt(buf, prefix, i))
    ensures NoneIn(buf, prefix, from, |buf|) ==> FirstFrom(buf, prefix, from) == None
    decreases |buf| - from
  {
    if from < |buf| && !SentinelAt(buf, prefix, from) {
      FirstFromIsLeftmost(buf, prefix, from + 1, i);
    }
  }

  /** Where the match FirstFrom reports begins. */
  lemma {:induction false} FirstFromStart(buf: seq<byte>, prefix: seq<byte>, from: nat) returns (i: nat)
    requires FirstFrom(buf, prefix, from).Some?
    ensures from <= i < |buf| && SentinelAt(buf, prefix, i) && NoneIn(buf, prefix, from, i)
    ensures FirstFrom(buf, prefix, from) == Some(MatchAt(buf, prefix, i))
    decreases |buf| - from
  {
    i := from;
    if !SentinelAt(buf, prefix, from) {
      i := FirstFromStart(buf, prefix, from + 1);
    }
  }

  /** bytes.Index(buf[from:], prefix), as an offset into buf. */
  function Index(buf: seq<byte>, prefix: seq<byte>, from: nat): (r: Option<nat>)
    ensures r.Some? ==> from <= r.value && OccursAt(buf, prefix, r.value)
    ensures r.Some? ==> forall k :: from <= k < r.value ==> !OccursAt(buf, prefix, k)
    ensures r.None? ==> forall k :: from <= k ==> !OccursAt(buf, prefix, k)
    decreases |buf| - from
  {
    if from + |prefix| > |buf| then None
    else if OccursAt(buf, prefix, from) then Some(from)
    else Index(buf, prefix, from + 1)
  }

  /** strconv.Atoi on a run of digits: None when it overflows. */
  function Atoi(digits: seq<byte>): Option<nat>
    requires forall d <- digits :: IsDigit(d)
  {
    if Value(digits) <= MAX_INT then Some(Value(digits)) else None
  }

  method MatchSentinel(buf: seq<byte>, token: seq<byte>) returns (m: Option<Match>)
    ensures m == FirstSentinel(buf, token)
  {
    m := Search(buf, Prefix(token));
  }

  method Search(buf: seq<byte>, prefix: seq<byte>) returns (m: Option<Match>)
    requires |prefix| > 0
    ensures m == FirstFrom(buf, prefix, 0)
  {
    var offset := 0;
    while true
      invariant 0 <= offset <= |buf|
      invariant NoneIn(buf, prefix, 0, offset)
      decreases |buf| - offset
    {
      var found := Index(buf, prefix, offset);
      if found.None? {
        assert NoneIn(buf, prefix, 0, |buf|);
        FirstFromIsLeftmost(buf, prefix, 0, 0);
        return None;
      }
      var idx := found.value;
      assert NoneIn(buf, prefix, 0, idx);
      var start := idx + |prefix|;
      var end := ScanDigits(buf, start);
      if end > start {
        var code := Atoi(buf[start..end]);
        if code.Some? {
          FoundAt(buf, prefix, idx);
          return Some(Match(buf[idx..end], code.value, end));
        }
      }
      NoneUpTo(buf, prefix, idx);
      offset := idx + 1;
    }
  }

  lemma FoundAt(buf: seq<byte>, prefix: seq<byte>, i: nat)
    requires |prefix| > 0 && SentinelAt(buf, prefix, i) && NoneIn(buf, prefix, 0, i)
    ensures var end := DigitsEnd(buf, i + |prefix|);
            FirstFrom(buf, prefix, 0) == Some(Match(buf[i..end], Value(buf[i + |prefix|..end]), end))
  {
    FirstFromIsLeftmost(buf, prefix, 0, i);
  }

  lemma NoneUpTo(buf: seq<byte>, prefix: seq<byte>, i: nat)
    requires !SentinelAt(buf, prefix, i) && NoneIn(buf, prefix, 0, i)
    ensures NoneIn(buf, prefix, 0, i + 1)
  {
  }

  method ScanDigits(buf: seq<byte>, start: nat) returns (end: nat)
    requires start <= |buf|
    ensures end == DigitsEnd(buf, start)
  {
    end := start;
    while end < |buf| && IsDigit(buf[end])
      invariant start <= end <= |buf|
      invariant DigitsEnd(buf, start) == DigitsEnd(buf, end)
    {
      end := end + 1;
    }
  }

  // --- The grammar, byte for byte -----------------------------------------------------

  /** "__DONE__:", the token, and a colon. */
  function Head(token: seq<byte>): seq<byte> {
    [0x5F, 0x5F, 0x44, 0x4F, 0x4E, 0x45, 0x5F, 0x5F, 0x3A] + token + [0x3A]
  }

  function Power(n: nat): nat { if n == 0 then 1 else 10 * Power(n - 1) }

  /** What a decimal numeral denotes, leading zeros allowed. */
  function Numeral(digits: seq<byte>): int {
    if digits == [] then 0
    else
      var first: int := digits[0];
      (first - 0x30) * Power(|digits| - 1) + Numeral(digits[1..])
  }

  /** A sentinel for the token stands at [i, end) of the text: its head, then one digit or
      more, as many as there are, denoting a number that fits a signed 64-bit int. */
  predicate Stands(text: seq<byte>, token: seq<byte>, i: nat, end: nat) {
    var start := i + |Head(token)|;
    && start < end <= |text| && text[i..start] == Head(token)
    && (forall k :: start <= k < end ==> 0x30 <= text[k] <= 0x39)
    && (end < |text| ==> !(0x30 <= text[end] <= 0x39))
    && Numeral(text[start..end]) <= 9223372036854775807
  }

  ghost predicate StandsFirst(text: seq<byte>, token: seq<byte>, i: nat, end: nat) {
    Stands(text, token, i, end) && forall j: nat, e: nat :: j < i ==> !Stands(text, token, j, e)
  }

  lemma {:induction false} NumeralSnoc(digits: seq<byte>, d: byte)
    ensures var last: int := d; Numeral(digits + [d]) == 10 * Numeral(digits) + (last - 0x30)
  {
    if digits == [] {
      assert digits + [d] == [d] && [d][1..] == [];
    } else {
      assert (digits + [d])[1..] == digits[1..] + [d];
      NumeralSnoc(digits[1..], d);
      var first: int := digits[0];
      assert (first - 0x30) * Power(|digits|) == 10 * ((first - 0x30) * Power(|digits| - 1));
    }
  }

  lemma {:induction false} ValueIsNumeral(digits: seq<byte>)
    requires forall d <- digits :: IsDigit(d)
    ensures Value(digits) == Numeral(digits)
  {
    if digits == [] {
    } else {
      var n := |digits| - 1;
      assert IsDigit(digits[n]) && digits == digits[..n] + [digits[n]];
      ValueIsNumeral(digits[..n]);
      NumeralSnoc(digits[..n], digits[n]);
    }
  }

  lemma {:induction false} RunEnds(buf: seq<byte>, start: nat, end: nat)
    requires start <= end <= |buf| && forall k :: start <= k < end ==> IsDigit(buf[k])
    requires end < |buf| ==> !IsDigit(buf[end])
    ensures DigitsEnd(buf, start) == end
    decreases end - start
  {
    if start == end {
    } else {
      RunEnds(buf, start + 1, end);
    }
  }

  /** The search's notion of a sentinel is the grammar's, and so is what it reads off. */
  lemma SentinelStands(text: seq<byte>, token: seq<byte>, i: nat)
    requires SentinelAt(text, Prefix(token), i)
    ensures var m := MatchAt(text, Prefix(token), i);
            Stands(text, token, i, m.end) && m.exitCode == Numeral(text[i + |Head(token)|..m.end])
  {
    assert Prefix(token) == Head(token);
    ValueIsNumeral(text[i + |Head(token)|..DigitsEnd(text, i + |Head(token)|)]);
  }

  lemma StandingIsSentinel(text: seq<byte>, token: seq<byte>, i: nat, end: nat)
    requires Stands(text, token, i, end)
    ensures SentinelAt(text, Prefix(token), i) && MatchAt(text, Prefix(token), i).end == end
  {
    assert Prefix(token) == Head(token);
    RunEnds(text, i + |Head(token)|, end);
    ValueIsNumeral(text[i + |Head(token)|..end]);
  }

  /** m is the first sentinel in the text, and stands at i. */
  ghost predicate ReportedAt(text: seq<byte>, token: seq<byte>, i: nat, m: Match) {
    && StandsFirst(text, token, i, m.end)
    && m.matched == text[i..m.end] && m.exitCode == Numeral(text[i + |Head(token)|..m.end])
  }

  /** In the grammar's terms: the search reports the first sentinel that stands in the
      text ... */
  lemma FirstSentinelIff(text: seq<byte>, token: seq<byte>, m: Match)
    ensures FirstSentinel(text, token) == Some(m) <==> exists i: nat :: ReportedAt(text, token, i, m)
  {
    if FirstSentinel(text, token) == Some(m) {
      var i := FirstFromStart(text, Prefix(token), 0);
      SentinelStands(text, token, i);
      forall j: nat, e: nat | j < i ensures !Stands(text, token, j, e) {
        if Stands(text, token, j, e) {
          StandingIsSentinel(text, token, j, e);
        }
      }
      assert ReportedAt(text, token, i, m);
    }
    forall i: nat | ReportedAt(text, token, i, m) ensures FirstSentinel(text, token) == Some(m) {
      StandingIsSentinel(text, token, i, m.end);
      SentinelStands(text, token, i);
      forall j | 0 <= j < i ensures !SentinelAt(text, Prefix(token), j) {
        if SentinelAt(text, Prefix(token), j) {
          SentinelStands(text, token, j);
        }
      }
      FirstFromIsLeftmost(text, Prefix(token), 0, i);
    }
  }

  lemma ReportsStanding(text: seq<byte>, token: seq<byte>, i: nat, end: nat)
    requires StandsFirst(text, token, i, end)
    ensures FirstSentinel(text, token).Some?
    ensures FirstSentinel(text, token).value.matched == text[i..end] && FirstSentinel(text, token).value.end == end
  {
    StandingIsSentinel(text, token, i, end);
    SentinelStands(text, token, i);
    var m := MatchAt(text, Prefix(token), i);
    assert ReportedAt(text, token, i, m);
    FirstSentinelIff(text, token, m);
  }

  /** ... and nothing iff none stands there. */
  lemma NoSentinelIff(text: seq<byte>, token: seq<byte>)
    ensures FirstSentinel(text, token) == None <==> forall i: nat, end: nat :: !Stands(text, token, i, end)
  {
    if FirstSentinel(text, token).Some? {
      var i := FirstFromStart(text, Prefix(token), 0);
      SentinelStands(text, token, i);
    }
    forall i: nat, end: nat | Stands(text, token, i, end) ensures FirstSentinel(text, token).Some? {
      StandingIsSentinel(text, token, i, end);
      SomeReported(text, Prefix(token), 0, i);
    }
  }

  lemma {:induction false} SomeReported(buf: seq<byte>, prefix: seq<byte>, from: nat, i: nat)
    requires prefix != [] && from <= i && SentinelAt(buf, prefix, i)
    ensures FirstFrom(buf, prefix, from).Some?
    decreases i - from
  {
    if from == i {
    } else {
      SomeReported(buf, prefix, from + 1, i);
    }
  }
}
