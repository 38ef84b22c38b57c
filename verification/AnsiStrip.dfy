/**
 Removal of escape sequences (internal/textnorm/normalize.go, stripANSI and
 StripANSIAndCR): a byte-at-a-time transducer, the program's lookahead scanner proved
 equal to it, and what it means on ECMA-48 input.
 */
module AnsiStrip {
  import opened Bytes

  // --- The transducer ------------------------------------------------------------

  datatype Mode =
    | Ground
    | Escape                                   // ESC seen
    | EscapeInter                              // ESC and intermediate bytes
    | CsiParam | CsiInter                      // inside ESC [ ...
    | Text(bel: bool) | TextEscape(bel: bool)  // inside a control string; `bel`: BEL ends it (OSC)

  predicate IsInter(c: byte) { 0x20 <= c <= 0x2F }
  predicate IsParam(c: byte) { 0x30 <= c <= 0x3F }
  predicate IsFinal(c: byte) { 0x40 <= c <= 0x7E }
  predicate OpensString(c: byte) { c == 0x50 || c == 0x58 || c == 0x5E || c == 0x5F }  // P X ^ _

  const BRACKET: byte := 0x5B
  const OSC_OPEN: byte := 0x5D
  const BACKSLASH: byte := 0x5C

  /** In ground state text passes through; ESC starts a sequence. */
  function GroundStep(c: byte): (Mode, seq<byte>) {
    if c == ESC then (Escape, []) else (Ground, [c])
  }

  /** One byte. A byte that cannot continue a sequence ends it and is text itself. */
  function Step(m: Mode, c: byte): (Mode, seq<byte>) {
    match m
    case Ground => GroundStep(c)
    case Escape =>
      if c == BRACKET then (CsiParam, [])
      else if c == OSC_OPEN then (Text(true), [])
      else if OpensString(c) then (Text(false), [])
      else if IsInter(c) then (EscapeInter, [])
      else if IsParam(c) || IsFinal(c) then (Ground, [])
      else GroundStep(c)
    case EscapeInter =>
      if IsInter(c) then (EscapeInter, [])
      else if IsParam(c) || IsFinal(c) then (Ground, [])
      else GroundStep(c)
    case CsiParam =>
      if IsParam(c) then (CsiParam, [])
      else if IsInter(c) then (CsiInter, [])
      else if IsFinal(c) then (Ground, [])
      else GroundStep(c)
    case CsiInter =>
      if IsInter(c) then (CsiInter, [])
      else if IsFinal(c) then (Ground, [])
      else GroundStep(c)
    case Text(bel) =>
      if bel && c == BEL then (Ground, [])
      else if c == ESC then (TextEscape(bel), [])
      else (Text(bel), [])
    case TextEscape(bel) =>
      if c == BACKSLASH || (bel && c == BEL) then (Ground, [])
      else if c == ESC then (TextEscape(bel), [])
      else (Text(bel), [])
  }

  /** The state the transducer is in after s, and what it has let through. */
  function After(m: Mode, s: seq<byte>): Mode
    decreases |s|
  {
    if s == [] then m else After(Step(m, s[0]).0, s[1..])
  }

  function Out(m: Mode, s: seq<byte>): seq<byte>
    decreases |s|
  {
    if s == [] then [] else Step(m, s[0]).1 + Out(Step(m, s[0]).0, s[1..])
  }

  function Strip(s: seq<byte>): seq<byte> { Out(Ground, s) }

  /** Streaming: a chunk's output depends on the past only through the state it left. */
  lemma {:induction false} OutSplit(m: Mode, a: seq<byte>, b: seq<byte>)
    ensures Out(m, a + b) == Out(m, a) + Out(After(m, a), b)
    decreases |a|
  {
    if a == [] {
      assert a + b == b;
    } else {
      var (m', out) := Step(m, a[0]);
      assert (a + b)[1..] == a[1..] + b;
      OutSplit(m', a[1..], b);
      Assoc(out, Out(m', a[1..]), Out(After(m, a), b));
    }
  }

  lemma {:induction false} AfterSplit(m: Mode, a: seq<byte>, b: seq<byte>)
    ensures After(m, a + b) == After(After(m, a), b)
    decreases |a|
  {
    if a == [] {
      assert a + b == b;
    } else {
      assert (a + b)[1..] == a[1..] + b;
      AfterSplit(Step(m, a[0]).0, a[1..], b);
    }
  }

  /** More input never changes or withdraws what was let through. */
  lemma StripIsPrefix(a: seq<byte>, b: seq<byte>)
    ensures Strip(a) <= Strip(a + b)
    ensures Strip(a + b) == Strip(a) + Out(After(Ground, a), b)
  {
    OutSplit(Ground, a, b);
  }

  /** No ESC ever gets out, from whatever state. */
  lemma {:induction false} NoEscapeOut(m: Mode, s: seq<byte>)
    ensures ESC !in Out(m, s)
    decreases |s|
  {
    if s == [] {
    } else {
      NoEscapeOut(Step(m, s[0]).0, s[1..]);
    }
  }

  lemma {:induction false} PlainTextPasses(s: seq<byte>, rest: seq<byte>)
    requires ESC !in s
    ensures Out(Ground, s + rest) == s + Out(Ground, rest)
  {
    if s == [] {
      assert s + rest == rest;
    } else {
      assert (s + rest)[1..] == s[1..] + rest;
      PlainTextPasses(s[1..], rest);
    }
  }

  lemma StripIdempotent(s: seq<byte>)
    ensures Strip(Strip(s)) == Strip(s)
  {
    NoEscapeOut(Ground, s);
    PlainTextPasses(Strip(s), []);
    assert Strip(s) + [] == Strip(s);
  }

  // --- The program's scanner -------------------------------------------------------

  /** Outside an ESC-backslash pair, an ESC in a control string is one more string byte. */
  lemma LoneEscapeIgnored(bel: bool, s: seq<byte>)
    requires s == [] || s[0] != BACKSLASH
    ensures Out(TextEscape(bel), s) == Out(Text(bel), s)
  {
  }

  /** ESC and the byte after it, read from ground state. */
  lemma Introduced(s: seq<byte>, i: nat)
    requires i + 1 < |s| && s[i] == ESC
    ensures Out(Ground, s[i..]) == Out(Escape, s[i + 1..])
    ensures s[i + 1] == BRACKET ==> Out(Ground, s[i..]) == Out(CsiParam, s[i + 2..])
    ensures s[i + 1] == OSC_OPEN ==> Out(Ground, s[i..]) == Out(Text(true), s[i + 2..])
    ensures OpensString(s[i + 1]) ==> Out(Ground, s[i..]) == Out(Text(false), s[i + 2..])
  {
    assert s[i..][1..] == s[i + 1..] && s[i + 1..][1..] == s[i + 2..];
  }

  method StripANSI(s: seq<byte>) returns (r: seq<byte>)
    ensures r == Strip(s)
  {
    if ESC !in s {
      PlainTextPasses(s, []);
      assert s + [] == s;
      return s;
    }
    r := [];
    var i := 0;
    while i < |s|
      invariant 0 <= i <= |s|
      invariant r + Out(Ground, s[i..]) == Strip(s)
    {
      var c := s[i];
      if c != ESC {
        r := r + [c];
        i := i + 1;
        continue;
      }
      if i + 1 >= |s| {
        break;
      }
      i := SkipSequence(s, i);
    }
    assert Out(Ground, s[i..]) == [];
  }

  method SkipSequence(s: seq<byte>, i: nat) returns (j: nat)
    requires i + 1 < |s| && s[i] == ESC
    ensures i < j <= |s| && Out(Ground, s[i..]) == Out(Ground, s[j..])
  {
    Introduced(s, i);
    var k := s[i + 1];
    if k == BRACKET {
      j := SkipCsi(s, i + 2);
    } else if k == OSC_OPEN {
      j := SkipString(s, i + 2, true);
    } else if OpensString(k) {
      j := SkipString(s, i + 2, false);
    } else {
      j := SkipEscape(s, i + 1);
    }
  }

  /** One byte further, read from mode m. */
  lemma Onward(m: Mode, s: seq<byte>, j: nat)
    requires j < |s|
    ensures Out(m, s[j..]) == Step(m, s[j]).1 + Out(Step(m, s[j]).0, s[j + 1..])
  {
    assert s[j..][1..] == s[j + 1..];
  }

  method SkipCsi(s: seq<byte>, from: nat) returns (j: nat)
    requires from <= |s|
    ensures from <= j <= |s| && Out(CsiParam, s[from..]) == Out(Ground, s[j..])
  {
    j := from;
    while j < |s| && IsParam(s[j])
      invariant from <= j <= |s|
      invariant Out(CsiParam, s[from..]) == Out(CsiParam, s[j..])
    {
      Onward(CsiParam, s, j);
      j := j + 1;
    }
    assert j < |s| ==> !IsParam(s[j]);
    ghost var m := CsiParam;
    while j < |s| && IsInter(s[j])
      invariant from <= j <= |s|
      invariant m == CsiInter || (m == CsiParam && (j < |s| ==> !IsParam(s[j])))
      invariant Out(CsiParam, s[from..]) == Out(m, s[j..])
    {
      Onward(m, s, j);
      j, m := j + 1, CsiInter;
    }
    if j < |s| {
      Onward(m, s, j);
      Onward(Ground, s, j);
      if IsFinal(s[j]) {
        j := j + 1;
      }
    }
  }

  method SkipString(s: seq<byte>, from: nat, bel: bool) returns (j: nat)
    requires from <= |s|
    ensures from <= j <= |s| && Out(Text(bel), s[from..]) == Out(Ground, s[j..])
  {
    j := from;
    while j < |s|
      invariant from <= j <= |s|
      invariant Out(Text(bel), s[from..]) == Out(Text(bel), s[j..])
    {
      Onward(Text(bel), s, j);
      if bel && s[j] == BEL {
        return j + 1;
      }
      if s[j] == ESC && j + 1 < |s| && s[j + 1] == BACKSLASH {
        Onward(TextEscape(bel), s, j + 1);
        return j + 2;
      }
      if s[j] == ESC {
        LoneEscapeIgnored(bel, s[j + 1..]);
      }
      j := j + 1;
    }
  }

  method SkipEscape(s: seq<byte>, from: nat) returns (j: nat)
    requires from < |s|
    requires s[from] != BRACKET && s[from] != OSC_OPEN && !OpensString(s[from])
    ensures from <= j <= |s| && Out(Escape, s[from..]) == Out(Ground, s[j..])
  {
    j := from;
    ghost var m := Escape;
    while j < |s| && IsInter(s[j])
      invariant from <= j <= |s| && (m == EscapeInter || (m == Escape && j == from))
      invariant Out(Escape, s[from..]) == Out(m, s[j..])
    {
      j, m := j + 1, EscapeInter;
    }
    if j < |s| && (IsParam(s[j]) || IsFinal(s[j])) {
      j := j + 1;
    }
  }

  // --- What it means, on every input --------------------------------------------------

  /** Any stream, as a sequence of text bytes, control sequences (section 5.4 of ECMA-48),
      control strings (section 5.6) ended by ST or, for OSC, by BEL, other escape sequences,
      and sequences broken off by the next byte or by the end of the stream. */
  datatype Piece =
    | Char(c: byte)
    | ControlSequence(params: seq<byte>, inters: seq<byte>, final: byte)
    | ControlString(opener: byte, body: seq<byte>, byBel: bool)
    | EscapeSequence(inters: seq<byte>, final: byte)
    | BrokenSequence(params: seq<byte>, inters: seq<byte>)
    | BrokenEscape(inters: seq<byte>)
    | OpenString(opener: byte, body: seq<byte>)

  /** Every byte lies in these columns of the code table. */
  predicate Column(s: seq<byte>, lo: int, hi: int) { forall c <- s :: lo <= c <= hi }

  /** No terminator inside: no ESC followed by a backslash and, in an OSC string, no BEL. */
  predicate Unended(opener: byte, body: seq<byte>) {
    && (forall i :: 0 <= i < |body| - 1 ==> !(body[i] == 0x1B && body[i + 1] == 0x5C))
    && (opener == 0x5D ==> 0x07 !in body)
  }

  /** The standard's code table, and what a piece asks of the bytes after it. */
  predicate WellFormed(p: Piece, rest: seq<byte>) {
    match p
    case Char(c) => c != 0x1B
    case ControlSequence(params, inters, final) =>
      Column(params, 0x30, 0x3F) && Column(inters, 0x20, 0x2F) && 0x40 <= final <= 0x7E
    case ControlString(opener, body, byBel) =>
      (opener == 0x5D || (opener in {0x50, 0x58, 0x5E, 0x5F} && !byBel)) && Unended(opener, body)
    case EscapeSequence(inters, final) =>
      && Column(inters, 0x20, 0x2F) && 0x30 <= final <= 0x7E
      && (inters == [] ==> final !in {0x5B, 0x5D, 0x50, 0x58, 0x5E, 0x5F})
    case BrokenSequence(params, inters) =>
      && Column(params, 0x30, 0x3F) && Column(inters, 0x20, 0x2F)
      && (rest == [] || rest[0] < 0x20 || 0x7E < rest[0] || (inters != [] && 0x30 <= rest[0] <= 0x3F))
    case BrokenEscape(inters) =>
      Column(inters, 0x20, 0x2F) && (rest == [] || rest[0] < 0x20 || 0x7E < rest[0])
    case OpenString(opener, body) =>
      opener in {0x5D, 0x50, 0x58, 0x5E, 0x5F} && Unended(opener, body) && rest == []
  }

  function Render(p: Piece): seq<byte> {
    match p
    case Char(c) => [c]
    case ControlSequence(params, inters, final) => [0x1B, 0x5B] + (params + (inters + [final]))
    case ControlString(opener, body, byBel) => [0x1B, opener] + (body + if byBel then [0x07] else [0x1B, 0x5C])
    case EscapeSequence(inters, final) => [0x1B] + (inters + [final])
    case BrokenSequence(params, inters) => [0x1B, 0x5B] + (params + inters)
    case BrokenEscape(inters) => [0x1B] + inters
    case OpenString(opener, body) => [0x1B, opener] + body
  }

  function RenderAll(ps: seq<Piece>): seq<byte> {
    if ps == [] then [] else Render(ps[0]) + RenderAll(ps[1..])
  }

  predicate Stream(ps: seq<Piece>) {
    ps != [] ==> WellFormed(ps[0], RenderAll(ps[1..])) && Stream(ps[1..])
  }

  function TextOf(ps: seq<Piece>): seq<byte> {
    if ps == [] then []
    else (if ps[0].Char? then [ps[0].c] else []) + TextOf(ps[1..])
  }

  /** Bytes that lead from m to m' and let nothing out. */
  predicate Silent(m: Mode, s: seq<byte>, m': Mode) {
    Out(m, s) == [] && After(m, s) == m'
  }

  lemma SilentThen(m: Mode, s: seq<byte>, m': Mode, rest: seq<byte>)
    requires Silent(m, s, m')
    ensures Out(m, s + rest) == Out(m', rest) && After(m, s + rest) == After(m', rest)
  {
    OutSplit(m, s, rest);
    AfterSplit(m, s, rest);
  }

  lemma {:induction false} StaysSilent(m: Mode, s: seq<byte>)
    requires forall c <- s :: Step(m, c) == (m, [])
    ensures Silent(m, s, m)
  {
    if s == [] {
    } else {
      StaysSilent(m, s[1..]);
    }
  }

  lemma IntersSilent(m: Mode, inter: Mode, inters: seq<byte>)
    requires (m == CsiParam && inter == CsiInter) || (m == Escape && inter == EscapeInter)
    requires Column(inters, 0x20, 0x2F)
    ensures Silent(m, inters, if inters == [] then m else inter)
  {
    if inters == [] {
    } else {
      assert inters[0] in inters && forall c <- inters[1..] :: c in inters;
      StaysSilent(inter, inters[1..]);
    }
  }

  /** Past ESC [, parameters and intermediates. */
  lemma SequenceSilent(params: seq<byte>, inters: seq<byte>)
    requires Column(params, 0x30, 0x3F) && Column(inters, 0x20, 0x2F)
    ensures Silent(CsiParam, params + inters, if inters == [] then CsiParam else CsiInter)
  {
    StaysSilent(CsiParam, params);
    IntersSilent(CsiParam, CsiInter, inters);
    SilentThen(CsiParam, params, CsiParam, inters);
  }

  /** The body of a control string, lone ESCs included. */
  lemma {:induction false} StringSilent(m: Mode, opener: byte, body: seq<byte>)
    requires m in {Text(opener == 0x5D), TextEscape(opener == 0x5D)} && Unended(opener, body)
    requires m.TextEscape? && body != [] ==> body[0] != 0x5C
    ensures Silent(m, body, Text(opener == 0x5D)) || Silent(m, body, TextEscape(opener == 0x5D))
    decreases |body|
  {
    if body == [] {
    } else {
      assert |body| > 1 ==> body[1..][0] == body[1];
      StringSilent(Step(m, body[0]).0, opener, body[1..]);
    }
  }

  lemma StringStripped(opener: byte, body: seq<byte>, end: seq<byte>, rest: seq<byte>)
    requires opener in {0x5D, 0x50, 0x58, 0x5E, 0x5F} && Unended(opener, body)
    requires end in {[0x1B, 0x5C], []} || (end == [0x07] && opener == 0x5D)
    requires end == [] ==> rest == []
    ensures Out(Ground, [0x1B, opener] + (body + end) + rest) == Out(Ground, rest)
  {
    var s, bel := [0x1B, opener] + (body + end) + rest, opener == 0x5D;
    assert s[0..] == s && s[2..] == body + (end + rest);
    Introduced(s, 0);
    StringSilent(Text(bel), opener, body);
    var m := After(Text(bel), body);
    SilentThen(Text(bel), body, m, end + rest);
    if end == [0x1B, 0x5C] {
      assert (end + rest)[1..][1..] == rest;
    } else if end == [0x07] {
      assert (end + rest)[1..] == rest;
    } else {
      assert end + rest == [];
    }
  }

  lemma SequenceStripped(params: seq<byte>, inters: seq<byte>, end: seq<byte>, rest: seq<byte>)
    requires Column(params, 0x30, 0x3F) && Column(inters, 0x20, 0x2F)
    requires (|end| == 1 && 0x40 <= end[0] <= 0x7E) || (end == [] && WellFormed(BrokenSequence(params, inters), rest))
    ensures Out(Ground, [0x1B, 0x5B] + (params + (inters + end)) + rest) == Out(Ground, rest)
  {
    var s := [0x1B, 0x5B] + (params + (inters + end)) + rest;
    assert s[0..] == s && s[2..] == (params + inters) + (end + rest);
    Introduced(s, 0);
    SequenceSilent(params, inters);
    var m := if inters == [] then CsiParam else CsiInter;
    SilentThen(CsiParam, params + inters, m, end + rest);
    if end == [] {
      assert end + rest == rest;
    } else {
      assert (end + rest)[1..] == rest;
    }
  }

  lemma EscapeStripped(inters: seq<byte>, end: seq<byte>, rest: seq<byte>)
    requires Column(inters, 0x20, 0x2F)
    requires (|end| == 1 && WellFormed(EscapeSequence(inters, end[0]), rest))
          || (end == [] && WellFormed(BrokenEscape(inters), rest))
    ensures Out(Ground, [0x1B] + (inters + end) + rest) == Out(Ground, rest)
  {
    var s := [0x1B] + (inters + end) + rest;
    assert s[1..] == inters + (end + rest);
    IntersSilent(Escape, EscapeInter, inters);
    var m := if inters == [] then Escape else EscapeInter;
    SilentThen(Escape, inters, m, end + rest);
    if end == [] {
      assert end + rest == rest;
    } else {
      assert (end + rest)[1..] == rest;
    }
  }

  lemma PieceStripped(p: Piece, rest: seq<byte>)
    requires WellFormed(p, rest)
    ensures Out(Ground, Render(p) + rest) == (if p.Char? then [p.c] else []) + Out(Ground, rest)
  {
    match p
    case Char(c) => PlainTextPasses([c], rest);
    case ControlSequence(params, inters, final) => SequenceStripped(params, inters, [final], rest);
    case ControlString(opener, body, byBel) => StringStripped(opener, body, if byBel then [0x07] else [0x1B, 0x5C], rest);
    case EscapeSequence(inters, final) => EscapeStripped(inters, [final], rest);
    case BrokenSequence(params, inters) =>
      assert inters + [] == inters;
      SequenceStripped(params, inters, [], rest);
    case BrokenEscape(inters) =>
      assert inters + [] == inters;
      EscapeStripped(inters, [], rest);
    case OpenString(opener, body) =>
      assert body + [] == body;
      StringStripped(opener, body, [], rest);
  }

  /** Stripping leaves exactly the text of a stream ... */
  lemma {:induction false} StripKeepsExactlyText(ps: seq<Piece>)
    requires Stream(ps)
    ensures Strip(RenderAll(ps)) == TextOf(ps)
  {
    if ps == [] {
    } else {
      PieceStripped(ps[0], RenderAll(ps[1..]));
      StripKeepsExactlyText(ps[1..]);
    }
  }

  /** Where the bytes from i on leave these columns. */
  function Span(s: seq<byte>, i: nat, lo: int, hi: int): (j: nat)
    requires i <= |s|
    ensures i <= j <= |s| && Column(s[i..j], lo, hi)
    ensures j < |s| ==> !(lo <= s[j] <= hi)
    decreases |s| - i
  {
    if i < |s| && lo <= s[i] <= hi then
      var j := Span(s, i + 1, lo, hi);
      assert s[i..j] == [s[i]] + s[i + 1..j];
      j
    else i
  }

  predicate EndsString(s: seq<byte>, bel: bool, j: nat)
    requires j < |s|
  {
    (bel && s[j] == 0x07) || (s[j] == 0x1B && j + 1 < |s| && s[j + 1] == 0x5C)
  }

  function StringEnd(s: seq<byte>, i: nat, bel: bool): (j: nat)
    requires i <= |s|
    ensures i <= j <= |s| && (j < |s| ==> EndsString(s, bel, j))
    ensures forall k :: i <= k < j ==> !EndsString(s, bel, k)
    decreases |s| - i
  {
    if i == |s| || EndsString(s, bel, i) then i else StringEnd(s, i + 1, bel)
  }

  lemma UpToEnd(s: seq<byte>, i: nat, opener: byte)
    requires i <= |s|
    ensures Unended(opener, s[i..StringEnd(s, i, opener == 0x5D)])
  {
    var body := s[i..StringEnd(s, i, opener == 0x5D)];
    forall k | 0 <= k < |body| - 1 ensures !(body[k] == 0x1B && body[k + 1] == 0x5C) {
      assert !EndsString(s, opener == 0x5D, i + k);
    }
    forall k | 0 <= k < |body| ensures opener == 0x5D ==> body[k] != 0x07 {
      assert !EndsString(s, opener == 0x5D, i + k);
    }
  }

  lemma Cut(s: seq<byte>, j: nat, k: nat)
    requires 2 <= j <= k <= |s|
    ensures s == [s[0], s[1]] + (s[2..j] + s[j..k]) + s[k..]
  {
    assert s == s[..2] + s[2..j] + s[j..k] + s[k..];
  }

  lemma FirstString(s: seq<byte>) returns (p: Piece, rest: seq<byte>)
    requires |s| > 1 && s[0] == 0x1B && s[1] in {0x5D, 0x50, 0x58, 0x5E, 0x5F}
    ensures s == Render(p) + rest && WellFormed(p, rest)
  {
    var j := StringEnd(s, 2, s[1] == 0x5D);
    UpToEnd(s, 2, s[1]);
    if j == |s| {
      p, rest := OpenString(s[1], s[2..j]), [];
    } else if s[1] == 0x5D && s[j] == 0x07 {
      p, rest := ControlString(s[1], s[2..j], true), s[j + 1..];
      Cut(s, j, j + 1);
      assert s[j..j + 1] == [0x07];
    } else {
      p, rest := ControlString(s[1], s[2..j], false), s[j + 2..];
      Cut(s, j, j + 2);
      assert s[j..j + 2] == [0x1B, 0x5C];
    }
  }

  lemma CutSequence(s: seq<byte>, a: nat, b: nat)
    requires 2 <= a <= b <= |s| && s[0] == 0x1B && s[1] == 0x5B
    ensures s == Render(BrokenSequence(s[2..a], s[a..b])) + s[b..]
    ensures b < |s| ==> s == Render(ControlSequence(s[2..a], s[a..b], s[b])) + s[b + 1..]
  {
    Cut(s, a, b);
    if b < |s| {
      Cut(s, a, b + 1);
      assert s[a..b + 1] == s[a..b] + [s[b]];
    }
  }

  lemma FirstSequence(s: seq<byte>) returns (p: Piece, rest: seq<byte>)
    requires |s| > 1 && s[0] == 0x1B && s[1] == 0x5B
    ensures s == Render(p) + rest && WellFormed(p, rest)
  {
    var a := Span(s, 2, 0x30, 0x3F);
    var b := Span(s, a, 0x20, 0x2F);
    CutSequence(s, a, b);
    if b < |s| && 0x40 <= s[b] <= 0x7E {
      p, rest := ControlSequence(s[2..a], s[a..b], s[b]), s[b + 1..];
    } else {
      p, rest := BrokenSequence(s[2..a], s[a..b]), s[b..];
    }
  }

  lemma FirstEscape(s: seq<byte>) returns (p: Piece, rest: seq<byte>)
    requires s != [] && s[0] == 0x1B && (|s| > 1 ==> s[1] !in {0x5B, 0x5D, 0x50, 0x58, 0x5E, 0x5F})
    ensures s == Render(p) + rest && WellFormed(p, rest)
  {
    var b := Span(s, 1, 0x20, 0x2F);
    if b < |s| && 0x30 <= s[b] <= 0x7E {
      p, rest := EscapeSequence(s[1..b], s[b]), s[b + 1..];
    } else {
      p, rest := BrokenEscape(s[1..b]), s[b..];
    }
  }

  /** ... and every byte string is one. */
  lemma {:induction false} EveryInputIsAStream(s: seq<byte>) returns (ps: seq<Piece>)
    ensures Stream(ps) && RenderAll(ps) == s
    decreases |s|
  {
    if s == [] {
      ps := [];
    } else {
      var p, rest;
      if s[0] != 0x1B {
        p, rest := Char(s[0]), s[1..];
      } else if |s| > 1 && s[1] == 0x5B {
        p, rest := FirstSequence(s);
      } else if |s| > 1 && s[1] in {0x5D, 0x50, 0x58, 0x5E, 0x5F} {
        p, rest := FirstString(s);
      } else {
        p, rest := FirstEscape(s);
      }
      var more := EveryInputIsAStream(rest);
      ps := [p] + more;
      assert ps[1..] == more;
    }
  }

  // --- Carriage returns --------------------------------------------------------------

  function DropCR(s: seq<byte>): (r: seq<byte>)
    ensures CR !in r
    ensures ESC !in s ==> ESC !in r
  {
    if s == [] then [] else (if s[0] == CR then [] else [s[0]]) + DropCR(s[1..])
  }

  lemma {:induction false} DropCRSplit(a: seq<byte>, b: seq<byte>)
    ensures DropCR(a + b) == DropCR(a) + DropCR(b)
  {
    if a == [] {
      assert a + b == b;
    } else {
      assert (a + b)[1..] == a[1..] + b;
      DropCRSplit(a[1..], b);
    }
  }

  lemma {:induction false} DropCRIdentity(s: seq<byte>)
    requires CR !in s
    ensures DropCR(s) == s
  {
    if s == [] {
    } else {
      DropCRIdentity(s[1..]);
    }
  }

  lemma DropsLeadingCR(b: seq<byte>)
    ensures DropCR([0x0D] + b) == DropCR(b)
  {
    assert ([0x0D] + b)[1..] == b;
  }

  /** It takes out the carriage returns and nothing else. */
  lemma DropsOnlyCR(a: seq<byte>, b: seq<byte>)
    requires 0x0D !in a
    ensures DropCR(a) == a && DropCR(a + ([0x0D] + b)) == a + DropCR(b)
  {
    DropCRIdentity(a);
    DropsLeadingCR(b);
    DropCRSplit(a, [0x0D] + b);
  }

  /** The text a wait matches against. */
  function MatchInput(s: seq<byte>): seq<byte> { DropCR(Strip(s)) }

  lemma MatchInputGrows(a: seq<byte>, b: seq<byte>)
    ensures MatchInput(a + b) == MatchInput(a) + DropCR(Out(After(Ground, a), b))
  {
    OutSplit(Ground, a, b);
    DropCRSplit(Strip(a), Out(After(Ground, a), b));
  }

  lemma MatchInputIdempotent(s: seq<byte>)
    ensures MatchInput(MatchInput(s)) == MatchInput(s)
    ensures ESC !in MatchInput(s)
  {
    var t := MatchInput(s);
    NoEscapeOut(Ground, s);
    PlainTextPasses(t, []);
    assert t + [] == t;
    DropCRIdentity(t);
  }

  method StripANSIAndCR(s: seq<byte>) returns (r: seq<byte>)
    ensures r == MatchInput(s)
  {
    r := StripANSI(s);
    if CR in r {
      r := DropCR(r);
    } else {
      DropCRIdentity(r);
    }
  }
}
