/** Quoting a path for the user's shell (internal/tmuxctl/subscribe_unix.go, shellQuote). */
module ShellQuote {
  import opened Bytes

  // --- The shell's side: section 2.2 of the POSIX Shell Command Language ----------------

  // 0x27 is ', 0x22 is ", 0x5C is \, 0x24 is $, 0x60 is `.

  /** How the next byte is read. */
  datatype Quoting = Plain | Escaped | InSingle | InDouble | EscapedInDouble

  /** A byte of the word after quote removal, and whether it was quoted. */
  datatype Read = Read(c: byte, quoted: bool)

  /** Unquoted, these end the word or start an expansion: | & ; < > ( ) $ ` and blanks. */
  predicate BreaksWord(c: byte) {
    c in {0x7C, 0x26, 0x3B, 0x3C, 0x3E, 0x28, 0x29, 0x20, 0x09, 0x0A} || c == 0x24 || c == 0x60
  }

  /** Read `text` to its end as (the rest of) one word; None if it is not one. */
  function ReadWord(q: Quoting, text: seq<byte>): Option<seq<Read>>
    decreases |text|
  {
    if text == [] then (if q.Plain? then Some([]) else None)
    else
      var c, rest := text[0], text[1..];
      match q
      case Plain =>
        if c == 0x27 then ReadWord(InSingle, rest)
        else if c == 0x22 then ReadWord(InDouble, rest)
        else if c == 0x5C then ReadWord(Escaped, rest)
        else if BreaksWord(c) then None
        else Prepend([Read(c, false)], ReadWord(Plain, rest))
      case Escaped =>
        if c == 0x0A then ReadWord(Plain, rest) else Prepend([Read(c, true)], ReadWord(Plain, rest))
      case InSingle =>
        if c == 0x27 then ReadWord(Plain, rest) else Prepend([Read(c, true)], ReadWord(InSingle, rest))
      case InDouble =>
        if c == 0x22 then ReadWord(Plain, rest)
        else if c == 0x5C then ReadWord(EscapedInDouble, rest)
        else if c == 0x24 || c == 0x60 then None
        else Prepend([Read(c, true)], ReadWord(InDouble, rest))
      case EscapedInDouble =>
        if c == 0x0A then ReadWord(InDouble, rest)
        else if c in {0x24, 0x60, 0x22, 0x5C} then Prepend([Read(c, true)], ReadWord(InDouble, rest))
        else Prepend([Read(0x5C, true), Read(c, true)], ReadWord(InDouble, rest))
  }

  function Prepend(rs: seq<Read>, word: Option<seq<Read>>): Option<seq<Read>> {
    if word.None? then None else Some(rs + word.value)
  }

  // --- The program's side -------------------------------------------------------------------

  const SINGLE: byte := 0x27
  const BACKSLASH: byte := 0x5C

  function Body(s: seq<byte>): seq<byte> {
    if s == [] then []
    else (if s[0] == SINGLE then [SINGLE, BACKSLASH, SINGLE, SINGLE] else [s[0]]) + Body(s[1..])
  }

  function Quoted(s: seq<byte>): seq<byte> { [SINGLE] + Body(s) + [SINGLE] }

  method Quote(s: seq<byte>) returns (b: seq<byte>)
    ensures b == Quoted(s)
  {
    b := [SINGLE];
    for i := 0 to |s|
      invariant b + Body(s[i..]) == [SINGLE] + Body(s)
    {
      assert s[i..][1..] == s[i + 1..];
      if s[i] == SINGLE {
        b := b + [SINGLE, BACKSLASH, SINGLE, SINGLE];
      } else {
        b := b + [s[i]];
      }
    }
    assert s[|s|..] == [];
    b := b + [SINGLE];
  }

  // --- Round trip ------------------------------------------------------------------------------

  function AllQuoted(s: seq<byte>): seq<Read> {
    seq(|s|, i requires 0 <= i < |s| => Read(s[i], true))
  }

  /** '\'' inside single quotes reads back as one quoted quote. */
  lemma QuoteInQuotes(rest: seq<byte>)
    ensures ReadWord(InSingle, [SINGLE, BACKSLASH, SINGLE, SINGLE] + rest)
         == Prepend([Read(SINGLE, true)], ReadWord(InSingle, rest))
  {
    var t := [SINGLE, BACKSLASH, SINGLE, SINGLE] + rest;
    assert t[1..][0] == BACKSLASH && t[1..][1..][0] == SINGLE && t[1..][1..][1..][0] == SINGLE;
    assert t[1..][1..][1..][1..] == rest;
    assert ReadWord(InSingle, t) == ReadWord(Escaped, t[1..][1..]);
  }

  lemma {:induction false} BodyReadsBack(s: seq<byte>, rest: seq<byte>)
    ensures ReadWord(InSingle, Body(s) + ([SINGLE] + rest)) == Prepend(AllQuoted(s), ReadWord(Plain, rest))
  {
    var end := [SINGLE] + rest;
    if s == [] {
      assert Body(s) + end == end && end[1..] == rest;
      assert ReadWord(Plain, rest).Some? ==> [] + ReadWord(Plain, rest).value == ReadWord(Plain, rest).value;
    } else {
      BodyReadsBack(s[1..], rest);
      var tail := Body(s[1..]) + end;
      assert AllQuoted(s) == [Read(s[0], true)] + AllQuoted(s[1..]);
      if s[0] == SINGLE {
        assert Body(s) + end == [SINGLE, BACKSLASH, SINGLE, SINGLE] + tail;
        QuoteInQuotes(tail);
      } else {
        assert (Body(s) + end)[1..] == tail;
      }
      if ReadWord(Plain, rest).Some? {
        var w := ReadWord(Plain, rest).value;
        assert [Read(s[0], true)] + (AllQuoted(s[1..]) + w) == AllQuoted(s) + w;
      }
    }
  }

  /** In any word it begins, the quoted string reads back as exactly s with every byte
      quoted: none of s is ever exposed to the shell. */
  lemma QuotedReadsBack(s: seq<byte>, rest: seq<byte>)
    ensures ReadWord(Plain, Quoted(s) + rest) == Prepend(AllQuoted(s), ReadWord(Plain, rest))
    ensures ReadWord(Plain, Quoted(s)) == Some(AllQuoted(s))
  {
    BodyReadsBack(s, rest);
    assert (Quoted(s) + rest)[1..] == Body(s) + ([SINGLE] + rest);
    BodyReadsBack(s, []);
    assert Quoted(s)[1..] == Body(s) + ([SINGLE] + []);
    assert AllQuoted(s) + [] == AllQuoted(s);
  }
}
