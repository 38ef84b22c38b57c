/** Hoisting of global flags (internal/cli/app.go, extractGlobals and Run). */
module GlobalFlags {
  import opened Bytes
  import opened Arguments

  /** What an argument before the subcommand is to the loop. */
  datatype Kind = Help | Version | Socket(joined: bool) | Stop

  /** A long flag's name, up to '='. */
  function UpToEquals(s: string): string {
    if s == [] || s[0] == '=' then [] else [s[0]] + UpToEquals(s[1..])
  }

  function KindOf(a: Arg): Kind {
    if a == "-h" then Help
    else if !IsLong(a) then Stop
    else
      var name := UpToEquals(a[2..]);
      if name == "help" then Help
      else if name == "h" then Help
      else if name == "version" then Version
      else if name == "tmux-socket" || name == "tmux-socket-name" then Socket('=' in a[2..])
      else Stop
  }

  datatype Extracted = Extracted(globals: seq<Arg>, help: bool, version: bool, remaining: seq<Arg>)

  /** Extraction, for any way of telling the kinds of arguments apart. */
  function Extract(kind: Arg -> Kind, args: seq<Arg>): Extracted
    decreases |args|
  {
    if args == [] then Extracted([], false, false, [])
    else
      match kind(args[0])
      case Help => Extract(kind, args[1..]).(help := true)
      case Version => Extract(kind, args[1..]).(version := true)
      case Stop => Extracted([], false, false, args)
      case Socket(joined) =>
        if joined || |args| == 1 then
          var rest := Extract(kind, args[1..]);
          rest.(globals := [args[0]] + rest.globals)
        else
          var rest := Extract(kind, args[2..]);
          rest.(globals := [args[0], args[1]] + rest.globals)
  }

  function ExtractAll(args: seq<Arg>): Extracted { Extract(KindOf, args) }

  /** What has been collected, put in front of what is still ahead. */
  function Joint(globals: seq<Arg>, help: bool, version: bool, e: Extracted): Extracted {
    Extracted(globals + e.globals, help || e.help, version || e.version, e.remaining)
  }

  /** Collected and ahead make the whole. */
  predicate Ahead(kind: Arg -> Kind, args: seq<Arg>, i: nat, globals: seq<Arg>, help: bool, version: bool)
    requires i <= |args|
  {
    Extract(kind, args) == Joint(globals, help, version, Extract(kind, args[i..]))
  }

  lemma AheadStep(kind: Arg -> Kind, args: seq<Arg>, i: nat, globals: seq<Arg>, help: bool, version: bool)
    requires i < |args| && Ahead(kind, args, i, globals, help, version)
    ensures match kind(args[i])
            case Help => Ahead(kind, args, i + 1, globals, true, version)
            case Version => Ahead(kind, args, i + 1, globals, help, true)
            case Stop => Extract(kind, args) == Extracted(globals, help, version, args[i..])
            case Socket(joined) =>
              if joined || i + 1 == |args| then Ahead(kind, args, i + 1, globals + [args[i]], help, version)
              else Ahead(kind, args, i + 2, globals + [args[i]] + [args[i + 1]], help, version)
  {
    var rest := args[i..];
    assert rest[1..] == args[i + 1..];
    match kind(args[i])
    case Help =>
    case Version =>
    case Stop =>
      assert globals + [] == globals;
    case Socket(joined) =>
      if joined || i + 1 == |args| {
        Assoc(globals, [args[i]], Extract(kind, args[i + 1..]).globals);
      } else {
        assert rest[2..] == args[i + 2..];
        assert [args[i], args[i + 1]] == [args[i]] + [args[i + 1]];
        Assoc(globals, [args[i]] + [args[i + 1]], Extract(kind, args[i + 2..]).globals);
        Assoc(globals, [args[i]], [args[i + 1]]);
      }
  }

  lemma AheadDone(kind: Arg -> Kind, args: seq<Arg>, globals: seq<Arg>, help: bool, version: bool)
    requires Ahead(kind, args, |args|, globals, help, version)
    ensures Extract(kind, args) == Extracted(globals, help, version, [])
  {
    assert args[|args|..] == [];
    assert globals + [] == globals;
  }

  method ExtractGlobals(args: seq<Arg>) returns (globals: seq<Arg>, help: bool, version: bool, remaining: seq<Arg>)
    ensures Extracted(globals, help, version, remaining) == ExtractAll(args)
  {
    globals, help, version := [], false, false;
    var i := 0;
    assert args[0..] == args;
    while i < |args|
      invariant 0 <= i <= |args|
      invariant Ahead(KindOf, args, i, globals, help, version)
    {
      AheadStep(KindOf, args, i, globals, help, version);
      var kind := Classify(args[i]);
      if kind.Stop? {
        return globals, help, version, args[i..];
      } else if kind.Help? {
        help := true;
        i := i + 1;
      } else if kind.Version? {
        version := true;
        i := i + 1;
      } else {
        globals := globals + [args[i]];
        if kind.joined || i + 1 >= |args| {
          i := i + 1;
          continue;
        }
        globals := globals + [args[i + 1]];
        i := i + 2;
      }
    }
    AheadDone(KindOf, args, globals, help, version);
    return globals, help, version, args[i..];
  }

  /** The loop's tests on one argument. */
  method Classify(a: Arg) returns (kind: Kind)
    ensures kind == KindOf(a)
  {
    if a == "--" {
      return Stop;
    }
    var name, hasEq := "", false;
    if |a| > 2 && a[..2] == "--" {
      name, hasEq := UpToEquals(a[2..]), '=' in a[2..];
    } else if a == "-h" {
      name := "h";
    } else {
      return Stop;
    }
    if name == "help" || name == "h" {
      return Help;
    } else if name == "version" {
      return Version;
    } else if name == "tmux-socket" || name == "tmux-socket-name" {
      return Socket(hasEq);
    }
    return Stop;
  }

  // --- As written on the command line -----------------------------------------------------

  /** --name or --name=value */
  ghost predicate Named(a: Arg, name: string) {
    a == "--" + name || JoinedAs(a, name)
  }

  ghost predicate JoinedAs(a: Arg, name: string) { exists value: string :: a == JoinedTo(name, value) }

  function JoinedTo(name: string, value: string): Arg { "--" + (name + ("=" + value)) }

  ghost predicate AsksHelp(a: Arg) { a == "-h" || Named(a, "h") || Named(a, "help") }

  ghost predicate AsksVersion(a: Arg) { Named(a, "version") }

  predicate BareSocket(a: Arg) { a == "--" + "tmux-socket" || a == "--" + "tmux-socket-name" }

  ghost predicate JoinedSocket(a: Arg) { JoinedAs(a, "tmux-socket") || JoinedAs(a, "tmux-socket-name") }

  /** The subcommand, "--", or anything else that is no global flag. */
  ghost predicate NoGlobal(a: Arg) {
    !AsksHelp(a) && !AsksVersion(a) && !BareSocket(a) && !JoinedSocket(a)
  }

  lemma {:induction false} NameIsPrefix(s: string)
    ensures UpToEquals(s) <= s && '=' !in UpToEquals(s)
    ensures |UpToEquals(s)| < |s| ==> s[|UpToEquals(s)|] == '='
    ensures '=' in s <==> |UpToEquals(s)| < |s|
  {
    if s == [] || s[0] == '=' {
    } else {
      NameIsPrefix(s[1..]);
      assert s == [s[0]] + s[1..];
    }
  }

  lemma {:induction false} NameBeforeEquals(name: string, rest: string)
    requires '=' !in name && (rest == "" || rest[0] == '=')
    ensures UpToEquals(name + rest) == name
  {
    if name == "" {
      assert name + rest == rest;
    } else {
      assert (name + rest)[1..] == name[1..] + rest;
      NameBeforeEquals(name[1..], rest);
    }
  }

  lemma NamedIff(a: Arg, name: string)
    requires name != "" && '=' !in name
    ensures Named(a, name) <==> IsLong(a) && UpToEquals(a[2..]) == name
    ensures Named(a, name) ==> ('=' in a[2..] <==> a != "--" + name)
  {
    if a == "--" + name {
      assert a[2..] == name && name + "" == name;
      NameBeforeEquals(name, "");
    }
    forall value: string | a == JoinedTo(name, value)
      ensures IsLong(a) && UpToEquals(a[2..]) == name && '=' in a[2..]
    {
      assert a[2..] == name + ("=" + value);
      assert a[2..][|name|] == '=';
      NameBeforeEquals(name, "=" + value);
    }
    if IsLong(a) && UpToEquals(a[2..]) == name {
      NameIsPrefix(a[2..]);
      if name == a[2..] {
        assert a == "--" + name;
      } else {
        assert a == JoinedTo(name, a[2..][|name| + 1..]);
      }
    }
  }

  lemma JoinedIff(a: Arg, name: string)
    requires name != "" && '=' !in name
    ensures a == "--" + name <==> IsLong(a) && UpToEquals(a[2..]) == name && '=' !in a[2..]
    ensures JoinedAs(a, name) <==> IsLong(a) && UpToEquals(a[2..]) == name && '=' in a[2..]
  {
    NamedIff(a, name);
    if a == "--" + name {
      assert a[2..] == name;
    }
    forall value: string | a == JoinedTo(name, value) ensures a != "--" + name {
      assert a[2..] == name + ("=" + value);
    }
  }

  lemma SocketsIff(a: Arg)
    ensures BareSocket(a) <==> KindOf(a) == Socket(false)
    ensures JoinedSocket(a) <==> KindOf(a) == Socket(true)
  {
    JoinedIff(a, "tmux-socket");
    JoinedIff(a, "tmux-socket-name");
  }

  lemma QuestionsIff(a: Arg)
    ensures AsksHelp(a) <==> KindOf(a) == Help
    ensures AsksVersion(a) <==> KindOf(a) == Version
  {
    NamedIff(a, "h");
    NamedIff(a, "help");
    NamedIff(a, "version");
  }

  /** The program's tests, against the spellings. */
  lemma KindIff(a: Arg)
    ensures KindOf(a) == Help <==> AsksHelp(a)
    ensures KindOf(a) == Version <==> AsksVersion(a)
    ensures KindOf(a) == Socket(false) <==> BareSocket(a)
    ensures KindOf(a) == Socket(true) <==> JoinedSocket(a)
    ensures KindOf(a) == Stop <==> NoGlobal(a)
  {
    QuestionsIff(a);
    SocketsIff(a);
  }

  /** What may stand before the subcommand. */
  datatype Global = HelpFlag(flag: Arg) | VersionFlag(flag: Arg) | Joined(flag: Arg) | Split(flag: Arg, value: Arg)

  ghost predicate Proper(g: Global) {
    match g
    case HelpFlag(f) => AsksHelp(f)
    case VersionFlag(f) => AsksVersion(f)
    case Joined(f) => JoinedSocket(f)
    case Split(f, _) => BareSocket(f)
  }

  function Spell(g: Global): seq<Arg> { if g.Split? then [g.flag, g.value] else [g.flag] }

  function SpellAll(gs: seq<Global>): seq<Arg> {
    if gs == [] then [] else Spell(gs[0]) + SpellAll(gs[1..])
  }

  /** The socket flags among them, with their values, in order. */
  function Sockets(gs: seq<Global>): seq<Arg> {
    if gs == [] then []
    else (if gs[0].Joined? || gs[0].Split? then Spell(gs[0]) else []) + Sockets(gs[1..])
  }

  predicate Lonely(tail: seq<Arg>) { |tail| == 1 && BareSocket(tail[0]) }

  ghost predicate ProperTail(tail: seq<Arg>) { tail == [] || NoGlobal(tail[0]) || Lonely(tail) }

  lemma LeftAlone(kind: Arg -> Kind, tail: seq<Arg>)
    requires tail == [] || kind(tail[0]) == Stop
    ensures Extract(kind, tail) == Extracted([], false, false, tail)
  {
  }

  lemma LonelyExtracted(kind: Arg -> Kind, a: Arg)
    requires kind(a) == Socket(false)
    ensures Extract(kind, [a]) == Extracted([a], false, false, [])
  {
    assert [a][1..] == [] && [a] + [] == [a];
  }

  lemma TailExtracted(tail: seq<Arg>)
    requires ProperTail(tail)
    ensures ExtractAll(tail) == Extracted(if Lonely(tail) then tail else [], false, false, if Lonely(tail) then [] else tail)
  {
    if tail == [] {
      LeftAlone(KindOf, tail);
    } else {
      KindIff(tail[0]);
      if Lonely(tail) {
        LonelyExtracted(KindOf, tail[0]);
        assert tail == [tail[0]];
      } else {
        LeftAlone(KindOf, tail);
      }
    }
  }

  lemma GlobalExtracted(g: Global, rest: seq<Arg>)
    requires Proper(g)
    ensures var e := ExtractAll(rest);
            ExtractAll(Spell(g) + rest)
              == Extracted((if g.Joined? || g.Split? then Spell(g) else []) + e.globals,
                           e.help || g.HelpFlag?, e.version || g.VersionFlag?, e.remaining)
  {
    KindIff(g.flag);
    assert (Spell(g) + rest)[|Spell(g)|..] == rest;
    assert [] + ExtractAll(rest).globals == ExtractAll(rest).globals;
  }

  /** All four results, for anything written before the subcommand: the socket flags in
      order, whether help and version were asked for, and what is left. A socket flag at
      the very end that lacks its value goes with the others. */
  lemma {:induction false} ExtractedWritten(gs: seq<Global>, tail: seq<Arg>)
    requires (forall g <- gs :: Proper(g)) && ProperTail(tail)
    ensures var e := ExtractAll(SpellAll(gs) + tail);
            && e.globals == Sockets(gs) + (if Lonely(tail) then tail else [])
            && (e.help <==> exists g <- gs :: g.HelpFlag?)
            && (e.version <==> exists g <- gs :: g.VersionFlag?)
            && e.remaining == if Lonely(tail) then [] else tail
  {
    if gs == [] {
      assert SpellAll(gs) + tail == tail;
      TailExtracted(tail);
    } else {
      ExtractedWritten(gs[1..], tail);
      assert Proper(gs[0]);
      Assoc(Spell(gs[0]), SpellAll(gs[1..]), tail);
      GlobalExtracted(gs[0], SpellAll(gs[1..]) + tail);
      assert forall g :: g in gs <==> g == gs[0] || g in gs[1..];
      Assoc(if gs[0].Joined? || gs[0].Split? then Spell(gs[0]) else [], Sockets(gs[1..]), if Lonely(tail) then tail else []);
    }
  }

  /** And every argument list is so written. */
  lemma {:induction false} EveryListIsWritten(args: seq<Arg>) returns (gs: seq<Global>, tail: seq<Arg>)
    ensures (forall g <- gs :: Proper(g)) && SpellAll(gs) + tail == args
    ensures ProperTail(tail)
    decreases |args|
  {
    if ProperTail(args) {
      gs, tail := [], args;
      assert [] + args == args;
    } else {
      var g := if AsksHelp(args[0]) then HelpFlag(args[0]) else if AsksVersion(args[0]) then VersionFlag(args[0])
               else if BareSocket(args[0]) then Split(args[0], args[1]) else Joined(args[0]);
      var more;
      more, tail := EveryListIsWritten(args[|Spell(g)|..]);
      gs := [g] + more;
      assert gs[1..] == more;
      assert args == Spell(g) + args[|Spell(g)|..];
      Assoc(Spell(g), SpellAll(more), tail);
    }
  }

  lemma {:induction false} SpellSockets(gs: seq<Global>)
    requires forall g <- gs :: g.Joined? || g.Split?
    ensures Sockets(gs) == SpellAll(gs)
  {
    if gs == [] {
    } else {
      assert gs[0] in gs;
      SpellSockets(gs[1..]);
    }
  }

  lemma {:induction false} SpellSplit(a: seq<Global>, b: seq<Global>)
    ensures SpellAll(a + b) == SpellAll(a) + SpellAll(b)
  {
    if a == [] {
      assert a + b == b;
    } else {
      assert (a + b)[1..] == a[1..] + b;
      SpellSplit(a[1..], b);
      Assoc(Spell(a[0]), SpellAll(a[1..]), SpellAll(b));
    }
  }

  /** What Run hands to the subcommand: the globals put back in front of its own arguments. */
  function SubArgs(e: Extracted): seq<Arg>
    requires e.remaining != []
  {
    e.globals + e.remaining[1..]
  }

  /** Socket flags may stand before the subcommand, just after it, or some of each: the
      subcommand is the same and gets the same arguments. */
  lemma SocketFlagsEitherSide(before: seq<Global>, after: seq<Global>, sub: Arg, rest: seq<Arg>)
    requires forall g <- before :: Proper(g) && (g.Joined? || g.Split?)
    requires NoGlobal(sub)
    ensures var e := ExtractAll(SpellAll(before) + ([sub] + (SpellAll(after) + rest)));
            && e.remaining != [] && e.remaining[0] == sub && !e.help && !e.version
            && SubArgs(e) == SpellAll(before + after) + rest
  {
    var own := SpellAll(after) + rest;
    ExtractedWritten(before, [sub] + own);
    SpellSockets(before);
    assert ([sub] + own)[1..] == own;
    assert Sockets(before) + [] == Sockets(before);
    SpellSplit(before, after);
    Assoc(SpellAll(before), SpellAll(after), rest);
  }
}
