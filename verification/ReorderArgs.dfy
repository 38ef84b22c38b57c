/** Promotion of flags ahead of positionals (internal/cli/app.go, reorderArgs). */
module ReorderArgs {
  import opened Bytes
  import opened Arguments

  const DASHES: Arg := "--"

  /** How the loop treats an argument by itself: "--"; a long flag that takes the next
      argument; any other flag; or a positional. `bools` are the flags without a value. */
  datatype Kind = Marker | TakesNext | SelfContained | Plain

  function KindOf(a: Arg, bools: set<string>): (k: Kind)
    ensures k == Marker <==> a == DASHES
  {
    if |a| == 2 && a[0] == '-' && a[1] == '-' then Marker
    else if IsLong(a) then (if '=' in a[2..] || a[2..] in bools then SelfContained else TakesNext)
    else if |a| > 1 && a[0] == '-' && a[1] != '-' then SelfContained
    else Plain
  }

  // --- What an argument list means ---------------------------------------------------------

  datatype Item = Flag(flag: Arg) | FlagWith(flag: Arg, value: Arg) | Positional(arg: Arg)

  /** How the list ends: plainly, with "--" and literal arguments, or with a flag whose
      value is missing. */
  datatype Ending = End | Literal(rest: seq<Arg>) | Dangling(flag: Arg)

  datatype Parsed = Parsed(items: seq<Item>, ending: Ending)

  predicate ValidItem(item: Item, bools: set<string>) {
    match item
    case Flag(f) => KindOf(f, bools) == SelfContained
    case FlagWith(f, _) => KindOf(f, bools) == TakesNext
    case Positional(a) => KindOf(a, bools) == Plain
  }

  predicate Valid(p: Parsed, bools: set<string>) {
    && (forall item <- p.items :: ValidItem(item, bools))
    && (p.ending.Dangling? ==> KindOf(p.ending.flag, bools) == TakesNext)
  }

  function Tokens(item: Item): seq<Arg> {
    match item
    case Flag(f) => [f]
    case FlagWith(f, v) => [f, v]
    case Positional(a) => [a]
  }

  function EndTokens(e: Ending): seq<Arg> {
    match e
    case End => []
    case Literal(rest) => [DASHES] + rest
    case Dangling(f) => [f]
  }

  function RenderItems(items: seq<Item>): seq<Arg> {
    if items == [] then [] else Tokens(items[0]) + RenderItems(items[1..])
  }

  function Render(p: Parsed): seq<Arg> { RenderItems(p.items) + EndTokens(p.ending) }

  function Cons(item: Item, p: Parsed): Parsed { p.(items := [item] + p.items) }

  function Parse(args: seq<Arg>, bools: set<string>): (p: Parsed)
    decreases |args|
  {
    if args == [] then Parsed([], End)
    else
      var a := args[0];
      match KindOf(a, bools)
      case Marker => Parsed([], Literal(args[1..]))
      case TakesNext =>
        if |args| == 1 then Parsed([], Dangling(a))
        else Cons(FlagWith(a, args[1]), Parse(args[2..], bools))
      case SelfContained => Cons(Flag(a), Parse(args[1..], bools))
      case Plain => Cons(Positional(a), Parse(args[1..], bools))
  }

  lemma RenderCons(item: Item, p: Parsed)
    ensures Render(Cons(item, p)) == Tokens(item) + Render(p)
  {
    assert ([item] + p.items)[1..] == p.items;
  }

  /** Every argument list has a valid reading that renders back to it ... */
  lemma {:induction false} ParseIsFaithful(args: seq<Arg>, bools: set<string>)
    ensures Valid(Parse(args, bools), bools)
    ensures Render(Parse(args, bools)) == args
    decreases |args|
  {
    if args == [] {
    } else {
      var a := args[0];
      match KindOf(a, bools)
      case Marker =>
        assert [DASHES] + args[1..] == args;
      case TakesNext =>
        if |args| > 1 {
          ParseIsFaithful(args[2..], bools);
          RenderCons(FlagWith(a, args[1]), Parse(args[2..], bools));
        }
      case SelfContained =>
        ParseIsFaithful(args[1..], bools);
        RenderCons(Flag(a), Parse(args[1..], bools));
      case Plain =>
        ParseIsFaithful(args[1..], bools);
        RenderCons(Positional(a), Parse(args[1..], bools));
    }
  }

  lemma ParseItem(item: Item, rest: seq<Arg>, bools: set<string>)
    requires ValidItem(item, bools)
    ensures Parse(Tokens(item) + rest, bools) == Cons(item, Parse(rest, bools))
  {
    assert (Tokens(item) + rest)[|Tokens(item)|..] == rest;
  }

  lemma ParseEnding(e: Ending, bools: set<string>)
    requires e.Dangling? ==> KindOf(e.flag, bools) == TakesNext
    ensures Parse(EndTokens(e), bools) == Parsed([], e)
  {
    if e.Literal? {
      assert ([DASHES] + e.rest)[1..] == e.rest;
    }
  }

  lemma {:induction false} ParsePastItems(items: seq<Item>, rest: seq<Arg>, bools: set<string>)
    requires forall item <- items :: ValidItem(item, bools)
    ensures Parse(RenderItems(items) + rest, bools)
         == Parse(rest, bools).(items := items + Parse(rest, bools).items)
  {
    if items == [] {
      assert RenderItems(items) + rest == rest;
      assert [] + Parse(rest, bools).items == Parse(rest, bools).items;
    } else {
      Assoc(Tokens(items[0]), RenderItems(items[1..]), rest);
      assert ValidItem(items[0], bools);
      ParseItem(items[0], RenderItems(items[1..]) + rest, bools);
      ParsePastItems(items[1..], rest, bools);
      assert [items[0]] + items[1..] == items;
      Assoc([items[0]], items[1..], Parse(rest, bools).items);
    }
  }

  /** ... and only one. */
  lemma ParseIsUnique(p: Parsed, bools: set<string>)
    requires Valid(p, bools)
    ensures Parse(Render(p), bools) == p
  {
    ParsePastItems(p.items, EndTokens(p.ending), bools);
    ParseEnding(p.ending, bools);
    assert p.items + [] == p.items;
  }

  // --- Reordering ----------------------------------------------------------------------------

  function Flags(items: seq<Item>): (flags: seq<Item>)
    ensures forall f <- flags :: f in items && !f.Positional?
  {
    if items == [] then []
    else (if items[0].Positional? then [] else [items[0]]) + Flags(items[1..])
  }

  function Positionals(items: seq<Item>): seq<Arg> {
    if items == [] then []
    else (if items[0].Positional? then [items[0].arg] else []) + Positionals(items[1..])
  }

  function AllFlags(p: Parsed): seq<Arg> {
    RenderItems(Flags(p.items)) + if p.ending.Dangling? then [p.ending.flag] else []
  }

  function AllPositionals(p: Parsed): seq<Arg> {
    Positionals(p.items) + if p.ending.Literal? then p.ending.rest else []
  }

  /** Flags with their values in order, one "--", then the positionals in order. */
  function Arranged(p: Parsed): seq<Arg> {
    AllFlags(p) + [DASHES] + AllPositionals(p)
  }

  function Reordered(args: seq<Arg>, bools: set<string>): seq<Arg> { Arranged(Parse(args, bools)) }

  lemma ConsFlags(item: Item, p: Parsed)
    ensures AllFlags(Cons(item, p)) == (if item.Positional? then [] else Tokens(item)) + AllFlags(p)
  {
    var end: seq<Arg> := if p.ending.Dangling? then [p.ending.flag] else [];
    assert ([item] + p.items)[1..] == p.items;
    if item.Positional? {
      assert Flags([item] + p.items) == [] + Flags(p.items) == Flags(p.items);
    } else {
      assert ([item] + Flags(p.items))[1..] == Flags(p.items);
      Assoc(Tokens(item), RenderItems(Flags(p.items)), end);
    }
  }

  lemma ConsPositionals(item: Item, p: Parsed)
    ensures AllPositionals(Cons(item, p)) == (if item.Positional? then [item.arg] else []) + AllPositionals(p)
  {
    assert ([item] + p.items)[1..] == p.items;
    Assoc(if item.Positional? then [item.arg] else [], Positionals(p.items), if p.ending.Literal? then p.ending.rest else []);
  }

  lemma ConsSplits(item: Item, p: Parsed)
    ensures AllFlags(Cons(item, p)) == (if item.Positional? then [] else Tokens(item)) + AllFlags(p)
    ensures AllPositionals(Cons(item, p)) == (if item.Positional? then [item.arg] else []) + AllPositionals(p)
  {
    ConsFlags(item, p);
    ConsPositionals(item, p);
  }

  /** What remains to be put out at index i, one loop iteration further. */
  lemma Ahead(args: seq<Arg>, bools: set<string>, i: nat)
    requires i < |args|
    ensures var p, a := Parse(args[i..], bools), args[i];
            match KindOf(a, bools)
            case Marker => AllFlags(p) == [] && AllPositionals(p) == args[i + 1..]
            case TakesNext =>
              if i + 1 == |args| then AllFlags(p) == [a] && AllPositionals(p) == []
              else var q := Parse(args[i + 2..], bools);
                   AllFlags(p) == [a, args[i + 1]] + AllFlags(q) && AllPositionals(p) == AllPositionals(q)
            case SelfContained =>
              var q := Parse(args[i + 1..], bools);
              AllFlags(p) == [a] + AllFlags(q) && AllPositionals(p) == AllPositionals(q)
            case Plain =>
              var q := Parse(args[i + 1..], bools);
              AllFlags(p) == AllFlags(q) && AllPositionals(p) == [a] + AllPositionals(q)
  {
    var rest := args[i..];
    assert rest[1..] == args[i + 1..];
    match KindOf(args[i], bools)
    case Marker =>
    case TakesNext =>
      if i + 1 < |args| {
        assert rest[2..] == args[i + 2..];
        ConsSplits(FlagWith(args[i], args[i + 1]), Parse(rest[2..], bools));
      }
    case SelfContained => ConsSplits(Flag(args[i]), Parse(rest[1..], bools));
    case Plain => ConsSplits(Positional(args[i]), Parse(rest[1..], bools));
  }

  /** What has been put out so far and what is still ahead make the whole. */
  predicate Collected(args: seq<Arg>, bools: set<string>, i: nat, flags: seq<Arg>, positionals: seq<Arg>)
    requires i <= |args|
  {
    && flags + AllFlags(Parse(args[i..], bools)) == AllFlags(Parse(args, bools))
    && positionals + AllPositionals(Parse(args[i..], bools)) == AllPositionals(Parse(args, bools))
  }

  lemma AllCollected(args: seq<Arg>, bools: set<string>, flags: seq<Arg>, positionals: seq<Arg>)
    requires Collected(args, bools, |args|, flags, positionals)
    ensures flags == AllFlags(Parse(args, bools)) && positionals == AllPositionals(Parse(args, bools))
  {
    assert args[|args|..] == [];
    assert flags + [] == flags && positionals + [] == positionals;
  }

  lemma CollectedStep(args: seq<Arg>, bools: set<string>, i: nat, flags: seq<Arg>, positionals: seq<Arg>)
    requires i < |args| && Collected(args, bools, i, flags, positionals)
    ensures var a := args[i];
            match KindOf(a, bools)
            case Marker => Collected(args, bools, |args|, flags, positionals + args[i + 1..])
            case TakesNext =>
              if i + 1 == |args| then Collected(args, bools, i + 1, flags + [a], positionals)
              else Collected(args, bools, i + 2, flags + [a] + [args[i + 1]], positionals)
            case SelfContained => Collected(args, bools, i + 1, flags + [a], positionals)
            case Plain => Collected(args, bools, i + 1, flags, positionals + [a])
  {
    Ahead(args, bools, i);
    var a := args[i];
    match KindOf(a, bools)
    case Marker =>
    case TakesNext =>
      if i + 1 < |args| {
        assert [a, args[i + 1]] == [a] + [args[i + 1]];
        Assoc(flags, [a], [args[i + 1]]);
        Assoc(flags, [a] + [args[i + 1]], AllFlags(Parse(args[i + 2..], bools)));
      }
    case SelfContained => Assoc(flags, [a], AllFlags(Parse(args[i + 1..], bools)));
    case Plain => Assoc(positionals, [a], AllPositionals(Parse(args[i + 1..], bools)));
  }

  /** The loop puts out exactly the arrangement of what its input means. */
  method ReorderArgs(args: seq<Arg>, bools: set<string>) returns (out: seq<Arg>)
    ensures out == Reordered(args, bools)
  {
    var flags: seq<Arg>, positionals: seq<Arg> := [], [];
    var i := 0;
    assert args[0..] == args;
    while i < |args|
      invariant 0 <= i <= |args|
      invariant Collected(args, bools, i, flags, positionals)
    {
      i, flags, positionals := Collect(args, bools, i, flags, positionals);
    }
    AllCollected(args, bools, flags, positionals);
    out := flags + [DASHES] + positionals;
  }

  /** The loop's body. */
  method Collect(args: seq<Arg>, bools: set<string>, i: nat, flags: seq<Arg>, positionals: seq<Arg>)
    returns (next: nat, flags': seq<Arg>, positionals': seq<Arg>)
    requires i < |args| && Collected(args, bools, i, flags, positionals)
    ensures i < next <= |args| && Collected(args, bools, next, flags', positionals')
  {
    var a := args[i];
    next, flags', positionals' := i + 1, flags, positionals;
    CollectedStep(args, bools, i, flags, positionals);
    if a == DASHES {
      positionals' := positionals + args[i + 1..];
      next := |args|;
    } else if IsLong(a) {
      var name := a[2..];
      flags' := flags + [a];
      assert KindOf(a, bools) == if '=' in name || name in bools then SelfContained else TakesNext;
      if '=' !in name && name !in bools && i + 1 < |args| {
        flags' := flags' + [args[i + 1]];
        next := i + 2;
      }
    } else if |a| > 1 && a[0] == '-' && a[1] != '-' {
      flags' := flags + [a];
      assert KindOf(a, bools) == SelfContained;
    } else {
      positionals' := positionals + [a];
      assert KindOf(a, bools) == Plain;
    }
  }

  /** However complete flag groups and positionals are interleaved, and whatever literal
      arguments follow "--", they come out as groups, "--", positionals. So lists with the
      same groups and the same positionals give the same output. */
  lemma InterleavingIrrelevant(items: seq<Item>, rest: Option<seq<Arg>>, bools: set<string>)
    requires forall item <- items :: ValidItem(item, bools)
    ensures Reordered(Render(Parsed(items, if rest.None? then End else Literal(rest.value))), bools)
         == RenderItems(Flags(items)) + [DASHES] + (Positionals(items) + rest.GetOr([]))
  {
    var p := Parsed(items, if rest.None? then End else Literal(rest.value));
    ParseIsUnique(p, bools);
    assert RenderItems(Flags(items)) + [] == RenderItems(Flags(items));
  }

  lemma {:induction false} FlagsHaveNoPositionals(items: seq<Item>)
    requires forall f <- items :: !f.Positional?
    ensures Flags(items) == items && Positionals(items) == []
  {
    if items == [] {
    } else {
      assert !items[0].Positional?;
      FlagsHaveNoPositionals(items[1..]);
    }
  }

  /** What properly ended input gives, read again, is the same arrangement. */
  lemma ReadAgainProper(p: Parsed, bools: set<string>)
    requires Valid(p, bools) && !p.ending.Dangling?
    ensures Reordered(Arranged(p), bools) == Arranged(p)
  {
    var again := Parsed(Flags(p.items), Literal(AllPositionals(p)));
    FlagsHaveNoPositionals(Flags(p.items));
    assert AllFlags(p) == AllFlags(again) == RenderItems(Flags(p.items));
    assert AllPositionals(again) == AllPositionals(p);
    Assoc(RenderItems(Flags(p.items)), [DASHES], AllPositionals(p));
    ParseIsUnique(again, bools);
  }

  function AsItems(args: seq<Arg>): seq<Item> {
    if args == [] then [] else [Positional(args[0])] + AsItems(args[1..])
  }

  lemma {:induction false} PositionalsReadBack(args: seq<Arg>, bools: set<string>)
    requires forall a <- args :: KindOf(a, bools) == Plain
    ensures RenderItems(AsItems(args)) == args && Flags(AsItems(args)) == [] && Positionals(AsItems(args)) == args
    ensures forall item <- AsItems(args) :: ValidItem(item, bools)
  {
    if args == [] {
    } else {
      assert KindOf(args[0], bools) == Plain;
      PositionalsReadBack(args[1..], bools);
    }
  }

  lemma {:induction false} PositionalsArePlain(items: seq<Item>, bools: set<string>)
    requires forall item <- items :: ValidItem(item, bools)
    ensures forall a <- Positionals(items) :: KindOf(a, bools) == Plain
  {
    if items == [] {
    } else {
      assert ValidItem(items[0], bools);
      PositionalsArePlain(items[1..], bools);
    }
  }

  lemma {:induction false} SplitRender(a: seq<Item>, b: seq<Item>)
    ensures RenderItems(a + b) == RenderItems(a) + RenderItems(b)
  {
    if a == [] {
      assert a + b == b;
    } else {
      assert (a + b)[1..] == a[1..] + b;
      SplitRender(a[1..], b);
      Assoc(Tokens(a[0]), RenderItems(a[1..]), RenderItems(b));
    }
  }

  lemma {:induction false} SplitFlags(a: seq<Item>, b: seq<Item>)
    ensures Flags(a + b) == Flags(a) + Flags(b)
  {
    if a == [] {
      assert a + b == b;
    } else {
      assert (a + b)[1..] == a[1..] + b;
      SplitFlags(a[1..], b);
      Assoc(if a[0].Positional? then [] else [a[0]], Flags(a[1..]), Flags(b));
    }
  }

  lemma {:induction false} SplitPositionals(a: seq<Item>, b: seq<Item>)
    ensures Positionals(a + b) == Positionals(a) + Positionals(b)
  {
    if a == [] {
      assert a + b == b;
    } else {
      assert (a + b)[1..] == a[1..] + b;
      SplitPositionals(a[1..], b);
      Assoc(if a[0].Positional? then [a[0].arg] else [], Positionals(a[1..]), Positionals(b));
    }
  }

  /** The reading of the output when a dangling flag has swallowed the inserted "--". */
  function Swallowed(p: Parsed): (items: seq<Item>)
    requires p.ending.Dangling?
  {
    Flags(p.items) + ([FlagWith(p.ending.flag, DASHES)] + AsItems(Positionals(p.items)))
  }

  lemma SwallowedRenders(p: Parsed, bools: set<string>)
    requires Valid(p, bools) && p.ending.Dangling?
    ensures RenderItems(Swallowed(p)) == Arranged(p)
  {
    var flags, f, tail := Flags(p.items), FlagWith(p.ending.flag, DASHES), AsItems(Positionals(p.items));
    PositionalsArePlain(p.items, bools);
    PositionalsReadBack(Positionals(p.items), bools);
    assert ([f] + tail)[1..] == tail;
    SplitRender(flags, [f] + tail);
    assert AllPositionals(p) == Positionals(p.items);
    assert [p.ending.flag, DASHES] == [p.ending.flag] + [DASHES];
    Assoc(RenderItems(flags), [p.ending.flag] + [DASHES], Positionals(p.items));
    Assoc(RenderItems(flags), [p.ending.flag], [DASHES]);
  }

  lemma SwallowedSplits(p: Parsed, bools: set<string>)
    requires Valid(p, bools) && p.ending.Dangling?
    ensures RenderItems(Flags(Swallowed(p))) == AllFlags(p) + [DASHES]
    ensures Positionals(Swallowed(p)) == AllPositionals(p)
  {
    var flags, f, tail := Flags(p.items), FlagWith(p.ending.flag, DASHES), AsItems(Positionals(p.items));
    FlagsHaveNoPositionals(flags);
    PositionalsArePlain(p.items, bools);
    PositionalsReadBack(Positionals(p.items), bools);
    assert ([f] + tail)[1..] == tail && [f][1..] == [];
    SplitFlags(flags, [f] + tail);
    SplitPositionals(flags, [f] + tail);
    SplitRender(flags, [f]);
    assert Flags([f] + tail) == [f];
    assert RenderItems([f]) == [p.ending.flag] + [DASHES];
    Assoc(RenderItems(flags), [p.ending.flag], [DASHES]);
  }

  /** A dangling flag swallows the inserted "--" when the output is read again. */
  lemma ReadAgainDangling(p: Parsed, bools: set<string>)
    requires Valid(p, bools) && p.ending.Dangling?
    ensures Reordered(Arranged(p), bools) == AllFlags(p) + [DASHES] + [DASHES] + AllPositionals(p)
  {
    var again := Parsed(Swallowed(p), End);
    SwallowedRenders(p, bools);
    SwallowedSplits(p, bools);
    PositionalsArePlain(p.items, bools);
    PositionalsReadBack(Positionals(p.items), bools);
    assert Render(again) == Arranged(p);
    ParseIsUnique(again, bools);
    assert AllFlags(again) == AllFlags(p) + [DASHES];
    assert AllPositionals(again) == AllPositionals(p);
  }

  /** Reordering twice changes nothing iff the arguments do not end in a flag whose value
      is missing; then the "--" meant to end the flags is taken for that value. */
  lemma ReorderingIdempotentIff(args: seq<Arg>, bools: set<string>)
    ensures Reordered(Reordered(args, bools), bools) == Reordered(args, bools)
       <==> !Parse(args, bools).ending.Dangling?
  {
    var p := Parse(args, bools);
    ParseIsFaithful(args, bools);
    if p.ending.Dangling? {
      ReadAgainDangling(p, bools);
      assert |Reordered(Arranged(p), bools)| == |Arranged(p)| + 1;
    } else {
      ReadAgainProper(p, bools);
    }
  }

  /** The failing case: `tpctl read --pane`. */
  lemma LonelyPaneFlag(bools: set<string>)
    requires "pane" !in bools
    ensures Reordered(["--pane"], bools) == ["--pane", DASHES]
    ensures Reordered(["--pane", DASHES], bools) == ["--pane", DASHES, DASHES]
  {
    assert "--pane"[2..] == "pane";
    assert KindOf("--pane", bools) == TakesNext;
    var p := Parsed([FlagWith("--pane", DASHES)], End);
    assert p.items[1..] == [];
    assert Flags(p.items) == p.items;
    assert RenderItems(p.items) == Tokens(p.items[0]) + RenderItems([]);
    ParseIsUnique(p, bools);
  }

  // --- As written on the command line ------------------------------------------------------------

  /** What a user writes: --name=value, --name, --name value, -letters, or an argument. */
  datatype Written =
    | JoinedFlag(name: string, value: string)
    | BoolFlag(name: string)
    | ValueFlag(name: string, value: Arg)
    | ShortFlag(letters: string)
    | Argument(arg: Arg)

  predicate Proper(w: Written, bools: set<string>) {
    match w
    case JoinedFlag(_, _) => true
    case BoolFlag(name) => name != "" && '=' !in name && name in bools
    case ValueFlag(name, _) => name != "" && '=' !in name && name !in bools
    case ShortFlag(letters) => letters != "" && letters[0] != '-'
    case Argument(arg) => arg == "" || arg == "-" || arg[0] != '-'
  }

  function Spell(w: Written): seq<Arg> {
    match w
    case JoinedFlag(name, value) => ["--" + (name + "=" + value)]
    case BoolFlag(name) => ["--" + name]
    case ValueFlag(name, value) => ["--" + name, value]
    case ShortFlag(letters) => ["-" + letters]
    case Argument(arg) => [arg]
  }

  function SpellAll(ws: seq<Written>): seq<Arg> {
    if ws == [] then [] else Spell(ws[0]) + SpellAll(ws[1..])
  }

  function FlagsOf(ws: seq<Written>): seq<Written> {
    if ws == [] then [] else (if ws[0].Argument? then [] else [ws[0]]) + FlagsOf(ws[1..])
  }

  function ArgumentsOf(ws: seq<Written>): seq<Arg> {
    if ws == [] then [] else (if ws[0].Argument? then [ws[0].arg] else []) + ArgumentsOf(ws[1..])
  }

  function AsItem(w: Written): Item {
    match w
    case ValueFlag(name, value) => FlagWith("--" + name, value)
    case Argument(arg) => Positional(arg)
    case _ => Flag(Spell(w)[0])
  }

  function AsItemsOf(ws: seq<Written>): seq<Item> {
    if ws == [] then [] else [AsItem(ws[0])] + AsItemsOf(ws[1..])
  }

  lemma ProperIsValid(w: Written, bools: set<string>)
    requires Proper(w, bools)
    ensures ValidItem(AsItem(w), bools) && Tokens(AsItem(w)) == Spell(w)
  {
    if w.JoinedFlag? {
      assert Spell(w)[0][2..] == w.name + "=" + w.value;
      assert (w.name + "=" + w.value)[|w.name|] == '=';
    } else if w.BoolFlag? || w.ValueFlag? {
      assert ("--" + w.name)[2..] == w.name;
    }
  }

  lemma {:induction false} WrittenAsItems(ws: seq<Written>, bools: set<string>)
    requires forall w <- ws :: Proper(w, bools)
    ensures forall item <- AsItemsOf(ws) :: ValidItem(item, bools)
    ensures RenderItems(AsItemsOf(ws)) == SpellAll(ws)
    ensures RenderItems(Flags(AsItemsOf(ws))) == SpellAll(FlagsOf(ws))
    ensures Positionals(AsItemsOf(ws)) == ArgumentsOf(ws)
  {
    if ws == [] {
    } else {
      ProperIsValid(ws[0], bools);
      WrittenAsItems(ws[1..], bools);
      assert AsItemsOf(ws)[1..] == AsItemsOf(ws[1..]);
      if ws[0].Argument? {
        assert Flags(AsItemsOf(ws)) == Flags(AsItemsOf(ws[1..])) && FlagsOf(ws) == FlagsOf(ws[1..]);
      } else {
        assert Flags(AsItemsOf(ws))[1..] == Flags(AsItemsOf(ws[1..]));
        assert FlagsOf(ws)[1..] == FlagsOf(ws[1..]);
      }
    }
  }

  /** How a list may end: plainly, with "--" and anything, or with a flag that lacks its
      value. */
  ghost predicate ProperEnd(end: seq<Arg>, bools: set<string>) {
    || end == []
    || end[0] == "--"
    || (|end| == 1 && exists name :: ValueName(name, bools) && end[0] == "--" + name)
  }

  predicate ValueName(name: string, bools: set<string>) { name != "" && '=' !in name && name !in bools }

  /** The output for anything written so: flag groups in order, then a flag lacking its
      value, then "--", the arguments in order, and what followed "--". */
  lemma ReorderedWritten(ws: seq<Written>, end: seq<Arg>, bools: set<string>)
    requires (forall w <- ws :: Proper(w, bools)) && ProperEnd(end, bools)
    ensures Reordered(SpellAll(ws) + end, bools)
         == SpellAll(FlagsOf(ws)) + (if end == [] || end[0] == "--" then [] else end) + ["--"]
            + (ArgumentsOf(ws) + if end != [] && end[0] == "--" then end[1..] else [])
  {
    WrittenAsItems(ws, bools);
    var e := if end == [] then End else if end[0] == "--" then Literal(end[1..]) else Dangling(end[0]);
    if e.Dangling? {
      var name :| ValueName(name, bools) && end[0] == "--" + name;
      assert end[0][2..] == name;
    }
    assert EndTokens(e) == end;
    ParseIsUnique(Parsed(AsItemsOf(ws), e), bools);
  }

  /** Any argument but "--" is one of these, or a flag waiting for its value. */
  lemma FirstWritten(a: Arg, bools: set<string>) returns (w: Written)
    requires a != "--"
    ensures Proper(w, bools) && Spell(w)[0] == a && (|Spell(w)| == 1 || w == ValueFlag(a[2..], ""))
  {
    if |a| <= 1 || a[0] != '-' {
      w := Argument(a);
    } else if a[1] != '-' {
      w := ShortFlag(a[1..]);
    } else if '=' in a[2..] {
      var k :| 0 <= k < |a[2..]| && a[2..][k] == '=';
      w := JoinedFlag(a[2..][..k], a[2..][k + 1..]);
      assert w.name + "=" + w.value == a[2..];
      assert "--" + a[2..] == a;
    } else if a[2..] in bools {
      w := BoolFlag(a[2..]);
      assert "--" + a[2..] == a;
    } else {
      w := ValueFlag(a[2..], "");
      assert "--" + a[2..] == a;
    }
  }

  /** And every argument list whatever is so written. */
  lemma {:induction false} EveryListIsWritten(args: seq<Arg>, bools: set<string>)
      returns (ws: seq<Written>, end: seq<Arg>)
    ensures (forall w <- ws :: Proper(w, bools)) && ProperEnd(end, bools)
    ensures SpellAll(ws) + end == args
    decreases |args|
  {
    if args == [] || args[0] == "--" {
      ws, end := [], args;
      assert [] + args == args;
    } else {
      var w := FirstWritten(args[0], bools);
      if |Spell(w)| == 2 && |args| == 1 {
        ws, end := [], args;
        assert ValueName(w.name, bools) && args[0] == "--" + w.name;
        assert [] + args == args;
      } else {
        if |Spell(w)| == 2 {
          w := ValueFlag(w.name, args[1]);
        }
        var more;
        more, end := EveryListIsWritten(args[|Spell(w)|..], bools);
        ws := [w] + more;
        assert ws[1..] == more;
        assert args == Spell(w) + args[|Spell(w)|..];
        Assoc(Spell(w), SpellAll(more), end);
      }
    }
  }
}
