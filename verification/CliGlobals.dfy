/** Global flags, taken off the command line before anything else is looked at (`parseAndExecute`). */
module CliGlobals {
  import opened Sequences

  predicate OutputFlag(tok: string) { tok == "-x" || tok == "--output" }

  predicate VersionFlag(tok: string) { tok == "-V" || tok == "--version" }

  datatype Stripped = Stripped(kept: seq<string>, output: string, version: bool)

  /** The scan from some token on; None when an output flag ends the line. */
  function Strip(args: seq<string>, s: Stripped): Option<Stripped>
    decreases |args|
  {
    if args == [] then Some(s)
    else if OutputFlag(args[0]) then
      if |args| > 1 then Strip(args[2..], s.(output := args[1])) else None
    else if VersionFlag(args[0]) then Strip(args[1..], s.(version := true))
    else Strip(args[1..], s.(kept := s.kept + [args[0]]))
  }

  const NOTHING := Stripped([], "", false)

  class GlobalFlags {
    var outputFormat: string
    var versionRequested: bool

    constructor ()
      ensures outputFormat == "" && !versionRequested
    {
      outputFormat, versionRequested := "", false;
    }

    /** Erases global flags from the vector while walking it. */
    method TakeOff(args: seq<string>) returns (ok: bool, rest: seq<string>)
      requires outputFormat == "" && !versionRequested
      modifies this
      ensures Strip(args, NOTHING) == if ok then Some(Stripped(rest, outputFormat, versionRequested)) else None
    {
      rest := args;
      var it := 0;
      while it < |rest|
        invariant 0 <= it <= |rest|
        invariant Strip(args, NOTHING) == Strip(rest[it..], Stripped(rest[..it], outputFormat, versionRequested))
        decreases |rest| - it
      {
        ghost var tail := rest[it..];
        if OutputFlag(rest[it]) {
          if it + 1 == |rest| { return false, rest; }
          outputFormat := rest[it + 1];
          assert tail[2..] == rest[it + 2..];
          rest := rest[..it] + rest[it + 2..];
        } else if VersionFlag(rest[it]) {
          versionRequested := true;
          assert tail[1..] == rest[it + 1..];
          rest := rest[..it] + rest[it + 1..];
        } else {
          assert tail[1..] == rest[it + 1..] && rest[..it + 1] == rest[..it] + [rest[it]];
          it := it + 1;
        }
      }
      assert rest[..it] == rest;
      ok := true;
    }
  }

  // ---------------------------------------------------------------- as a grammar

  /** A token of the command itself, an output flag with whatever follows it, or a version flag. */
  datatype Item = Own(tok: string) | Output(tok: string, value: string) | Version(tok: string)

  predicate ItemOk(item: Item) {
    match item
    case Own(tok) => tok !in ["-x", "--output", "-V", "--version"]
    case Output(tok, _) => tok in ["-x", "--output"]
    case Version(tok) => tok in ["-V", "--version"]
  }

  predicate ItemsOk(items: seq<Item>) {
    forall i | 0 <= i < |items| :: ItemOk(items[i])
  }

  function Tokens(items: seq<Item>): seq<string> {
    if items == [] then []
    else ItemTokens(items[0]) + Tokens(items[1..])
  }

  function OwnTokens(items: seq<Item>): seq<string> {
    if items == [] then [] else (if items[0].Own? then [items[0].tok] else []) + OwnTokens(items[1..])
  }

  function LastOutput(items: seq<Item>, before: string): string {
    if items == [] then before else LastOutput(items[1..], if items[0].Output? then items[0].value else before)
  }

  predicate AsksVersion(items: seq<Item>) {
    exists i :: 0 <= i < |items| && items[i].Version?
  }

  function After(s: Stripped, items: seq<Item>): Stripped {
    Stripped(s.kept + OwnTokens(items), LastOutput(items, s.output), s.version || AsksVersion(items))
  }

  function Step(s: Stripped, item: Item): Stripped {
    match item
    case Own(tok) => s.(kept := s.kept + [tok])
    case Output(_, value) => s.(output := value)
    case Version(_) => s.(version := true)
  }

  function ItemTokens(item: Item): seq<string> {
    if item.Output? then [item.tok, item.value] else [item.tok]
  }

  lemma StripOne(item: Item, rest: seq<string>, s: Stripped)
    requires ItemOk(item)
    ensures Strip(ItemTokens(item) + rest, s) == Strip(rest, Step(s, item))
  {
    assert (ItemTokens(item) + rest)[|ItemTokens(item)|..] == rest;
  }

  lemma AfterOne(s: Stripped, items: seq<Item>)
    requires items != []
    ensures After(s, items) == After(Step(s, items[0]), items[1..])
  {
    var later := items[1..];
    if AsksVersion(later) {
      var i :| 0 <= i < |later| && later[i].Version?;
      assert items[i + 1].Version?;
    }
    if items[0].Own? {
      assert s.kept + [items[0].tok] + OwnTokens(later) == s.kept + ([items[0].tok] + OwnTokens(later));
    } else {
      assert [] + OwnTokens(later) == OwnTokens(later);
    }
  }

  lemma {:induction false} StripItemsBefore(items: seq<Item>, rest: seq<string>, s: Stripped)
    requires ItemsOk(items)
    ensures Strip(Tokens(items) + rest, s) == Strip(rest, After(s, items))
    decreases |items|
  {
    hide Strip, ItemOk;
    if items == [] {
      assert Tokens(items) + rest == rest && s.kept + [] == s.kept;
    } else {
      assert Tokens(items) + rest == ItemTokens(items[0]) + (Tokens(items[1..]) + rest);
      StripOne(items[0], Tokens(items[1..]) + rest, s);
      StripItemsBefore(items[1..], rest, Step(s, items[0]));
      AfterOne(s, items);
    }
  }

  /** Global flags may stand anywhere: the command's own tokens remain in order, the last output format
      wins, and any version flag counts. */
  lemma GlobalFlagsAnywhere(items: seq<Item>)
    requires ItemsOk(items)
    ensures Strip(Tokens(items), NOTHING) == Some(Stripped(OwnTokens(items), LastOutput(items, ""), AsksVersion(items)))
  {
    StripItemsBefore(items, [], NOTHING);
    assert Tokens(items) + [] == Tokens(items) && [] + OwnTokens(items) == OwnTokens(items);
  }

  lemma {:induction false} RefusedEndsInOutputFlag(args: seq<string>, s: Stripped) returns (items: seq<Item>, flag: string)
    requires Strip(args, s).None?
    ensures ItemsOk(items) && flag in ["-x", "--output"] && args == Tokens(items) + [flag]
    decreases |args|
  {
    if OutputFlag(args[0]) && |args| == 1 {
      items, flag := [], args[0];
    } else {
      var item := if OutputFlag(args[0]) then Output(args[0], args[1])
                  else if VersionFlag(args[0]) then Version(args[0]) else Own(args[0]);
      var k := |ItemTokens(item)|;
      var later;
      later, flag := RefusedEndsInOutputFlag(args[k..], Step(s, item));
      items := [item] + later;
      assert items[1..] == later;
      assert args == ItemTokens(item) + args[k..];
    }
  }

  /** A line is refused if and only if it is items followed by a lone output flag. */
  lemma RefusedIff(args: seq<string>)
    ensures Strip(args, NOTHING).None?
       <==> exists items, flag :: ItemsOk(items) && flag in ["-x", "--output"] && args == Tokens(items) + [flag]
  {
    if Strip(args, NOTHING).None? {
      var items, flag := RefusedEndsInOutputFlag(args, NOTHING);
    }
    if items, flag :| ItemsOk(items) && flag in ["-x", "--output"] && args == Tokens(items) + [flag] {
      StripItemsBefore(items, [flag], NOTHING);
    }
  }
}
