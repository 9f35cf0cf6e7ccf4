/** What `parseFlags` accepts, as a grammar of items, and what follows for the order of arguments. */
module CliGrammar {
  import opened Sequences
  import opened Text
  import opened Cli

  /** A positional (or unrecognised) token; a boolean flag; a flag with its value behind `=`; a flag with
      its value in the next token. */
  datatype Item = Positional(tok: string) | Switch(tok: string) | Joined(tok: string) | Spaced(tok: string, value: string)

  datatype Setting = Setting(flag: nat, value: string)

  predicate ItemOk(defs: seq<FlagDef>, item: Item) {
    var h := ReadHead(defs, item.tok);
    match item
    case Positional(_) => h.NotFlag?
    case Switch(_) => h.Recognised? && defs[h.flag].kind == BoolFlag
    case Joined(_) => h.Recognised? && defs[h.flag].kind != BoolFlag && h.value != ""
    case Spaced(_, value) => h.Recognised? && defs[h.flag].kind != BoolFlag && h.value == ""
                             && (value == "" || value[0] != '-')
  }

  predicate ItemsOk(defs: seq<FlagDef>, items: seq<Item>) {
    forall i | 0 <= i < |items| :: ItemOk(defs, items[i])
  }

  function ItemTokens(item: Item): seq<string> {
    if item.Spaced? then [item.tok, item.value] else [item.tok]
  }

  function Tokens(items: seq<Item>): seq<string> {
    if items == [] then [] else ItemTokens(items[0]) + Tokens(items[1..])
  }

  function Positionals(items: seq<Item>): seq<string> {
    if items == [] then []
    else (if items[0].Positional? then [items[0].tok] else []) + Positionals(items[1..])
  }

  function FlagItems(items: seq<Item>): seq<Item> {
    if items == [] then []
    else (if items[0].Positional? then [] else [items[0]]) + FlagItems(items[1..])
  }

  function ItemSetting(defs: seq<FlagDef>, item: Item): Setting
    requires ItemOk(defs, item) && !item.Positional?
  {
    var h := ReadHead(defs, item.tok);
    Setting(h.flag, match item case Switch(_) => "1" case Joined(_) => h.value case Spaced(_, v) => v)
  }

  function Settings(defs: seq<FlagDef>, items: seq<Item>): (r: seq<Setting>)
    requires ItemsOk(defs, items)
    ensures forall s | s in r :: s.flag < |defs|
  {
    if items == [] then []
    else (if items[0].Positional? then [] else [ItemSetting(defs, items[0])]) + Settings(defs, items[1..])
  }

  predicate SettingOk(defs: seq<FlagDef>, s: Setting) {
    s.flag < |defs| && (defs[s.flag].kind == IntFlag ==> Stoi(s.value).Some?)
  }

  /** The flag map a list of settings produces, None if an integer value is refused. */
  function Assign(defs: seq<FlagDef>, settings: seq<Setting>): Option<FlagMap> {
    if settings == [] then Some(map[])
    else
      var last := settings[|settings| - 1];
      var before := Assign(defs, settings[..|settings| - 1]);
      if before.None? || !SettingOk(defs, last) then None else Some(Store(defs[last.flag], before.value, last.value))
  }

  // ---------------------------------------------------------------- parsing follows the grammar

  lemma {:induction false} RefusedForGood(defs: seq<FlagDef>, front: seq<Setting>, more: seq<Setting>)
    requires Assign(defs, front).None?
    ensures Assign(defs, front + more).None?
    decreases |more|
  {
    if more == [] {
      assert front + more == front;
    } else {
      RefusedForGood(defs, front, more[..|more| - 1]);
      assert (front + more)[..|front + more| - 1] == front + more[..|more| - 1];
    }
  }

  function Outcome(m: Option<FlagMap>, rest: seq<string>): Option<(FlagMap, seq<string>)> {
    if m.None? then None else Some((m.value, rest))
  }

  lemma ParseStep(defs: seq<FlagDef>, item: Item, later: seq<string>, out: FlagMap, rest: seq<string>)
    requires ItemOk(defs, item)
    ensures Parse(defs, ItemTokens(item) + later, out, rest)
         == if item.Positional? then Parse(defs, later, out, rest + [item.tok])
            else
              var s := ItemSetting(defs, item);
              if SettingOk(defs, s) then Parse(defs, later, Store(defs[s.flag], out, s.value), rest) else None
  {
  }

  lemma SettingIsInRange(defs: seq<FlagDef>, item: Item)
    requires ItemOk(defs, item) && !item.Positional?
    ensures ItemSetting(defs, item).flag < |defs|
  {
  }

  lemma AssignOneMore(defs: seq<FlagDef>, done: seq<Setting>, s: Setting)
    requires s.flag < |defs| && Assign(defs, done).Some?
    ensures Assign(defs, done + [s])
         == if SettingOk(defs, s) then Some(Store(defs[s.flag], Assign(defs, done).value, s.value)) else None
  {
  }

  /** Parsing the tokens of well-formed items, from any point the loop may have reached. */
  lemma {:induction false} ParseItems(defs: seq<FlagDef>, done: seq<Setting>, rest: seq<string>, items: seq<Item>)
    requires ItemsOk(defs, items) && Assign(defs, done).Some?
    ensures Parse(defs, Tokens(items), Assign(defs, done).value, rest)
         == Outcome(Assign(defs, done + Settings(defs, items)), rest + Positionals(items))
    decreases |items|
  {
    hide ReadHead, ItemOk, ItemSetting, Store, SettingOk, ItemTokens;
    if items == [] {
      assert done + [] == done && rest + [] == rest;
    } else {
      hide Parse, Assign;
      var item, later := items[0], items[1..];
      assert ItemOk(defs, item) && ItemsOk(defs, later);
      hide ItemsOk;
      var out := Assign(defs, done).value;
      ParseStep(defs, item, Tokens(later), out, rest);
      if item.Positional? {
        ParseItems(defs, done, rest + [item.tok], later);
        assert [] + Settings(defs, later) == Settings(defs, later);
        assert rest + [item.tok] + Positionals(later) == rest + ([item.tok] + Positionals(later));
      } else {
        var s := ItemSetting(defs, item);
        SettingIsInRange(defs, item);
        AssignOneMore(defs, done, s);
        assert done + ([s] + Settings(defs, later)) == done + [s] + Settings(defs, later);
        assert [] + Positionals(later) == Positionals(later);
        if SettingOk(defs, s) {
          ParseItems(defs, done + [s], rest, later);
        } else {
          RefusedForGood(defs, done + [s], Settings(defs, later));
        }
      }
    }
  }

  /** The items of a token list, None where a flag lacks its value. */
  function ItemsOf(defs: seq<FlagDef>, args: seq<string>): Option<seq<Item>>
    decreases |args|
  {
    if args == [] then Some([])
    else
      var h := ReadHead(defs, args[0]);
      var spaced := h.Recognised? && defs[h.flag].kind != BoolFlag && h.value == "";
      if spaced && (|args| == 1 || Dashed(args[1])) then None
      else
        var item := if h.NotFlag? then Positional(args[0])
                    else if defs[h.flag].kind == BoolFlag then Switch(args[0])
                    else if h.value != "" then Joined(args[0])
                    else Spaced(args[0], args[1]);
        var later := ItemsOf(defs, args[if spaced then 2 else 1..]);
        if later.None? then None else Some([item] + later.value)
  }

  lemma {:induction false} ItemsOfIsGrammar(defs: seq<FlagDef>, args: seq<string>)
    ensures ItemsOf(defs, args).Some? ==>
      ItemsOk(defs, ItemsOf(defs, args).value) && Tokens(ItemsOf(defs, args).value) == args
    decreases |args|
  {
    if args != [] && ItemsOf(defs, args).Some? {
      var item := ItemsOf(defs, args).value[0];
      var k := |ItemTokens(item)|;
      ItemsOfIsGrammar(defs, args[k..]);
      assert ItemsOf(defs, args).value[1..] == ItemsOf(defs, args[k..]).value;
      assert args == ItemTokens(item) + args[k..];
    }
  }

  lemma {:induction false} AcceptedHasItems(defs: seq<FlagDef>, args: seq<string>, out: FlagMap, rest: seq<string>)
    requires Parse(defs, args, out, rest).Some?
    ensures ItemsOf(defs, args).Some?
    decreases |args|
  {
    if args != [] {
      var h := ReadHead(defs, args[0]);
      if h.NotFlag? {
        AcceptedHasItems(defs, args[1..], out, rest + [args[0]]);
      } else if defs[h.flag].kind == BoolFlag {
        AcceptedHasItems(defs, args[1..], Store(defs[h.flag], out, "1"), rest);
      } else if h.value != "" {
        AcceptedHasItems(defs, args[1..], Store(defs[h.flag], out, h.value), rest);
      } else {
        AcceptedHasItems(defs, args[2..], Store(defs[h.flag], out, args[1]), rest);
      }
    }
  }

  /** parseFlags accepts exactly the token lists the grammar generates with acceptable integers, and
      returns what the items say: so every token it drops is a flag or that flag's value. */
  lemma AcceptsExactlyTheGrammar(defs: seq<FlagDef>, args: seq<string>, m: FlagMap, rest: seq<string>)
    ensures Parse(defs, args, map[], []) == Some((m, rest))
       <==> exists items :: ItemsOk(defs, items) && Tokens(items) == args
              && Assign(defs, Settings(defs, items)) == Some(m) && Positionals(items) == rest
  {
    if Parse(defs, args, map[], []) == Some((m, rest)) {
      AcceptedHasItems(defs, args, map[], []);
      ItemsOfIsGrammar(defs, args);
      ParseFromScratch(defs, ItemsOf(defs, args).value);
    }
    if items :| ItemsOk(defs, items) && Tokens(items) == args
                && Assign(defs, Settings(defs, items)) == Some(m) && Positionals(items) == rest {
      ParseFromScratch(defs, items);
    }
  }

  lemma ParseFromScratch(defs: seq<FlagDef>, items: seq<Item>)
    requires ItemsOk(defs, items)
    ensures Parse(defs, Tokens(items), map[], []) == Outcome(Assign(defs, Settings(defs, items)), Positionals(items))
  {
    ParseItems(defs, [], [], items);
    assert [] + Settings(defs, items) == Settings(defs, items) && [] + Positionals(items) == Positionals(items);
  }

  /** What is left over for the positional arguments is a subsequence of what was given. */
  lemma {:induction false} PositionalsAreASubsequence(items: seq<Item>)
    ensures IsSubsequence(Positionals(items), Tokens(items))
  {
    if items != [] {
      PositionalsAreASubsequence(items[1..]);
      var own := if items[0].Positional? then [items[0].tok] else [];
      assert own == [] || (own[..0] == [] && ItemTokens(items[0])[..0] == []);
      SubsequencesConcatenate(own, ItemTokens(items[0]), Positionals(items[1..]), Tokens(items[1..]));
    }
  }

  // ---------------------------------------------------------------- interleaving

  lemma {:induction false} SettingsOfFlags(defs: seq<FlagDef>, items: seq<Item>)
    requires ItemsOk(defs, items)
    ensures ItemsOk(defs, FlagItems(items)) && Settings(defs, FlagItems(items)) == Settings(defs, items)
  {
    if items != [] {
      SettingsOfFlags(defs, items[1..]);
      var later := FlagItems(items[1..]);
      assert ItemOk(defs, items[0]);
      if items[0].Positional? {
        assert FlagItems(items) == later;
      } else {
        assert ([items[0]] + later)[1..] == later;
      }
    }
  }

  /** Two argument lists with the same flag groups in the same order and the same positionals in the same
      order parse alike, however the two are interleaved. */
  lemma InterleavingDoesNotMatter(defs: seq<FlagDef>, a: seq<Item>, b: seq<Item>)
    requires ItemsOk(defs, a) && ItemsOk(defs, b)
    requires FlagItems(a) == FlagItems(b) && Positionals(a) == Positionals(b)
    ensures Parse(defs, Tokens(a), map[], []) == Parse(defs, Tokens(b), map[], [])
  {
    ParseFromScratch(defs, a);
    ParseFromScratch(defs, b);
    SettingsOfFlags(defs, a);
    SettingsOfFlags(defs, b);
  }

  // ---------------------------------------------------------------- the spellings users write

  predicate NameOk(name: string) {
    name != "" && '=' !in name && name[0] != '-'
  }

  /** Every flag has a long name; a short one may be left out (empty). No name is used twice. */
  predicate NamesOk(defs: seq<FlagDef>) {
    && (forall i | 0 <= i < |defs| :: NameOk(defs[i].longName) && (defs[i].shortName == "" || NameOk(defs[i].shortName)))
    && (forall i, j | 0 <= i < j < |defs| ::
          && defs[i].longName != defs[j].longName
          && (defs[i].shortName == "" || defs[i].shortName != defs[j].shortName)
          && defs[i].longName != defs[j].shortName && defs[i].shortName != defs[j].longName)
  }

  lemma NameIsFound(defs: seq<FlagDef>, i: nat, name: string)
    requires NamesOk(defs) && i < |defs| && name != "" && (name == defs[i].longName || name == defs[i].shortName)
    ensures FindFlag(defs, name, 0) == Some(i)
  {
  }

  /** `--name=value`, `--name` and `-n` are recognised as the flag they name; a token without a dash never is. */
  lemma SpellingsAreRecognised(defs: seq<FlagDef>, i: nat, value: string, tok: string)
    requires NamesOk(defs) && i < |defs|
    ensures ReadHead(defs, "--" + defs[i].longName + "=" + value) == Recognised(i, value)
    ensures ReadHead(defs, "--" + defs[i].longName) == Recognised(i, "")
    ensures defs[i].shortName != "" ==> ReadHead(defs, "-" + defs[i].shortName) == Recognised(i, "")
    ensures tok == "" || tok[0] != '-' ==> ReadHead(defs, tok).NotFlag?
  {
    var name := defs[i].longName;
    NameIsFound(defs, i, name);
    var joined := "--" + name + "=" + value;
    assert joined[2..] == name + ("=" + value);
    FindIsFirst(name, "=" + value, '=');
    assert joined[2..][..|name|] == name && joined[2..][|name| + 1..] == value;
    assert ("--" + name)[2..] == name + "";
    FindIsFirst(name, "", '=');
    assert name + "" == name && name[..|name|] == name;
    if defs[i].shortName != "" {
      NameIsFound(defs, i, defs[i].shortName);
      assert ("-" + defs[i].shortName)[1..] == defs[i].shortName;
    }
  }

  /** And nothing else is recognised: a recognised token spells a name of its flag and the value read. */
  lemma RecognisedIsASpelling(defs: seq<FlagDef>, tok: string)
    requires ReadHead(defs, tok).Recognised?
    ensures var h := ReadHead(defs, tok);
      h.flag < |defs|
      && exists name :: (name == defs[h.flag].longName || name == defs[h.flag].shortName)
           && (|| tok == "--" + name + "=" + h.value
               || (h.value == "" && (tok == "--" + name || tok == "-" + name)))
  {
    var h := ReadHead(defs, tok);
    if "--" <= tok {
      var body := tok[2..];
      var e := Find(body, '=');
      var name := body[..e];
      assert tok == "--" + body;
      if e < |body| {
        assert body == name + "=" + h.value;
        assert tok == "--" + name + "=" + h.value;
      } else {
        assert body == name;
      }
    } else {
      assert tok == "-" + tok[1..];
    }
  }

  /** A bare `--` is taken for a flag if and only if some flag of the command has no short name. */
  lemma DoubleDashIsAFlagIff(defs: seq<FlagDef>)
    requires NamesOk(defs)
    ensures ReadHead(defs, "--").Recognised? <==> exists i :: 0 <= i < |defs| && defs[i].shortName == ""
  {
  }

  // ---------------------------------------------------------------- repeated list flags

  function ValuesOf(settings: seq<Setting>, f: nat): seq<string> {
    if settings == [] then []
    else
      var last := settings[|settings| - 1];
      ValuesOf(settings[..|settings| - 1], f) + if last.flag == f then [last.value] else []
  }

  /** The values from the last empty one on, or all of them: an empty value starts anew. */
  function SinceEmpty(values: seq<string>): (r: seq<string>)
    ensures r == [] <==> values == []
    ensures (forall v | v in values :: v != "") ==> r == values
  {
    if values == [] then []
    else
      var last := values[|values| - 1];
      var front := values[..|values| - 1];
      assert values == front + [last] && last in values && forall v | v in front :: v in values;
      if last == "" then [""] else SinceEmpty(front) + [last]
  }

  /** The name a flag's value is kept under: the long one, or the short one of a flag without a long one. */
  predicate KeptUnder(d: FlagDef, name: string) {
    (name == d.longName && name != "") || (d.longName == "" && name == d.shortName)
  }

  predicate KeptAlone(defs: seq<FlagDef>, f: nat, name: string)
    requires f < |defs|
  {
    KeptUnder(defs[f], name) && forall g | 0 <= g < |defs| && g != f :: !KeptUnder(defs[g], name)
  }

  /** With distinct long names each flag is kept alone under its own. */
  lemma LongNamesAreKeptAlone(defs: seq<FlagDef>, f: nat)
    requires NamesOk(defs) && f < |defs|
    ensures KeptAlone(defs, f, defs[f].longName)
  {
  }

  /** A String flag holds, under its name, the comma join of its values; an empty value starts anew. */
  lemma {:induction false} RepeatsAreJoined(defs: seq<FlagDef>, settings: seq<Setting>, f: nat, name: string)
    requires f < |defs| && KeptAlone(defs, f, name) && defs[f].kind == StringFlag && Assign(defs, settings).Some?
    ensures var values := ValuesOf(settings, f); var m := Assign(defs, settings).value;
      if values == [] then name !in m else name in m && m[name] == JoinWith(SinceEmpty(values), ',')
  {
    if settings != [] {
      var last := settings[|settings| - 1];
      var before := settings[..|settings| - 1];
      var values := ValuesOf(before, f);
      RepeatsAreJoined(defs, before, f, name);
      if last.flag == f {
        assert (values + [last.value])[..|values|] == values;
        JoinSinceEmpty(values, last.value);
      } else {
        assert ValuesOf(settings, f) == values;
        assert !KeptUnder(defs[last.flag], name);
      }
    }
  }

  lemma JoinSinceEmpty(values: seq<string>, v: string)
    ensures JoinWith(SinceEmpty(values + [v]), ',')
         == if values == [] || v == "" then v else JoinWith(SinceEmpty(values), ',') + "," + v
  {
    assert (values + [v])[..|values|] == values;
    if values != [] && v != "" {
      var s := SinceEmpty(values);
      assert (s + [v])[..|s|] == s;
    }
  }

  /** Any other flag holds its last value under its name. */
  lemma {:induction false} LastValueWins(defs: seq<FlagDef>, settings: seq<Setting>, f: nat, name: string)
    requires f < |defs| && KeptAlone(defs, f, name) && defs[f].kind != StringFlag && Assign(defs, settings).Some?
    ensures var values := ValuesOf(settings, f); var m := Assign(defs, settings).value;
      if values == [] then name !in m else name in m && m[name] == values[|values| - 1]
  {
    if settings != [] {
      var last := settings[|settings| - 1];
      LastValueWins(defs, settings[..|settings| - 1], f, name);
      assert last.flag != f ==> !KeptUnder(defs[last.flag], name);
    }
  }

  const BLANK := {' ', '\t'}

  function KeepNonEmpty(items: seq<string>): seq<string> {
    if items == [] then []
    else
      var t := Trim(items[|items| - 1], BLANK);
      KeepNonEmpty(items[..|items| - 1]) + if t == "" then [] else [t]
  }

  lemma KeepOneMore(items: seq<string>, item: string)
    ensures KeepNonEmpty(items + [item])
         == KeepNonEmpty(items) + if Trim(item, BLANK) == "" then [] else [Trim(item, BLANK)]
  {
  }

  /** `splitCommaSeparated` as a loop over what getline extracts. */
  method SplitCommaSeparated(raw: string) returns (values: seq<string>)
    ensures values == KeepNonEmpty(Getline(raw, ','))
  {
    hide Trim, Getline;
    values := [];
    assert KeepNonEmpty([]) == [];
    hide KeepNonEmpty;
    var stream := raw;
    ghost var taken := [];
    while stream != ""
      invariant Getline(raw, ',') == taken + Getline(stream, ',')
      invariant values == KeepNonEmpty(taken)
      decreases |stream|
    {
      var e := Find(stream, ',');
      var item := stream[..e];
      var later := if e == |stream| then "" else stream[e + 1..];
      GetlineStep(stream, ',');
      assert taken + ([item] + Getline(later, ',')) == taken + [item] + Getline(later, ',');
      KeepOneMore(taken, item);
      taken := taken + [item];
      var trimmed := Trim(item, BLANK);
      if trimmed != "" { values := values + [trimmed]; }
      stream := later;
    }
    NothingToGet(',');
    assert taken + [] == taken;
  }

  lemma {:induction false} TrimmedItemsAreKept(items: seq<string>)
    requires forall i | 0 <= i < |items| :: items[i] != "" && Trim(items[i], BLANK) == items[i]
    ensures KeepNonEmpty(items) == items
  {
    hide Trim;
    if items != [] {
      TrimmedItemsAreKept(items[..|items| - 1]);
      assert items == items[..|items| - 1] + [items[|items| - 1]];
    }
  }

  /** Blanks around the items are dropped, and so are items that hold nothing else. */
  lemma {:induction false} PaddedItemsAreTrimmed(lefts: seq<string>, cores: seq<string>, rights: seq<string>)
    requires |lefts| == |cores| == |rights|
    requires forall i, c | 0 <= i < |cores| && c in lefts[i] + rights[i] :: c == ' ' || c == '\t'
    requires forall i | 0 <= i < |cores| :: cores[i] != "" ==> cores[i][0] !in " \t" && cores[i][|cores[i]| - 1] !in " \t"
    ensures KeepNonEmpty(seq(|cores|, i requires 0 <= i < |cores| => lefts[i] + cores[i] + rights[i])) == NotEmpty(cores)
  {
    hide Trim;
    var items := seq(|cores|, i requires 0 <= i < |cores| => lefts[i] + cores[i] + rights[i]);
    if cores != [] {
      var n := |cores| - 1;
      assert forall i | 0 <= i < n :: lefts[..n][i] == lefts[i] && rights[..n][i] == rights[i] && cores[..n][i] == cores[i];
      PaddedItemsAreTrimmed(lefts[..n], cores[..n], rights[..n]);
      assert items[..n] == seq(n, i requires 0 <= i < n => lefts[..n][i] + cores[..n][i] + rights[..n][i]);
      assert forall c | c in lefts[n] :: c in lefts[n] + rights[n];
      assert forall c | c in rights[n] :: c in lefts[n] + rights[n];
      TrimOfPadded(lefts[n], cores[n], rights[n], BLANK);
    }
  }

  function NotEmpty(items: seq<string>): seq<string> {
    if items == [] then []
    else NotEmpty(items[..|items| - 1]) + if items[|items| - 1] == "" then [] else [items[|items| - 1]]
  }

  /** Giving a list flag several times and splitting what the parser stored returns the values in order. */
  lemma RepeatedFlagSurvivesSplitting(defs: seq<FlagDef>, items: seq<Item>, f: nat)
    requires NamesOk(defs) && f < |defs| && defs[f].kind == StringFlag && ItemsOk(defs, items)
    ensures var (values, r) := (ValuesOf(Settings(defs, items), f), Parse(defs, Tokens(items), map[], []));
      values != [] && r.Some? && (forall v | v in values :: v != "" && ',' !in v && Trim(v, BLANK) == v) ==>
        && defs[f].longName in r.value.0
        && KeepNonEmpty(Getline(r.value.0[defs[f].longName], ',')) == values
  {
    var (values, r) := (ValuesOf(Settings(defs, items), f), Parse(defs, Tokens(items), map[], []));
    if values != [] && r.Some? && forall v | v in values :: v != "" && ',' !in v && Trim(v, BLANK) == v {
      ParseFromScratch(defs, items);
      LongNamesAreKeptAlone(defs, f);
      RepeatsAreJoined(defs, Settings(defs, items), f, defs[f].longName);
      assert forall i | 0 <= i < |values| :: values[i] in values;
      GetlineOfJoin(values, ',');
      TrimmedItemsAreKept(values);
    }
  }
}
