/** Flag parsing of the nmc command line (nmc_client/src/CLI). */
module Cli {
  import opened Sequences
  import opened Text

  datatype FlagType = StringFlag | BoolFlag | IntFlag
  datatype FlagDef = FlagDef(shortName: string, longName: string, kind: FlagType)

  // ---------------------------------------------------------------- values

  predicate IsSpace(c: char) {
    c == ' ' || 9 <= c as int <= 13
  }

  function SkipSpace(s: string): string {
    if s != "" && IsSpace(s[0]) then SkipSpace(s[1..]) else s
  }

  /** `std::stoi` when it consumes the whole string. */
  function Stoi(s: string): Option<int> {
    var t := SkipSpace(s);
    var signed := t != "" && (t[0] == '-' || t[0] == '+');
    var digits := DigitsValue(if signed then t[1..] else t);
    if digits.None? then None
    else
      var n: int := digits.value;
      var v := if signed && t[0] == '-' then -n else n;
      if -0x8000_0000 <= v <= 0x7FFF_FFFF then Some(v) else None
  }

  predicate Blanks(s: string) {
    forall c | c in s :: c == ' ' || c == '\t' || c == '\n' || c == 11 as char || c == 12 as char || c == '\r'
  }

  lemma {:induction false} SkipSpaceIs(blanks: string, rest: string)
    requires Blanks(blanks) && (rest == "" || !IsSpace(rest[0]))
    ensures SkipSpace(blanks + rest) == rest
  {
    if blanks == "" {
      assert blanks + rest == rest;
    } else {
      assert blanks[0] in blanks && forall c | c in blanks[1..] :: c in blanks;
      assert (blanks + rest)[1..] == blanks[1..] + rest;
      SkipSpaceIs(blanks[1..], rest);
    }
  }

  predicate SignOf(sign: string, n: int) {
    (sign == "-" && n <= 0) || ((sign == "" || sign == "+") && n >= 0)
  }

  /** Every integer is read back from its decimal print, behind blanks and with its sign, if it fits into
      32 bits, and is refused otherwise. */
  lemma StoiReadsBack(blanks: string, sign: string, n: int)
    requires Blanks(blanks) && SignOf(sign, n)
    ensures Stoi(blanks + (sign + Decimal(if n < 0 then -n else n)))
         == if -2147483648 <= n <= 2147483647 then Some(n) else None
  {
    hide SkipSpace, DigitsValue, Decimal;
    var digits := Decimal(if n < 0 then -n else n);
    DecimalReadsBack(if n < 0 then -n else n);
    DigitsValueIff(digits);
    SkipSpaceIs(blanks, sign + digits);
    assert sign == "" ==> sign + digits == digits;
    assert sign != "" ==> (sign + digits)[1..] == digits;
  }

  lemma {:induction false} SkipSpaceSplits(s: string) returns (blanks: string)
    ensures Blanks(blanks) && s == blanks + SkipSpace(s)
  {
    if s != "" && IsSpace(s[0]) {
      blanks := SkipSpaceSplits(s[1..]);
      blanks := [s[0]] + blanks;
    } else {
      blanks := "";
    }
  }

  /** Nothing else is read: what is accepted consists of blanks, an optional sign and digits. */
  lemma StoiAcceptsOnly(s: string)
    requires Stoi(s).Some?
    ensures exists blanks, sign, digits ::
      Blanks(blanks) && SignOf(sign, Stoi(s).value) && AllDigits(digits) && s == blanks + (sign + digits)
  {
    hide SkipSpace, DigitsValue;
    var t := SkipSpace(s);
    var signed := t != "" && (t[0] == '-' || t[0] == '+');
    var digits := if signed then t[1..] else t;
    var sign := if signed then t[..1] else "";
    DigitsValueIff(digits);
    var blanks := SkipSpaceSplits(s);
    assert t == sign + digits;
  }

  predicate ValueOk(d: FlagDef, v: string) {
    d.kind == IntFlag ==> Stoi(v).Some?
  }

  class Flag {
    const def: FlagDef
    var stringValue: string
    var boolValue: bool
    var intValue: int

    constructor (def: FlagDef)
      ensures this.def == def
    {
      this.def := def;
      stringValue, boolValue, intValue := "", false, 0;
    }

    method SetValue(val: string) returns (ok: bool)
      modifies this
      ensures ok <==> ValueOk(def, val)
      ensures ok && def.kind != BoolFlag ==> stringValue == val
      ensures def.kind == BoolFlag ==> boolValue == (val == "true" || val == "1" || val == "")
      ensures ok && def.kind == IntFlag ==> Stoi(val) == Some(intValue)
      ensures !ok ==> stringValue == old(stringValue) && intValue == old(intValue) && boolValue == old(boolValue)
    {
      match def.kind
      case StringFlag =>
        stringValue := val;
        ok := true;
      case BoolFlag =>
        boolValue := val == "true" || val == "1" || val == "";
        ok := true;
      case IntFlag =>
        var parsed := Stoi(val);
        if parsed.None? { return false; }
        intValue := parsed.value;
        stringValue := val;
        ok := true;
    }
  }

  // ---------------------------------------------------------------- recognising one token

  function FindFlag(defs: seq<FlagDef>, name: string, i: nat): (r: Option<nat>)
    requires i <= |defs|
    ensures r.Some? ==> i <= r.value < |defs| && (defs[r.value].longName == name || defs[r.value].shortName == name)
    ensures forall j | i <= j < (if r.Some? then r.value else |defs|) :: defs[j].longName != name && defs[j].shortName != name
    decreases |defs| - i
  {
    if i == |defs| then None
    else if defs[i].longName == name || defs[i].shortName == name then Some(i)
    else FindFlag(defs, name, i + 1)
  }

  /** value is what follows `=` in a long flag, empty if nothing does. */
  datatype Head = NotFlag | Recognised(flag: nat, value: string)

  function ReadHead(defs: seq<FlagDef>, tok: string): (h: Head)
    ensures h.Recognised? ==> h.flag < |defs| && Dashed(tok)
  {
    if "--" <= tok then
      var body := tok[2..];
      var e := Find(body, '=');
      var f := FindFlag(defs, body[..e], 0);
      if f.None? then NotFlag else Recognised(f.value, if e < |body| then body[e + 1..] else "")
    else if "-" <= tok && |tok| > 1 && tok[1] != '-' then
      var f := FindFlag(defs, tok[1..], 0);
      if f.None? then NotFlag else Recognised(f.value, "")
    else NotFlag
  }

  predicate Dashed(tok: string) {
    "-" <= tok
  }

  function Canonical(d: FlagDef): string {
    if d.longName == "" then d.shortName else d.longName
  }

  type FlagMap = map<string, string>

  /** A repeated String flag is collected behind commas, anything else is overwritten. */
  function Store(d: FlagDef, out: FlagMap, v: string): FlagMap {
    var key := Canonical(d);
    if d.kind == StringFlag && key in out && v != "" then out[key := out[key] + "," + v] else out[key := v]
  }

  // ---------------------------------------------------------------- the parser

  /** The loop of `parseFlags` from some token on; None is a refusal. */
  function Parse(defs: seq<FlagDef>, args: seq<string>, out: FlagMap, rest: seq<string>): Option<(FlagMap, seq<string>)>
    decreases |args|
  {
    if args == [] then Some((out, rest))
    else
      match ReadHead(defs, args[0])
      case NotFlag => Parse(defs, args[1..], out, rest + [args[0]])
      case Recognised(f, value) =>
        if defs[f].kind == BoolFlag then Parse(defs, args[1..], Store(defs[f], out, "1"), rest)
        else if value != "" then
          if ValueOk(defs[f], value) then Parse(defs, args[1..], Store(defs[f], out, value), rest) else None
        else if |args| > 1 && !Dashed(args[1]) then
          if ValueOk(defs[f], args[1]) then Parse(defs, args[2..], Store(defs[f], out, args[1]), rest) else None
        else None
  }

  class Command {
    const flags: seq<Flag>

    constructor (flags: seq<Flag>)
      ensures this.flags == flags
    {
      this.flags := flags;
    }

    function Defs(): (r: seq<FlagDef>)
      ensures |r| == |flags|
      ensures forall i | 0 <= i < |flags| :: r[i] == flags[i].def
    {
      seq(|flags|, i requires 0 <= i < |flags| => flags[i].def)
    }

    method GetFlag(name: string) returns (r: Option<nat>)
      ensures r == FindFlag(Defs(), name, 0)
    {
      for i := 0 to |flags|
        invariant FindFlag(Defs(), name, 0) == FindFlag(Defs(), name, i)
      {
        if flags[i].def.longName == name || flags[i].def.shortName == name { return Some(i); }
      }
      r := None;
    }

    /** Splits off the name of a dashed token and looks it up. */
    method Lookup(tok: string) returns (h: Head)
      ensures h == ReadHead(Defs(), tok)
    {
      if "--" <= tok {
        var body := tok[2..];
        var e := Find(body, '=');
        var f := GetFlag(body[..e]);
        if f.None? { return NotFlag; }
        return Recognised(f.value, if e < |body| then body[e + 1..] else "");
      }
      if "-" <= tok && |tok| > 1 && tok[1] != '-' {
        var f := GetFlag(tok[1..]);
        if f.None? { return NotFlag; }
        return Recognised(f.value, "");
      }
      h := NotFlag;
    }

    method ParseFlags(args: seq<string>) returns (ok: bool, outFlags: FlagMap, remaining: seq<string>)
      modifies flags
      ensures Parse(Defs(), args, map[], []) == if ok then Some((outFlags, remaining)) else None
    {
      outFlags, remaining := map[], [];
      var i := 0;
      while i < |args|
        invariant 0 <= i <= |args|
        invariant Parse(Defs(), args, map[], []) == Parse(Defs(), args[i..], outFlags, remaining)
      {
        var h := Lookup(args[i]);
        ghost var tail := args[i..];
        assert tail[0] == args[i] && tail[1..] == args[i + 1..];
        assert |tail| > 1 ==> tail[1] == args[i + 1] && tail[2..] == args[i + 2..];
        if h.NotFlag? {
          remaining := remaining + [args[i]];
        } else {
          var flag := flags[h.flag];
          var value := h.value;
          if flag.def.kind == BoolFlag {
            value := "true";
          } else if value == "" {
            if i + 1 < |args| && !Dashed(args[i + 1]) {
              i := i + 1;
              value := args[i];
            } else {
              return false, outFlags, remaining;
            }
          }
          var accepted := flag.SetValue(value);
          if !accepted { return false, outFlags, remaining; }
          var normalized := if flag.def.kind == BoolFlag then (if flag.boolValue then "1" else "0") else flag.stringValue;
          outFlags := Store(flag.def, outFlags, normalized);
        }
        i := i + 1;
      }
      ok := true;
    }
  }
}
