/** Shell command text built by `nmc node recruit` (nmc_client/src/Commands/NodeCommands.cpp), read by the
    token recognition rules of IEEE Std 1003.1-2017, Shell Command Language, sections 2.2, 2.3 and 2.9.1. */
module Shell {
  import opened Sequences

  // ---------------------------------------------------------------- the printer

  function QuoteBody(value: string): string {
    if value == "" then ""
    else
      var last := |value| - 1;
      QuoteBody(value[..last]) + if value[last] == '\'' then "'\\''" else [value[last]]
  }

  function ShellQuote(value: string): string {
    "'" + QuoteBody(value) + "'"
  }

  function CommandToShellString(args: seq<string>): string {
    if args == [] then ""
    else
      var last := |args| - 1;
      CommandToShellString(args[..last]) + (if last > 0 then " " else "") + ShellQuote(args[last])
  }

  method Quote(value: string) returns (quoted: string)
    ensures quoted == ShellQuote(value)
  {
    quoted := "'";
    for i := 0 to |value|
      invariant quoted == "'" + QuoteBody(value[..i])
    {
      assert value[..i + 1][..i] == value[..i];
      if value[i] == '\'' {
        quoted := quoted + "'\\''";
      } else {
        quoted := quoted + [value[i]];
      }
    }
    assert value[..|value|] == value;
    quoted := quoted + "'";
  }

  method PrintCommand(args: seq<string>) returns (command: string)
    ensures command == CommandToShellString(args)
  {
    command := "";
    var first := true;
    for i := 0 to |args|
      invariant command == CommandToShellString(args[..i]) && (first <==> i == 0)
    {
      assert args[..i + 1][..i] == args[..i];
      if !first { command := command + " "; }
      var q := Quote(args[i]);
      command := command + q;
      first := false;
    }
    assert args[..|args|] == args;
  }

  // ---------------------------------------------------------------- the reader

  datatype Token = Word(text: string) | IoNumber(text: string) | Op(text: string)

  /** A word under construction; quoted tells whether any of it was quoted. */
  datatype Part = Part(text: string, quoted: bool)

  predicate Digits(s: string) {
    s != "" && forall i | 0 <= i < |s| :: '0' <= s[i] <= '9'
  }

  function Flush(cur: Option<Part>): seq<Token> {
    if cur.None? then [] else [Word(cur.value.text)]
  }

  function FlushBeforeOp(cur: Option<Part>, c: char): seq<Token> {
    if cur.Some? && !cur.value.quoted && Digits(cur.value.text) && (c == '<' || c == '>') then [IoNumber(cur.value.text)]
    else Flush(cur)
  }

  function Grow(cur: Option<Part>, text: string, quoted: bool): Option<Part> {
    if cur.None? then Some(Part(text, quoted))
    else Some(Part(cur.value.text + text, cur.value.quoted || quoted))
  }

  predicate OperatorStart(c: char) {
    c == '&' || c == '|' || c == ';' || c == '<' || c == '>' || c == '(' || c == ')'
  }

  predicate OperatorPair(c: char, d: char) {
    match c
    case '&' => d == '&'
    case '|' => d == '|'
    case ';' => d == ';'
    case '<' => d == '<' || d == '&' || d == '>'
    case '>' => d == '>' || d == '&' || d == '|'
    case _ => false
  }

  /** The length of the longest operator at the front, zero if there is none. */
  function OperatorLength(s: string): (n: nat)
    ensures n <= |s|
    ensures n > 0 <==> s != "" && OperatorStart(s[0])
  {
    if s == "" || !OperatorStart(s[0]) then 0
    else if |s| == 1 || !OperatorPair(s[0], s[1]) then 1
    else if |s| > 2 && s[0] == '<' && s[1] == '<' && s[2] == '-' then 3
    else 2
  }

  /** Characters that start something this reader does not cover: expansions, double quotes, patterns,
      comments and line ends. */
  predicate Uncovered(c: char) {
    c == '\"' || c == '$' || c == '`' || c == '*' || c == '?' || c == '[' || c == '#' || c == '~' || c == '\n'
  }

  function Join(front: seq<Token>, rest: Option<seq<Token>>): Option<seq<Token>> {
    if rest.None? then None else Some(front + rest.value)
  }

  /** None for an unterminated quote, a trailing backslash or an uncovered construct. */
  function Lex(s: string, inQuote: bool, cur: Option<Part>): Option<seq<Token>>
    decreases |s|
  {
    if s == "" then (if inQuote then None else Some(Flush(cur)))
    else if inQuote then
      if s[0] == '\'' then Lex(s[1..], false, cur) else Lex(s[1..], true, Grow(cur, [s[0]], true))
    else if s[0] == '\'' then Lex(s[1..], true, Grow(cur, "", true))
    else if s[0] == '\\' then
      if |s| == 1 then None
      else if s[1] == '\n' then Lex(s[2..], false, cur)
      else Lex(s[2..], false, Grow(cur, [s[1]], true))
    else if s[0] == ' ' || s[0] == '\t' then Join(Flush(cur), Lex(s[1..], false, None))
    else if OperatorStart(s[0]) then
      var n := OperatorLength(s);
      Join(FlushBeforeOp(cur, s[0]) + [Op(s[..n])], Lex(s[n..], false, None))
    else if Uncovered(s[0]) then None
    else Lex(s[1..], false, Grow(cur, [s[0]], false))
  }

  function Tokens(s: string): Option<seq<Token>> {
    Lex(s, false, None)
  }

  function Words(args: seq<string>): (r: seq<Token>)
    ensures |r| == |args|
    ensures forall i | 0 <= i < |args| :: r[i] == Word(args[i])
  {
    if args == [] then [] else Words(args[..|args| - 1]) + [Word(args[|args| - 1])]
  }

  // ---------------------------------------------------------------- one character at a time

  lemma Opens(rest: string, cur: Option<Part>)
    ensures Lex("'" + rest, false, cur) == Lex(rest, true, Grow(cur, "", true))
  {
  }

  lemma Closes(rest: string, cur: Option<Part>)
    ensures Lex("'" + rest, true, cur) == Lex(rest, false, cur)
  {
  }

  lemma Inside(c: char, rest: string, cur: Option<Part>)
    requires c != '\''
    ensures Lex([c] + rest, true, cur) == Lex(rest, true, Grow(cur, [c], true))
  {
  }

  lemma Backslash(c: char, rest: string, cur: Option<Part>)
    requires c != '\n'
    ensures Lex(['\\', c] + rest, false, cur) == Lex(rest, false, Grow(cur, [c], true))
  {
  }

  lemma Blank(rest: string, cur: Option<Part>)
    ensures Lex(" " + rest, false, cur) == Join(Flush(cur), Lex(rest, false, None))
  {
  }

  predicate Ordinary(c: char) {
    c != ' ' && c != '\t' && c != '\'' && c != '\\' && !OperatorStart(c) && !Uncovered(c)
  }

  lemma Plain(c: char, rest: string, cur: Option<Part>)
    requires Ordinary(c)
    ensures Lex([c] + rest, false, cur) == Lex(rest, false, Grow(cur, [c], false))
  {
  }

  lemma Operator(op: string, rest: string, cur: Option<Part>)
    requires op != "" && OperatorStart(op[0]) && OperatorLength(op + rest) == |op|
    ensures Lex(op + rest, false, cur) == Join(FlushBeforeOp(cur, op[0]) + [Op(op)], Lex(rest, false, None))
  {
  }

  lemma End(cur: Option<Part>)
    ensures Lex("", false, cur) == Some(Flush(cur))
  {
  }

  lemma GrowTwice(cur: Option<Part>, a: string, b: string, q: bool)
    ensures Grow(Grow(cur, a, q), b, q) == Grow(cur, a + b, q)
  {
    if cur.Some? { assert cur.value.text + a + b == cur.value.text + (a + b); }
  }

  // ---------------------------------------------------------------- quoting survives reading

  lemma {:induction false} QuoteBodyReads(value: string, rest: string, cur: Option<Part>)
    requires cur.Some? && cur.value.quoted
    ensures Lex(QuoteBody(value) + rest, true, cur) == Lex(rest, true, Grow(cur, value, true))
    decreases |value|
  {
    hide Lex;
    if value == "" {
      assert QuoteBody(value) + rest == rest;
      assert cur.value.text + "" == cur.value.text;
    } else {
      var last := |value| - 1;
      var piece := if value[last] == '\'' then "'\\''" else [value[last]];
      var grown := Grow(cur, value[..last], true);
      assert QuoteBody(value) + rest == QuoteBody(value[..last]) + (piece + rest);
      QuoteBodyReads(value[..last], piece + rest, cur);
      GrowTwice(cur, value[..last], [value[last]], true);
      assert value[..last] + [value[last]] == value;
      if value[last] == '\'' {
        EscapedQuoteReads(rest, grown);
      } else {
        Inside(value[last], rest, grown);
      }
    }
  }

  lemma EscapedQuoteReads(rest: string, cur: Option<Part>)
    requires cur.Some? && cur.value.quoted
    ensures Lex("'\\''" + rest, true, cur) == Lex(rest, true, Grow(cur, "'", true))
  {
    hide Lex;
    assert "'\\''" + rest == "'" + (['\\', '\''] + ("'" + rest));
    Closes(['\\', '\''] + ("'" + rest), cur);
    Backslash('\'', "'" + rest, cur);
    Opens(rest, Grow(cur, "'", true));
    GrowTwice(cur, "'", "", true);
    assert "'" + "" == "'";
  }

  /** A quoted value is one word, or extends the word before it, whatever its characters. */
  lemma QuotedReads(value: string, rest: string, cur: Option<Part>)
    ensures Lex(ShellQuote(value) + rest, false, cur) == Lex(rest, false, Grow(cur, value, true))
  {
    hide Lex;
    var begun := Grow(cur, "", true);
    assert ShellQuote(value) + rest == "'" + (QuoteBody(value) + ("'" + rest));
    Opens(QuoteBody(value) + ("'" + rest), cur);
    QuoteBodyReads(value, "'" + rest, begun);
    GrowTwice(cur, "", value, true);
    assert "" + value == value;
    Closes(rest, Grow(cur, value, true));
  }

  lemma CommandEndsWith(args: seq<string>, rest: string)
    requires |args| > 1
    ensures CommandToShellString(args) + rest
         == CommandToShellString(args[..|args| - 1]) + (" " + (ShellQuote(args[|args| - 1]) + rest))
  {
  }

  /** All arguments but the last are complete words; the last is still open for what follows. */
  lemma {:induction false} CommandReads(args: seq<string>, rest: string)
    requires args != []
    ensures Lex(CommandToShellString(args) + rest, false, None)
         == Join(Words(args[..|args| - 1]), Lex(rest, false, Some(Part(args[|args| - 1], true))))
    decreases |args|
  {
    hide Lex, ShellQuote, QuoteBody;
    var last := |args| - 1;
    var open := Lex(rest, false, Some(Part(args[last], true)));
    if last == 0 {
      assert CommandToShellString(args) + rest == ShellQuote(args[0]) + rest;
      QuotedReads(args[0], rest, None);
      SkipJoin(open);
    } else {
      hide CommandToShellString;
      var before := args[..last];
      CommandEndsWith(args, rest);
      CommandReads(before, " " + (ShellQuote(args[last]) + rest));
      Blank(ShellQuote(args[last]) + rest, Some(Part(before[last - 1], true)));
      QuotedReads(args[last], rest, None);
      JoinJoin(Words(before[..last - 1]), [Word(before[last - 1])], open);
    }
  }

  lemma SkipJoin(r: Option<seq<Token>>)
    ensures Join([], r) == r
  {
    if r.Some? { assert [] + r.value == r.value; }
  }

  lemma JoinJoin(a: seq<Token>, b: seq<Token>, r: Option<seq<Token>>)
    ensures Join(a, Join(b, r)) == Join(a + b, r)
  {
    if r.Some? { assert a + (b + r.value) == a + b + r.value; }
  }

  /** The shell reads back exactly the arguments, as words. */
  lemma CommandRoundTrip(args: seq<string>)
    ensures Tokens(CommandToShellString(args)) == Some(Words(args))
  {
    if args != [] {
      assert CommandToShellString(args) + "" == CommandToShellString(args);
      CommandReads(args, "");
    }
  }

  // ---------------------------------------------------------------- what is handed to the shell

  const REDIRECT := " 2>&1"

  /** `c_str()` ends at the first NUL. */
  function CStr(s: string): (r: string)
    ensures '\0' !in r
    ensures r <= s && (r == s || s[|r|] == '\0')
    ensures '\0' !in s ==> r == s
  {
    if s == "" then ""
    else if s[0] == '\0' then ""
    else
      var rest := CStr(s[1..]);
      assert '\0' !in s ==> '\0' !in s[1..] && s == [s[0]] + s[1..];
      [s[0]] + rest
  }

  lemma RedirectReads(word: string)
    ensures Lex(REDIRECT, false, Some(Part(word, true))) == Some([Word(word), IoNumber("2"), Op(">&"), Word("1")])
  {
    hide Lex;
    assert REDIRECT == " " + (['2'] + (">&" + "1")) && "1" == ['1'] + "";
    Blank(['2'] + (">&" + "1"), Some(Part(word, true)));
    Plain('2', ">&" + "1", None);
    Operator(">&", "1", Some(Part("2", false)));
    Plain('1', "", None);
    End(Some(Part("1", false)));
    assert [Word(word)] + ([IoNumber("2")] + [Op(">&")] + [Word("1")]) == [Word(word), IoNumber("2"), Op(">&"), Word("1")];
  }

  predicate NulFree(args: seq<string>) {
    forall a | a in args :: '\0' !in a
  }

  lemma {:induction false} CommandIsNulFree(args: seq<string>)
    requires NulFree(args)
    ensures '\0' !in CommandToShellString(args)
  {
    if args != [] {
      CommandIsNulFree(args[..|args| - 1]);
      BodyIsNulFree(args[|args| - 1]);
    }
  }

  lemma {:induction false} BodyIsNulFree(value: string)
    requires '\0' !in value
    ensures '\0' !in QuoteBody(value)
  {
    if value != "" { BodyIsNulFree(value[..|value| - 1]); }
  }

  lemma {:induction false} TokensAreNulFree(s: string, inQuote: bool, cur: Option<Part>)
    requires '\0' !in s && (cur.Some? ==> '\0' !in cur.value.text)
    ensures Lex(s, inQuote, cur).Some? ==> forall t | t in Lex(s, inQuote, cur).value :: '\0' !in t.text
    decreases |s|
  {
    if s == "" {
    } else if inQuote {
      TokensAreNulFree(s[1..], s[0] != '\'', if s[0] == '\'' then cur else Grow(cur, [s[0]], true));
    } else if s[0] == '\'' {
      TokensAreNulFree(s[1..], true, Grow(cur, "", true));
    } else if s[0] == '\\' {
      if |s| > 1 { TokensAreNulFree(s[2..], false, if s[1] == '\n' then cur else Grow(cur, [s[1]], true)); }
    } else if s[0] == ' ' || s[0] == '\t' {
      TokensAreNulFree(s[1..], false, None);
    } else if OperatorStart(s[0]) {
      TokensAreNulFree(s[OperatorLength(s)..], false, None);
    } else if !Uncovered(s[0]) {
      TokensAreNulFree(s[1..], false, Grow(cur, [s[0]], false));
    }
  }

  /** The command line given to popen is read as exactly the arguments, with standard error joined to
      standard output, if and only if no argument holds a NUL. */
  lemma RunReadsArgumentsIffNulFree(args: seq<string>)
    requires args != []
    ensures Tokens(CStr(CommandToShellString(args) + REDIRECT))
              == Some(Words(args) + [IoNumber("2"), Op(">&"), Word("1")])
       <==> NulFree(args)
  {
    hide Lex, CommandToShellString;
    var expected := Words(args) + [IoNumber("2"), Op(">&"), Word("1")];
    var text := CommandToShellString(args) + REDIRECT;
    if NulFree(args) {
      CommandIsNulFree(args);
      var last := |args| - 1;
      CommandReads(args, REDIRECT);
      RedirectReads(args[last]);
      assert expected == Words(args[..last]) + [Word(args[last]), IoNumber("2"), Op(">&"), Word("1")];
    } else {
      TokensAreNulFree(CStr(text), false, None);
      var a :| a in args && '\0' in a;
      var i :| 0 <= i < |args| && args[i] == a;
      assert expected[i].text == a;
    }
  }

  // ---------------------------------------------------------------- the remote command line

  lemma {:induction false} OrdinaryReads(word: string, rest: string, cur: Option<Part>)
    requires forall i | 0 <= i < |word| :: Ordinary(word[i])
    requires word != "" || (cur.Some? && !cur.value.quoted)
    ensures Lex(word + rest, false, cur) == Lex(rest, false, Grow(cur, word, false))
    decreases |word|
  {
    hide Lex;
    if word == "" {
      assert word + rest == rest && cur.value.text + "" == cur.value.text;
    } else if |word| == 1 {
      Plain(word[0], rest, cur);
      assert word == [word[0]];
    } else {
      assert word + rest == [word[0]] + (word[1..] + rest);
      Plain(word[0], word[1..] + rest, cur);
      OrdinaryReads(word[1..], rest, Grow(cur, [word[0]], false));
      GrowTwice(cur, [word[0]], word[1..], false);
      assert [word[0]] + word[1..] == word;
    }
  }

  lemma PlainWordReads(word: string, rest: string)
    requires word != "" && forall i | 0 <= i < |word| :: Ordinary(word[i])
    ensures Lex(word + (" " + rest), false, None) == Join([Word(word)], Lex(rest, false, None))
  {
    hide Lex;
    OrdinaryReads(word, " " + rest, None);
    Blank(rest, Some(Part(word, false)));
  }

  lemma QuotedWordReads(value: string, rest: string)
    ensures Lex(ShellQuote(value) + (" " + rest), false, None) == Join([Word(value)], Lex(rest, false, None))
  {
    hide Lex;
    QuotedReads(value, " " + rest, None);
    Blank(rest, Some(Part(value, true)));
  }

  lemma OperatorReads(op: string, rest: string)
    requires op == "&&" || op == "|"
    ensures Lex(op + (" " + rest), false, None) == Join([Op(op)], Lex(rest, false, None))
  {
    hide Lex;
    Operator(op, " " + rest, None);
    Blank(rest, None);
    SkipJoin(Lex(rest, false, None));
    assert [] + [Op(op)] == [Op(op)];
  }

  /** `KEY='value' ` for each non-empty value. */
  function EnvText(env: seq<(string, string)>, rest: string): string {
    if env == [] then rest
    else if env[0].1 == "" then EnvText(env[1..], rest)
    else (env[0].0 + "=") + (ShellQuote(env[0].1) + (" " + EnvText(env[1..], rest)))
  }

  function EnvWords(env: seq<(string, string)>): seq<Token> {
    if env == [] then []
    else if env[0].1 == "" then EnvWords(env[1..])
    else [Word(env[0].0 + "=" + env[0].1)] + EnvWords(env[1..])
  }

  predicate PlainKeys(env: seq<(string, string)>) {
    forall i | 0 <= i < |env| :: env[i].0 != "" && forall j | 0 <= j < |env[i].0| :: Ordinary(env[i].0[j])
  }

  lemma {:induction false} EnvReads(env: seq<(string, string)>, rest: string)
    requires PlainKeys(env)
    ensures Lex(EnvText(env, rest), false, None) == Join(EnvWords(env), Lex(rest, false, None))
  {
    hide Lex;
    if env == [] {
      SkipJoin(Lex(rest, false, None));
    } else {
      EnvReads(env[1..], rest);
      if env[0].1 != "" {
        var (key, value) := env[0];
        var later := EnvText(env[1..], rest);
        OrdinaryReads(key + "=", ShellQuote(value) + (" " + later), None);
        QuotedReads(value, " " + later, Some(Part(key + "=", false)));
        Blank(later, Some(Part(key + "=" + value, true)));
        JoinJoin([Word(key + "=" + value)], EnvWords(env[1..]), Lex(rest, false, None));
      }
    }
  }

  /** How the uploaded artifact is started: a program with arguments, or a script run by bash. */
  datatype Artifact = Program(path: string, args: seq<string>) | Script(path: string)

  function ArtifactWords(a: Artifact): seq<string> {
    match a
    case Program(path, args) => [path] + args
    case Script(path) => ["bash", path]
  }

  function ArtifactText(a: Artifact): string {
    match a
    case Program(path, args) => CommandToShellString([path] + args)
    case Script(path) => "bash" + (" " + ShellQuote(path))
  }

  datatype Sudo = NoSudo | Sudo | SudoWithPassword(password: string)

  function SudoText(sudo: Sudo, rest: string): string {
    match sudo
    case NoSudo => rest
    case Sudo => "sudo" + (" " + ("-E" + (" " + rest)))
    case SudoWithPassword(p) =>
      "printf" + (" " + ("%s\\\\n" + (" " + (ShellQuote(p) + (" " + ("|" + (" " + SudoTailText(rest))))))))
  }

  function SudoTailText(rest: string): string {
    "sudo" + (" " + ("-S" + (" " + ("-p" + (" " + (ShellQuote("") + (" " + ("-E" + (" " + rest)))))))))
  }

  const SUDO_TAIL := [Word("sudo"), Word("-S"), Word("-p"), Word(""), Word("-E")]

  function SudoTokens(sudo: Sudo): seq<Token> {
    match sudo
    case NoSudo => []
    case Sudo => [Word("sudo"), Word("-E")]
    case SudoWithPassword(p) => [Word("printf"), Word("%s\\n"), Word(p), Op("|")] + SUDO_TAIL
  }

  function RemoteCommand(path: string, env: seq<(string, string)>, sudo: Sudo, a: Artifact): string {
    "chmod" + (" " + ("+x" + (" " + (ShellQuote(path) + (" " + ("&&" + (" " + EnvText(env, SudoText(sudo, ArtifactText(a))))))))))
  }

  lemma ArtifactReads(a: Artifact)
    ensures Tokens(ArtifactText(a)) == Some(Words(ArtifactWords(a)))
  {
    hide Lex;
    match a
    case Program(path, args) => CommandRoundTrip([path] + args);
    case Script(path) =>
      PlainWordReads("bash", ShellQuote(path));
      assert ShellQuote(path) + "" == ShellQuote(path);
      QuotedReads(path, "", None);
      End(Some(Part(path, true)));
      assert [Word("bash")] + [Word(path)] == [Word("bash"), Word(path)];
      assert Words(["bash", path]) == [Word("bash"), Word(path)];
  }

  lemma SudoReads(sudo: Sudo, rest: string)
    ensures Lex(SudoText(sudo, rest), false, None) == Join(SudoTokens(sudo), Lex(rest, false, None))
  {
    hide Lex;
    var end := Lex(rest, false, None);
    match sudo
    case NoSudo => SkipJoin(end);
    case Sudo =>
      PlainWordReads("sudo", "-E" + (" " + rest));
      PlainWordReads("-E", rest);
      JoinJoin([Word("sudo")], [Word("-E")], end);
      assert [Word("sudo")] + [Word("-E")] == [Word("sudo"), Word("-E")];
    case SudoWithPassword(p) =>
      var r4 := SudoTailText(rest);
      var r2 := ShellQuote(p) + (" " + ("|" + (" " + r4)));
      PlainWordReads("printf", "%s\\\\n" + (" " + r2));
      FormatReads(r2);
      QuotedWordReads(p, "|" + (" " + r4));
      OperatorReads("|", r4);
      SudoTailReads(rest);
      JoinJoin([Op("|")], SUDO_TAIL, end);
      JoinJoin([Word(p)], [Op("|")] + SUDO_TAIL, end);
      JoinJoin([Word("%s\\n")], [Word(p)] + ([Op("|")] + SUDO_TAIL), end);
      JoinJoin([Word("printf")], [Word("%s\\n")] + ([Word(p)] + ([Op("|")] + SUDO_TAIL)), end);
      assert [Word("printf")] + ([Word("%s\\n")] + ([Word(p)] + ([Op("|")] + SUDO_TAIL))) == SudoTokens(sudo);
  }

  lemma SudoTailReads(rest: string)
    ensures Lex(SudoTailText(rest), false, None) == Join(SUDO_TAIL, Lex(rest, false, None))
  {
    hide Lex;
    var r8 := "-E" + (" " + rest);
    var r7 := ShellQuote("") + (" " + r8);
    var r6 := "-p" + (" " + r7);
    PlainWordReads("sudo", "-S" + (" " + r6));
    PlainWordReads("-S", r6);
    PlainWordReads("-p", r7);
    QuotedWordReads("", r8);
    PlainWordReads("-E", rest);
    var end := Lex(rest, false, None);
    if end.Some? {
      assert [Word("sudo")] + ([Word("-S")] + ([Word("-p")] + ([Word("")] + ([Word("-E")] + end.value)))) == SUDO_TAIL + end.value;
    }
  }

  lemma FormatReads(rest: string)
    ensures Lex("%s\\\\n" + (" " + rest), false, None) == Join([Word("%s\\n")], Lex(rest, false, None))
  {
    hide Lex;
    var tail := " " + rest;
    assert "%s\\\\n" + tail == "%s" + (['\\', '\\'] + (['n'] + tail));
    OrdinaryReads("%s", ['\\', '\\'] + (['n'] + tail), None);
    Backslash('\\', ['n'] + tail, Some(Part("%s", false)));
    Plain('n', tail, Some(Part("%s" + "\\", true)));
    assert "%s" + "\\" + "n" == "%s\\n";
    Blank(rest, Some(Part("%s\\n", true)));
  }

  /** The remote shell sees the intended words and operators, for every path, value, password and argument. */
  lemma RemoteCommandReads(path: string, env: seq<(string, string)>, sudo: Sudo, a: Artifact)
    requires PlainKeys(env)
    ensures Tokens(RemoteCommand(path, env, sudo, a)) == Some(RemoteTokens(path, env, sudo, a))
  {
    hide Lex, EnvText, EnvWords, SudoText, SudoTokens, ArtifactText, ArtifactWords, Words, ShellQuote;
    var sudoText := SudoText(sudo, ArtifactText(a));
    var exec := EnvText(env, sudoText);
    var quoted := ShellQuote(path) + (" " + ("&&" + (" " + exec)));
    PlainWordReads("chmod", "+x" + (" " + quoted));
    PlainWordReads("+x", quoted);
    QuotedWordReads(path, "&&" + (" " + exec));
    OperatorReads("&&", exec);
    EnvReads(env, sudoText);
    SudoReads(sudo, ArtifactText(a));
    ArtifactReads(a);
    var tail := EnvWords(env) + (SudoTokens(sudo) + Words(ArtifactWords(a)));
    assert Lex(exec, false, None) == Some(tail);
    assert Lex(quoted, false, None) == Some([Word(path)] + ([Op("&&")] + tail));
    assert [Word("chmod")] + ([Word("+x")] + ([Word(path)] + ([Op("&&")] + tail))) == RemoteTokens(path, env, sudo, a);
  }

  function RemoteTokens(path: string, env: seq<(string, string)>, sudo: Sudo, a: Artifact): seq<Token> {
    [Word("chmod"), Word("+x"), Word(path), Op("&&")] + (EnvWords(env) + (SudoTokens(sudo) + Words(ArtifactWords(a))))
  }

  /** The simple commands of a line: the tokens between its operators (section 2.9.1). */
  function SimpleCommands(tokens: seq<Token>): (r: seq<seq<Token>>)
    ensures r != []
  {
    if tokens == [] then [[]]
    else
      var rest := SimpleCommands(tokens[1..]);
      if tokens[0].Op? then [[]] + rest else [[tokens[0]] + rest[0]] + rest[1..]
  }

  predicate OperatorFree(tokens: seq<Token>) {
    forall i | 0 <= i < |tokens| :: !tokens[i].Op?
  }

  lemma {:induction false} FirstCommand(a: seq<Token>, op: Token, b: seq<Token>)
    requires op.Op? && OperatorFree(a)
    ensures SimpleCommands(a + [op] + b) == [a] + SimpleCommands(b)
  {
    var tokens := a + [op] + b;
    if a == [] {
      assert tokens[1..] == b;
    } else {
      FirstCommand(a[1..], op, b);
      assert tokens[1..] == a[1..] + [op] + b;
      assert [a[0]] + a[1..] == a;
    }
  }

  lemma {:induction false} OnlyCommand(a: seq<Token>)
    requires OperatorFree(a)
    ensures SimpleCommands(a) == [a]
  {
    if a != [] {
      OnlyCommand(a[1..]);
      assert [a[0]] + a[1..] == a;
    }
  }

  lemma {:induction false} EnvWordsAreAssignments(env: seq<(string, string)>)
    requires PlainKeys(env)
    ensures forall i | 0 <= i < |EnvWords(env)| :: EnvWords(env)[i].Word? && '=' in EnvWords(env)[i].text
    ensures EnvWords(env) == [] <==> forall i | 0 <= i < |env| :: env[i].1 == ""
  {
    if env != [] {
      EnvWordsAreAssignments(env[1..]);
      var (key, value) := env[0];
      assert (key + "=" + value)[|key|] == '=';
      if EnvWords(env) == [] {
        forall i | 0 <= i < |env| ensures env[i].1 == "" {
          assert i > 0 ==> env[i] == env[1..][i - 1];
        }
      }
    }
  }

  /** The commands of the remote line, in order: the last one runs the artifact. */
  function RemoteCommands(path: string, env: seq<(string, string)>, sudo: Sudo, a: Artifact): seq<seq<Token>> {
    [[Word("chmod"), Word("+x"), Word(path)]]
    + match sudo
      case SudoWithPassword(p) =>
        [EnvWords(env) + PrintWords(p), SUDO_TAIL + Words(ArtifactWords(a))]
      case _ => [EnvWords(env) + (SudoTokens(sudo) + Words(ArtifactWords(a)))]
  }

  lemma RemoteTokensSplit(path: string, env: seq<(string, string)>, sudo: Sudo, a: Artifact)
    requires PlainKeys(env)
    ensures SimpleCommands(RemoteTokens(path, env, sudo, a)) == RemoteCommands(path, env, sudo, a)
  {
    hide SimpleCommands, EnvWords, ArtifactWords, SudoTokens;
    var (run, chmod) := (Words(ArtifactWords(a)), [Word("chmod"), Word("+x"), Word(path)]);
    EnvWordsAreAssignments(env);
    assert OperatorFree(run);
    assert OperatorFree(EnvWords(env)) && OperatorFree(chmod);
    hide Words;
    var tail := EnvWords(env) + (SudoTokens(sudo) + run);
    assert RemoteTokens(path, env, sudo, a) == chmod + [Op("&&")] + tail;
    FirstCommand(chmod, Op("&&"), tail);
    if sudo.SudoWithPassword? {
      PipeSplits(EnvWords(env), sudo, run);
      assert [chmod] + ([EnvWords(env) + PrintWords(sudo.password)] + [SUDO_TAIL + run])
          == RemoteCommands(path, env, sudo, a);
    } else {
      NoPipe(sudo);
      OnlyCommand(tail);
    }
  }

  lemma NoPipe(sudo: Sudo)
    requires !sudo.SudoWithPassword?
    ensures OperatorFree(SudoTokens(sudo))
  {
  }

  function PrintWords(password: string): seq<Token> {
    [Word("printf"), Word("%s\\n"), Word(password)]
  }

  lemma Around(a: seq<Token>, b: seq<Token>, op: Token, c: seq<Token>, d: seq<Token>)
    ensures a + ((b + [op] + c) + d) == (a + b) + [op] + (c + d)
    ensures OperatorFree(a) && OperatorFree(b) ==> OperatorFree(a + b)
    ensures OperatorFree(c) && OperatorFree(d) ==> OperatorFree(c + d)
  {
  }

  lemma PipeSplits(env: seq<Token>, sudo: Sudo, run: seq<Token>)
    requires sudo.SudoWithPassword? && OperatorFree(env) && OperatorFree(run)
    ensures SimpleCommands(env + (SudoTokens(sudo) + run))
         == [env + PrintWords(sudo.password)] + [SUDO_TAIL + run]
  {
    var feed := PrintWords(sudo.password);
    assert OperatorFree(feed) && OperatorFree(SUDO_TAIL);
    assert SudoTokens(sudo) == feed + [Op("|")] + SUDO_TAIL;
    hide SimpleCommands, SudoTokens, PrintWords, OperatorFree;
    Around(env, feed, Op("|"), SUDO_TAIL, run);
    FirstCommand(env + feed, Op("|"), SUDO_TAIL + run);
    OnlyCommand(SUDO_TAIL + run);
  }

  /** The remote shell runs the artifact as its last simple command. The recruit environment is assigned to
      that command if and only if there is no environment or no sudo password: with a password the pipe
      comes between, and the assignments belong to printf. */
  lemma EnvironmentReachesArtifactIff(path: string, env: seq<(string, string)>, sudo: Sudo, a: Artifact)
    requires PlainKeys(env)
    ensures var line := Tokens(RemoteCommand(path, env, sudo, a));
      && line.Some?
      && var commands := SimpleCommands(line.value);
         var (run, last) := (Words(ArtifactWords(a)), commands[|commands| - 1]);
      && |last| >= |run| && last[|last| - |run|..] == run
      && |commands| >= 2 && EnvWords(env) <= commands[1]
      && (EnvWords(env) <= last <==> !sudo.SudoWithPassword? || forall i | 0 <= i < |env| :: env[i].1 == "")
  {
    hide SimpleCommands, RemoteCommand, RemoteTokens, EnvWords, ArtifactWords, Words, Lex;
    RemoteCommandReads(path, env, sudo, a);
    RemoteTokensSplit(path, env, sudo, a);
    EnvWordsAreAssignments(env);
    var (run, prefix) := (Words(ArtifactWords(a)), EnvWords(env));
    if sudo.SudoWithPassword? && prefix != [] {
      assert (SUDO_TAIL + run)[0] == Word("sudo") && '=' !in "sudo";
    }
    assert sudo.SudoWithPassword? ==> (SUDO_TAIL + run)[|SUDO_TAIL|..] == run;
    assert (prefix + (SudoTokens(sudo) + run))[|prefix| + |SudoTokens(sudo)|..] == run;
  }

  /** Two evaluations: the local shell passes the remote command line on untouched as ssh's last
      argument, and the remote shell reads the intended tokens from it. */
  lemma NestedQuotingSurvives(ssh: seq<string>, path: string, env: seq<(string, string)>, sudo: Sudo, a: Artifact)
    requires PlainKeys(env) && NulFree(ssh + [RemoteCommand(path, env, sudo, a)])
    ensures var remote := RemoteCommand(path, env, sudo, a);
      && Tokens(CStr(CommandToShellString(ssh + [remote]) + REDIRECT))
           == Some(Words(ssh) + [Word(remote), IoNumber("2"), Op(">&"), Word("1")])
      && Tokens(remote) == Some(RemoteTokens(path, env, sudo, a))
  {
    hide Lex, RemoteCommand, RemoteTokens, CommandToShellString, CStr;
    var remote := RemoteCommand(path, env, sudo, a);
    RunReadsArgumentsIffNulFree(ssh + [remote]);
    RemoteCommandReads(path, env, sudo, a);
    assert (ssh + [remote])[..|ssh|] == ssh;
    assert Words(ssh + [remote]) == Words(ssh) + [Word(remote)];
    assert Words(ssh) + [Word(remote)] + [IoNumber("2"), Op(">&"), Word("1")]
        == Words(ssh) + [Word(remote), IoNumber("2"), Op(">&"), Word("1")];
  }
}
