/** Release comparison (nmc_client/src/Core/VersionCheck.cpp). */
module Versions {
  import opened Sequences
  import opened Text

  const WHITESPACE := {' ', '\t', '\r', '\n'}
  const MAX_DIGITS: nat := 9

  function NormalizeVersionTag(value: string): string {
    var t := Trim(value, WHITESPACE);
    if t != "" && (t[0] == 'v' || t[0] == 'V') then t[1..] else t
  }

  predicate IsDigit(c: char) { '0' <= c <= '9' }

  /** The front part made of digits and dots. */
  function Numeric(s: string): (r: string)
    ensures r <= s && forall i | 0 <= i < |r| :: '0' <= r[i] <= '9' || r[i] == '.'
    ensures |r| < |s| ==> !('0' <= s[|r|] <= '9') && s[|r|] != '.'
  {
    if s != "" && (IsDigit(s[0]) || s[0] == '.') then [s[0]] + Numeric(s[1..]) else ""
  }

  function TokenValue(token: string): Option<nat> {
    if |token| > MAX_DIGITS then None else DigitsValue(token)
  }

  /** All parts, or none at all as soon as one token is unusable. */
  function Parts(tokens: seq<string>): Option<seq<nat>> {
    if tokens == [] then Some([])
    else
      var before := Parts(tokens[..|tokens| - 1]);
      var v := TokenValue(tokens[|tokens| - 1]);
      if before.None? || v.None? then None else Some(before.value + [v.value])
  }

  /** The empty list stands for a version that is not numeric. */
  function VersionParts(raw: string): seq<nat> {
    var parts := Parts(Getline(Numeric(NormalizeVersionTag(raw)), '.'));
    if parts.None? then [] else parts.value
  }

  /** A version is not numeric exactly when no token or an unusable one, empty or longer than nine digits,
      stands in front of the first other character. */
  lemma NotNumericIff(raw: string)
    ensures var tokens := Getline(Numeric(NormalizeVersionTag(raw)), '.');
      VersionParts(raw) == [] <==> tokens == [] || exists i :: 0 <= i < |tokens| && (tokens[i] == "" || |tokens[i]| > 9)
  {
    hide NormalizeVersionTag, Numeric;
    var text := Numeric(NormalizeVersionTag(raw));
    var tokens := Getline(text, '.');
    GetlineDigits(text);
    UsableTokens(tokens);
  }

  lemma {:induction false} GetlineDigits(text: string)
    requires forall i | 0 <= i < |text| :: IsDigit(text[i]) || text[i] == '.'
    ensures forall i, j | 0 <= i < |Getline(text, '.')| && 0 <= j < |Getline(text, '.')[i]| :: IsDigit(Getline(text, '.')[i][j])
    decreases |text|
  {
    if text != "" {
      var e := Find(text, '.');
      forall j | 0 <= j < e ensures IsDigit(text[..e][j]) {
        assert text[..e][j] in text[..e];
      }
      if e < |text| { GetlineDigits(text[e + 1..]); }
    }
  }

  lemma {:induction false} UsableTokens(tokens: seq<string>)
    requires forall i, j | 0 <= i < |tokens| && 0 <= j < |tokens[i]| :: IsDigit(tokens[i][j])
    ensures Parts(tokens).None? <==> exists i :: 0 <= i < |tokens| && (tokens[i] == "" || |tokens[i]| > 9)
    ensures Parts(tokens).Some? ==> |Parts(tokens).value| == |tokens|
  {
    if tokens != [] {
      var (front, last) := (tokens[..|tokens| - 1], tokens[|tokens| - 1]);
      UsableTokens(front);
      DigitsValueIff(last);
      if i :| 0 <= i < |front| && (front[i] == "" || |front[i]| > 9) { assert tokens[i] == front[i]; }
    }
  }

  lemma {:induction false} BadTokenSpoilsAll(tokens: seq<string>, i: nat)
    requires i < |tokens| && TokenValue(tokens[i]).None?
    ensures Parts(tokens).None?
  {
    if i < |tokens| - 1 { BadTokenSpoilsAll(tokens[..|tokens| - 1], i); }
  }

  method ParseVersionParts(raw: string) returns (parts: seq<nat>)
    ensures parts == VersionParts(raw)
  {
    hide NormalizeVersionTag, Numeric, TokenValue;
    var cleaned := Numeric(NormalizeVersionTag(raw));
    var tokens := Getline(cleaned, '.');
    parts := [];
    for i := 0 to |tokens|
      invariant Parts(tokens[..i]) == Some(parts)
    {
      var v := TokenValue(tokens[i]);
      if v.None? {
        BadTokenSpoilsAll(tokens, i);
        return [];
      }
      assert tokens[..i + 1][..i] == tokens[..i];
      parts := parts + [v.value];
    }
    assert tokens[..|tokens|] == tokens;
  }

  // ---------------------------------------------------------------- order

  function At(parts: seq<nat>, i: nat): nat {
    if i < |parts| then parts[i] else 0
  }

  function Longer(a: seq<nat>, b: seq<nat>): nat {
    if |a| < |b| then |b| else |a|
  }

  function CompareFrom(a: seq<nat>, b: seq<nat>, i: nat): int
    decreases Longer(a, b) - i
  {
    if i >= Longer(a, b) then 0
    else if At(a, i) < At(b, i) then -1
    else if At(a, i) > At(b, i) then 1
    else CompareFrom(a, b, i + 1)
  }

  /** The sign of `std::string::compare`. */
  function CompareText(a: string, b: string): int {
    if a == "" && b == "" then 0
    else if a == "" then -1
    else if b == "" then 1
    else if a[0] < b[0] then -1
    else if a[0] > b[0] then 1
    else CompareText(a[1..], b[1..])
  }

  /** a comes first as text: it is a proper prefix of b, or smaller at the first difference. */
  ghost predicate TextBefore(a: string, b: string) {
    exists k :: 0 <= k <= |a| && k < |b| && a[..k] == b[..k] && (k == |a| || a[k] < b[k])
  }

  /** The sign says which of two texts comes first. */
  lemma {:induction false} CompareTextIsOrder(a: string, b: string)
    ensures CompareText(a, b) == 0 <==> a == b
    ensures CompareText(a, b) == -1 <==> TextBefore(a, b)
    ensures CompareText(a, b) == 1 <==> TextBefore(b, a)
    ensures -1 <= CompareText(a, b) <= 1
  {
    if a != "" && b != "" && a[0] == b[0] {
      CompareTextIsOrder(a[1..], b[1..]);
      assert a == [a[0]] + a[1..] && b == [b[0]] + b[1..];
      SameHead(a, b);
      SameHead(b, a);
    } else {
      if a == "" && b != "" { assert a[..0] == b[..0]; }
      if b == "" && a != "" { assert a[..0] == b[..0]; }
      if a != "" && b != "" {
        assert a[..0] == b[..0];
        assert forall k | 0 < k <= |a| && k <= |b| :: a[..k] == b[..k] ==> a[..k][0] == b[..k][0];
      }
    }
  }

  lemma SameHead(a: string, b: string)
    requires a != "" && b != "" && a[0] == b[0]
    ensures TextBefore(a, b) <==> TextBefore(a[1..], b[1..])
  {
    if k :| 0 <= k <= |a| && k < |b| && a[..k] == b[..k] && (k == |a| || a[k] < b[k]) {
      assert k > 0 && a[1..][..k - 1] == a[..k][1..] && b[1..][..k - 1] == b[..k][1..];
    }
    if k :| 0 <= k <= |a[1..]| && k < |b[1..]| && a[1..][..k] == b[1..][..k] && (k == |a[1..]| || a[1..][k] < b[1..][k]) {
      assert a[..k + 1] == [a[0]] + a[1..][..k] && b[..k + 1] == [b[0]] + b[1..][..k];
    }
  }

  function Compare(lhs: string, rhs: string): int {
    var (a, b) := (VersionParts(lhs), VersionParts(rhs));
    if a == [] || b == [] then CompareText(NormalizeVersionTag(lhs), NormalizeVersionTag(rhs))
    else CompareFrom(a, b, 0)
  }

  /** What is compared when a version is not numeric: the text without blanks around it and without one
      leading v. */
  lemma NormalizedIs(left: string, core: string, right: string)
    requires forall c | c in left + right :: c == ' ' || c == '\t' || c == '\r' || c == '\n'
    requires core == "" || (core[0] !in " \t\r\n" && core[|core| - 1] !in " \t\r\n")
    ensures NormalizeVersionTag(left + core + right)
         == if core != "" && core[0] in "vV" then core[1..] else core
  {
    assert forall c | c in left :: c in left + right;
    assert forall c | c in right :: c in left + right;
    TrimOfPadded(left, core, right, WHITESPACE);
  }

  /** Versions of which one is not numeric are ordered by that text. */
  lemma TextDecidesOtherwise(x: string, y: string)
    requires VersionParts(x) == [] || VersionParts(y) == []
    ensures Compare(x, y) == 0 <==> NormalizeVersionTag(x) == NormalizeVersionTag(y)
    ensures Compare(x, y) == -1 <==> TextBefore(NormalizeVersionTag(x), NormalizeVersionTag(y))
    ensures Compare(x, y) == -Compare(y, x)
  {
    hide VersionParts, NormalizeVersionTag, CompareText;
    CompareTextIsOrder(NormalizeVersionTag(x), NormalizeVersionTag(y));
    CompareTextIsOrder(NormalizeVersionTag(y), NormalizeVersionTag(x));
  }

  method CompareVersions(lhs: string, rhs: string) returns (r: int)
    ensures r == Compare(lhs, rhs)
  {
    hide VersionParts, NormalizeVersionTag, CompareText;
    var left := ParseVersionParts(lhs);
    var right := ParseVersionParts(rhs);
    if left == [] || right == [] {
      return CompareText(NormalizeVersionTag(lhs), NormalizeVersionTag(rhs));
    }
    for i := 0 to Longer(left, right)
      invariant CompareFrom(left, right, 0) == CompareFrom(left, right, i)
    {
      if At(left, i) < At(right, i) { return -1; }
      if At(left, i) > At(right, i) { return 1; }
    }
    return 0;
  }

  /** a and b agree from i on, read as if padded with zeros. */
  ghost predicate AgreeFrom(a: seq<nat>, b: seq<nat>, i: nat) {
    forall j: nat | i <= j :: At(a, j) == At(b, j)
  }

  /** a is smaller at the first place where they differ. */
  ghost predicate Before(a: seq<nat>, b: seq<nat>, i: nat) {
    exists k: nat :: i <= k && At(a, k) < At(b, k) && forall j: nat | i <= j < k :: At(a, j) == At(b, j)
  }

  /** The loop decides the order of the zero-padded lists. */
  lemma {:induction false} CompareIsLexicographic(a: seq<nat>, b: seq<nat>, i: nat)
    ensures CompareFrom(a, b, i) == 0 <==> AgreeFrom(a, b, i)
    ensures CompareFrom(a, b, i) == -1 <==> Before(a, b, i)
    ensures CompareFrom(a, b, i) == 1 <==> Before(b, a, i)
    ensures CompareFrom(a, b, i) in {-1, 0, 1}
    decreases Longer(a, b) - i
  {
    if i < Longer(a, b) {
      if At(a, i) == At(b, i) {
        CompareIsLexicographic(a, b, i + 1);
        BeforeSkips(a, b, i);
        BeforeSkips(b, a, i);
        assert AgreeFrom(a, b, i) <==> AgreeFrom(a, b, i + 1);
      }
    }
  }

  lemma BeforeSkips(a: seq<nat>, b: seq<nat>, i: nat)
    requires At(a, i) == At(b, i)
    ensures Before(a, b, i) <==> Before(a, b, i + 1)
  {
  }

  /** Numbers are the same, or one list goes on with zeros. */
  predicate Ties(a: seq<nat>, b: seq<nat>) {
    if |a| <= |b| then a == b[..|a|] && forall k | |a| <= k < |b| :: b[k] == 0
    else b == a[..|b|] && forall k | |b| <= k < |a| :: a[k] == 0
  }

  lemma TiesAgree(a: seq<nat>, b: seq<nat>)
    ensures Ties(a, b) <==> AgreeFrom(a, b, 0)
  {
    if AgreeFrom(a, b, 0) {
      forall k: nat | k < |a| || k < |b|
        ensures (if k < |a| then a[k] else 0) == if k < |b| then b[k] else 0
      {
        assert At(a, k) == At(b, k);
      }
    }
  }

  /** Up to some place they tie, and there b has the larger number, or a positive one where a has none. */
  predicate Smaller(a: seq<nat>, b: seq<nat>) {
    exists k :: 0 <= k < |b| && (if k < |a| then Ties(a[..k], b[..k]) && a[k] < b[k] else Ties(a, b[..k]) && 0 < b[k])
  }

  lemma SmallerIsBefore(a: seq<nat>, b: seq<nat>)
    ensures Smaller(a, b) <==> Before(a, b, 0)
  {
    forall k: nat
      ensures (k < |b| && (if k < |a| then Ties(a[..k], b[..k]) && a[k] < b[k] else Ties(a, b[..k]) && 0 < b[k]))
          <==> At(a, k) < At(b, k) && forall j: nat | j < k :: At(a, j) == At(b, j)
    {
      if k < |b| {
        TiesAgree(if k < |a| then a[..k] else a, b[..k]);
        UpTo(a, b, k);
      }
    }
  }

  lemma UpTo(a: seq<nat>, b: seq<nat>, k: nat)
    requires k <= |b|
    ensures AgreeFrom(if k < |a| then a[..k] else a, b[..k], 0) <==> forall j: nat | j < k :: At(a, j) == At(b, j)
  {
    var (a1, b1) := (if k < |a| then a[..k] else a, b[..k]);
    assert forall j: nat | j < k :: At(a1, j) == At(a, j) && At(b1, j) == At(b, j);
  }

  /** On numeric versions the comparison is a total preorder whose ties are lists equal up to trailing zeros. */
  lemma NumericVersionsAreOrdered(x: string, y: string, z: string)
    ensures var (a, b) := (VersionParts(x), VersionParts(y));
      a != [] && b != [] ==>
        && Compare(x, y) == -Compare(y, x)
        && (Compare(x, y) == 0 <==> Ties(a, b))
        && (Compare(x, y) == -1 <==> Smaller(a, b))
    ensures VersionParts(x) != [] && VersionParts(y) != [] && VersionParts(z) != [] ==>
      (Compare(x, y) <= 0 && Compare(y, z) <= 0 ==> Compare(x, z) <= 0)
  {
    hide VersionParts, Ties, Smaller;
    var (a, b, c) := (VersionParts(x), VersionParts(y), VersionParts(z));
    TiesAgree(a, b);
    SmallerIsBefore(a, b);
    CompareIsLexicographic(a, b, 0);
    CompareIsLexicographic(b, a, 0);
    CompareIsLexicographic(b, c, 0);
    CompareIsLexicographic(a, c, 0);
    if CompareFrom(a, b, 0) <= 0 && CompareFrom(b, c, 0) <= 0 {
      ChainsDown(a, b, c);
    }
  }

  lemma ChainsDown(a: seq<nat>, b: seq<nat>, c: seq<nat>)
    requires (AgreeFrom(a, b, 0) || Before(a, b, 0)) && (AgreeFrom(b, c, 0) || Before(b, c, 0))
    ensures AgreeFrom(a, c, 0) || Before(a, c, 0)
  {
    if Before(a, b, 0) && Before(b, c, 0) {
      var k: nat :| At(a, k) < At(b, k) && forall j: nat | 0 <= j < k :: At(a, j) == At(b, j);
      var m: nat :| At(b, m) < At(c, m) && forall j: nat | 0 <= j < m :: At(b, j) == At(c, j);
      var f := if k < m then k else m;
      assert At(a, f) < At(c, f) && forall j: nat | 0 <= j < f :: At(a, j) == At(c, j);
    } else if Before(a, b, 0) {
      var k: nat :| At(a, k) < At(b, k) && forall j: nat | 0 <= j < k :: At(a, j) == At(b, j);
      assert At(a, k) < At(c, k) && forall j: nat | 0 <= j < k :: At(a, j) == At(c, j);
    } else if Before(b, c, 0) {
      var m: nat :| At(b, m) < At(c, m) && forall j: nat | 0 <= j < m :: At(b, j) == At(c, j);
      assert At(a, m) < At(c, m) && forall j: nat | 0 <= j < m :: At(a, j) == At(c, j);
    }
  }

  // ---------------------------------------------------------------- printing and parsing

  function PrintedTokens(parts: seq<nat>): (r: seq<string>)
    ensures |r| == |parts|
    ensures forall i | 0 <= i < |parts| :: r[i] == Decimal(parts[i])
  {
    if parts == [] then [] else PrintedTokens(parts[..|parts| - 1]) + [Decimal(parts[|parts| - 1])]
  }

  function Print(parts: seq<nat>): string {
    JoinWith(PrintedTokens(parts), '.')
  }

  lemma {:induction false} PrintedPartsRead(parts: seq<nat>)
    requires forall p | p in parts :: p < Pow10(MAX_DIGITS)
    ensures Parts(PrintedTokens(parts)) == Some(parts)
  {
    if parts != [] {
      var last := parts[|parts| - 1];
      var front := parts[..|parts| - 1];
      assert last in parts && forall p | p in front :: p in parts;
      assert front + [last] == parts;
      PrintedPartsRead(front);
      DecimalIsShort(last, MAX_DIGITS);
      DecimalReadsBack(last);
      assert PrintedTokens(parts)[..|parts| - 1] == PrintedTokens(parts[..|parts| - 1]);
    }
  }

  lemma {:induction false} NumericTextIsKept(s: string, rest: string)
    requires forall c | c in s :: IsDigit(c) || c == '.'
    requires rest == "" || !(IsDigit(rest[0]) || rest[0] == '.')
    ensures Numeric(s + rest) == s
  {
    if s == "" {
      assert s + rest == rest;
    } else {
      assert s[0] in s && (s + rest)[1..] == s[1..] + rest;
      NumericTextIsKept(s[1..], rest);
    }
  }

  lemma {:induction false} PrintIsNumericText(tokens: seq<string>)
    requires forall i | 0 <= i < |tokens| :: tokens[i] != "" && forall c | c in tokens[i] :: IsDigit(c)
    ensures forall c | c in JoinWith(tokens, '.') :: IsDigit(c) || c == '.'
    ensures tokens != [] ==> JoinWith(tokens, '.') != "" && IsDigit(JoinWith(tokens, '.')[0])
                             && IsDigit(JoinWith(tokens, '.')[|JoinWith(tokens, '.')| - 1])
  {
    if |tokens| == 1 {
      assert tokens[0][0] in tokens[0] && tokens[0][|tokens[0]| - 1] in tokens[0];
    } else if |tokens| > 1 {
      var last := tokens[|tokens| - 1];
      PrintIsNumericText(tokens[..|tokens| - 1]);
      assert last[|last| - 1] in last;
    }
  }

  /** Parsing finds the parts of a dotted print of numbers of at most nine digits behind blanks and a leading
      v, and in front of anything that does not go on with a digit or a dot, such as "-rc1". */
  lemma PrintReadsBack(left: string, tag: string, parts: seq<nat>, rest: string)
    requires parts != [] && forall p | p in parts :: p < 1_000_000_000
    requires (forall c | c in left :: c == ' ' || c == '\t' || c == '\r' || c == '\n')
    requires tag == "" || tag == "v" || tag == "V"
    requires rest == "" || !('0' <= rest[0] <= '9' || rest[0] == '.')
    ensures VersionParts(left + (tag + Print(parts)) + rest) == parts
  {
    hide NormalizeVersionTag, Numeric, Getline, Parts, Decimal, JoinWith;
    var tokens := PrintedTokens(parts);
    var s := Print(parts);
    NineDigits();
    forall i | 0 <= i < |tokens| ensures tokens[i] != "" && '.' !in tokens[i] && forall c | c in tokens[i] :: IsDigit(c) {
      DecimalReadsBack(parts[i]);
      DecimalIsSomething(parts[i]);
    }
    PrintIsNumericText(tokens);
    TagIsDropped(left, tag, s, rest);
    var after := TrimRight(rest, WHITESPACE);
    TrimRightIsPrefix(rest, WHITESPACE);
    NumericTextIsKept(s, after);
    GetlineOfJoin(tokens, '.');
    PrintedPartsRead(parts);
  }

  lemma NineDigits()
    ensures Pow10(MAX_DIGITS) == 1_000_000_000
  {
    assert Pow10(9) == 10 * Pow10(8) && Pow10(8) == 10 * Pow10(7) && Pow10(7) == 10 * Pow10(6) && Pow10(6) == 1_000_000;
  }

  lemma TagIsDropped(left: string, tag: string, s: string, rest: string)
    requires (forall c | c in left :: c in WHITESPACE) && (tag == "" || tag == "v" || tag == "V")
    requires s != "" && IsDigit(s[0]) && IsDigit(s[|s| - 1])
    ensures NormalizeVersionTag(left + (tag + s) + rest) == s + TrimRight(rest, WHITESPACE)
  {
    hide Trim, TrimRight;
    var core := tag + s;
    assert core[|core| - 1] == s[|s| - 1];
    TrimKeepsCore(left, core, rest, WHITESPACE);
    assert (core + TrimRight(rest, WHITESPACE))[|tag|..] == s + TrimRight(rest, WHITESPACE);
  }

  lemma DecimalIsSomething(n: nat)
    ensures Decimal(n) != ""
  {
  }

  /** The nine-digit cap keeps every part within a 32-bit int. */
  lemma {:induction false} PartsFitInInt(tokens: seq<string>)
    requires Parts(tokens).Some?
    ensures forall p | p in Parts(tokens).value :: p < 0x7FFF_FFFF
  {
    if tokens != [] {
      PartsFitInInt(tokens[..|tokens| - 1]);
      var token := tokens[|tokens| - 1];
      ShortDigitsAreSmall(token);
      PowersGrow(|token|, MAX_DIGITS);
      NineDigits();
    }
  }

  lemma {:induction false} PowersGrow(a: nat, b: nat)
    requires a <= b
    ensures Pow10(a) <= Pow10(b)
    decreases b - a
  {
    if a < b { PowersGrow(a + 1, b); }
  }
}
