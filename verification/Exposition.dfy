/** Label values of the Prometheus text exposition format 0.0.4 (`prom_label`). */
module Exposition {
  import opened Sequences

  /** Unicode category Cc. */
  predicate IsControl(c: char) {
    c as int < 0x20 || 0x7F <= c as int <= 0x9F
  }

  function Clean(value: string): string {
    if value == "" then ""
    else (if !IsControl(value[0]) || value[0] == '\n' then [value[0]] else "") + Clean(value[1..])
  }

  /** `str::replace` with a one-character pattern. */
  function Replace(s: string, c: char, sub: string): string {
    if s == "" then "" else (if s[0] == c then sub else [s[0]]) + Replace(s[1..], c, sub)
  }

  function Escaped(clean: string): string {
    Replace(Replace(Replace(clean, '\\', "\\\\"), '\"', "\\\""), '\n', "\\n")
  }

  function PromLabel(value: string): string {
    "\"" + Escaped(Clean(value)) + "\""
  }

  function EscapeChar(c: char): string {
    if c == '\\' then "\\\\" else if c == '\"' then "\\\"" else if c == '\n' then "\\n" else [c]
  }

  /** Reads a label value up to its closing quote: the value and what follows. None for a raw line
      feed, an unknown escape or a missing quote. */
  function ReadValue(s: string): Option<(string, string)>
    decreases |s|
  {
    if s == "" || s[0] == '\n' then None
    else if s[0] == '\"' then Some(("", s[1..]))
    else if s[0] != '\\' then Prepend(s[0], ReadValue(s[1..]))
    else if |s| == 1 then None
    else if s[1] == '\\' || s[1] == '\"' then Prepend(s[1], ReadValue(s[2..]))
    else if s[1] == 'n' then Prepend('\n', ReadValue(s[2..]))
    else None
  }

  function Prepend(c: char, r: Option<(string, string)>): Option<(string, string)> {
    if r.None? then None else Some(([c] + r.value.0, r.value.1))
  }

  function ReadLabel(s: string): Option<(string, string)> {
    if s == "" || s[0] != '\"' then None else ReadValue(s[1..])
  }

  lemma {:induction false} ReplaceAppend(a: string, b: string, c: char, sub: string)
    ensures Replace(a + b, c, sub) == Replace(a, c, sub) + Replace(b, c, sub)
  {
    if a != "" {
      assert (a + b)[1..] == a[1..] + b;
      ReplaceAppend(a[1..], b, c, sub);
    } else {
      assert a + b == b;
    }
  }

  /** The three replacements in a row act on each character once: no replacement touches what an
      earlier one produced in a way that matters. */
  lemma EscapedByCharacter(clean: string)
    requires clean != ""
    ensures Escaped(clean) == EscapeChar(clean[0]) + Escaped(clean[1..])
  {
    var rest := Replace(clean[1..], '\\', "\\\\");
    var first := if clean[0] == '\\' then "\\\\" else [clean[0]];
    ReplaceAppend(first, rest, '\"', "\\\"");
    var second := Replace(first, '\"', "\\\"");
    assert second == if clean[0] == '\\' then "\\\\" else if clean[0] == '\"' then "\\\"" else [clean[0]] by {
      ReplaceShort(first, '\"', "\\\"");
    }
    ReplaceAppend(second, Replace(rest, '\"', "\\\""), '\n', "\\n");
    ReplaceShort(second, '\n', "\\n");
  }

  lemma ReplaceShort(s: string, c: char, sub: string)
    requires 1 <= |s| <= 2
    ensures Replace(s, c, sub) == (if s[0] == c then sub else [s[0]]) + (if |s| == 1 then "" else if s[1] == c then sub else [s[1]])
  {
  }

  lemma {:induction false} EscapedReadsBack(clean: string, rest: string)
    ensures ReadValue(Escaped(clean) + "\"" + rest) == Some((clean, rest))
  {
    var tail := "\"" + rest;
    if clean == "" {
      assert Escaped(clean) + "\"" + rest == tail;
    } else {
      EscapedByCharacter(clean);
      EscapedReadsBack(clean[1..], rest);
      var head := EscapeChar(clean[0]);
      var later := Escaped(clean[1..]) + "\"" + rest;
      assert Escaped(clean) + "\"" + rest == head + later;
      assert (head + later)[|head|..] == later;
      assert [clean[0]] + clean[1..] == clean;
      assert ReadValue(head + later) == Prepend(clean[0], ReadValue(later));
    }
  }

  /** A reader of the format gets back the value without its control characters, line feeds kept, and
      stops exactly where the label ends. */
  lemma LabelReadsBack(value: string, rest: string)
    ensures ReadLabel(PromLabel(value) + rest) == Some((Clean(value), rest))
  {
    EscapedReadsBack(Clean(value), rest);
    assert (PromLabel(value) + rest)[1..] == Escaped(Clean(value)) + "\"" + rest;
  }

  /** Cleaning drops exactly the C0 controls except the line feed, DEL and the C1 controls: every other
      character stays as often as it was. */
  lemma {:induction false} CleanKeepsRest(value: string, c: char)
    ensures multiset(Clean(value))[c]
         == if c != '\n' && (c as int < 32 || 127 <= c as int < 160) then 0 else multiset(value)[c]
  {
    if value != "" {
      CleanKeepsRest(value[1..], c);
      assert value == [value[0]] + value[1..];
    }
  }

  /** And the order is kept. */
  lemma {:induction false} CleanKeepsOrder(value: string)
    ensures IsSubsequence(Clean(value), value)
  {
    if value != "" {
      CleanKeepsOrder(value[1..]);
      HeadOrNot(value, Clean(value[1..]));
    }
  }

  lemma HeadOrNot(value: string, rest: string)
    requires value != "" && IsSubsequence(rest, value[1..])
    ensures IsSubsequence([value[0]] + rest, value) && IsSubsequence("" + rest, value)
  {
    var one := [value[0]];
    assert one[..0] == [] && value == one + value[1..];
    SubsequencesConcatenate(one, one, rest, value[1..]);
    SubsequencesConcatenate("", one, rest, value[1..]);
  }
}
