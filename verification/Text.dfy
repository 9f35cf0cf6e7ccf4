/** String helpers that several client files share in spirit: trimming, `std::getline`, joining. */
module Text {
  import opened Sequences

  function TrimLeft(s: string, blank: set<char>): string {
    if s != "" && s[0] in blank then TrimLeft(s[1..], blank) else s
  }

  function TrimRight(s: string, blank: set<char>): string {
    if s != "" && s[|s| - 1] in blank then TrimRight(s[..|s| - 1], blank) else s
  }

  /** From the first to the last character outside `blank`. */
  function Trim(s: string, blank: set<char>): string {
    TrimRight(TrimLeft(s, blank), blank)
  }

  lemma {:induction false} TrimLeftSkips(left: string, core: string, blank: set<char>)
    requires (forall c | c in left :: c in blank) && (core == "" || core[0] !in blank)
    ensures TrimLeft(left + core, blank) == core
  {
    if left == "" {
      assert left + core == core;
    } else {
      assert left[0] in left && forall c | c in left[1..] :: c in left;
      assert (left + core)[1..] == left[1..] + core;
      TrimLeftSkips(left[1..], core, blank);
    }
  }

  lemma {:induction false} TrimRightStops(core: string, rest: string, blank: set<char>)
    requires core != "" && core[|core| - 1] !in blank
    ensures TrimRight(core + rest, blank) == core + TrimRight(rest, blank)
  {
    if rest == "" {
      assert core + rest == core;
    } else {
      var s := core + rest;
      assert s[|s| - 1] == rest[|rest| - 1] && s[..|s| - 1] == core + rest[..|rest| - 1];
      TrimRightStops(core, rest[..|rest| - 1], blank);
    }
  }

  lemma {:induction false} TrimRightIsPrefix(s: string, blank: set<char>)
    ensures TrimRight(s, blank) <= s
    ensures (forall c | c in s :: c in blank) ==> TrimRight(s, blank) == ""
    ensures TrimRight(s, blank) != "" ==> TrimRight(s, blank)[|TrimRight(s, blank)| - 1] !in blank
  {
    if s != "" && s[|s| - 1] in blank {
      assert forall c | c in s[..|s| - 1] :: c in s;
      TrimRightIsPrefix(s[..|s| - 1], blank);
    }
  }

  /** Trimming takes off what is blank at the left, keeps a core that begins and ends with something else,
      and treats what follows on its own. */
  lemma TrimKeepsCore(left: string, core: string, rest: string, blank: set<char>)
    requires (forall c | c in left :: c in blank) && core != "" && core[0] !in blank && core[|core| - 1] !in blank
    ensures Trim(left + core + rest, blank) == core + TrimRight(rest, blank)
  {
    assert left + core + rest == left + (core + rest);
    TrimLeftSkips(left, core + rest, blank);
    TrimRightStops(core, rest, blank);
  }

  /** Trimming takes off exactly the blanks at both ends. */
  lemma TrimOfPadded(left: string, core: string, right: string, blank: set<char>)
    requires (forall c | c in left :: c in blank) && forall c | c in right :: c in blank
    requires core == "" || (core[0] !in blank && core[|core| - 1] !in blank)
    ensures Trim(left + core + right, blank) == core
  {
    if core == "" {
      var s := left + core + right;
      assert forall c | c in s :: c in blank;
      assert s == s + "";
      TrimLeftSkips(s, "", blank);
    } else {
      TrimKeepsCore(left, core, right, blank);
      TrimRightIsPrefix(right, blank);
      assert core + "" == core;
    }
  }

  /** Index of the first d, or |s|. */
  function Find(s: string, d: char): (r: nat)
    ensures r <= |s| && d !in s[..r] && (r < |s| ==> s[r] == d)
  {
    if s == "" || s[0] == d then 0
    else
      var r := 1 + Find(s[1..], d);
      assert s[..r] == [s[0]] + s[1..][..r - 1];
      r
  }

  /** The items successive calls of getline extract; a final delimiter ends the last item and starts no
      new one. */
  function Getline(s: string, d: char): seq<string> {
    if s == "" then []
    else
      var e := Find(s, d);
      if e == |s| then [s] else [s[..e]] + Getline(s[e + 1..], d)
  }

  lemma GetlineStep(s: string, d: char)
    requires s != ""
    ensures var e := Find(s, d); Getline(s, d) == [s[..e]] + Getline(if e == |s| then "" else s[e + 1..], d)
  {
    assert s[..|s|] == s;
  }

  lemma NothingToGet(d: char)
    ensures Getline("", d) == []
  {
  }

  function JoinWith(items: seq<string>, d: char): string {
    if items == [] then ""
    else if |items| == 1 then items[0]
    else JoinWith(items[..|items| - 1], d) + [d] + items[|items| - 1]
  }

  predicate Items(items: seq<string>, d: char) {
    forall i | 0 <= i < |items| :: items[i] != "" && d !in items[i]
  }

  lemma {:induction false} FindIsFirst(item: string, rest: string, d: char)
    requires d !in item && (rest == "" || rest[0] == d)
    ensures Find(item + rest, d) == |item|
  {
    if item == "" {
      assert item + rest == rest;
    } else {
      assert (item + rest)[1..] == item[1..] + rest;
      FindIsFirst(item[1..], rest, d);
    }
  }

  lemma GetlineHead(item: string, rest: string, d: char)
    requires item != "" && d !in item
    ensures Getline(item, d) == [item]
    ensures Getline(item + [d] + rest, d) == [item] + Getline(rest, d)
  {
    FindIsFirst(item, "", d);
    FindIsFirst(item, [d] + rest, d);
    assert item + "" == item;
    var s := item + [d] + rest;
    assert s == item + ([d] + rest) && s[..|item|] == item && s[|item| + 1..] == rest;
  }

  lemma {:induction false} JoinFromLeft(items: seq<string>, d: char)
    requires |items| > 1
    ensures JoinWith(items, d) == items[0] + [d] + JoinWith(items[1..], d)
  {
    var last := |items| - 1;
    if last == 1 {
      assert items[..1] == [items[0]] && items[1..] == [items[1]];
    } else {
      JoinFromLeft(items[..last], d);
      assert items[..last][1..] == items[1..][..last - 1];
      var mid := JoinWith(items[1..][..last - 1], d);
      assert items[0] + [d] + mid + [d] + items[last] == items[0] + [d] + (mid + [d] + items[last]);
    }
  }

  /** Reading a joined list of non-empty, delimiter-free items gives the items back. */
  lemma {:induction false} GetlineOfJoin(items: seq<string>, d: char)
    requires Items(items, d)
    ensures Getline(JoinWith(items, d), d) == items
  {
    if |items| == 1 {
      GetlineHead(items[0], "", d);
    } else if |items| > 1 {
      JoinFromLeft(items, d);
      GetlineOfJoin(items[1..], d);
      GetlineHead(items[0], JoinWith(items[1..], d), d);
      assert items == [items[0]] + items[1..];
    }
  }

  lemma JoinOneMore(item: string, items: seq<string>, d: char)
    requires items != []
    ensures JoinWith([item] + items, d) == item + [d] + JoinWith(items, d)
  {
    JoinFromLeft([item] + items, d);
    assert ([item] + items)[1..] == items;
  }

  lemma JoinOfOne(item: string, d: char)
    ensures JoinWith([item], d) == item && JoinWith([], d) == ""
  {
  }

  lemma {:induction false} NoDelimiterInside(s: string, d: char)
    ensures forall i | 0 <= i < |Getline(s, d)| :: d !in Getline(s, d)[i]
    ensures s != "" ==> Getline(s, d) != []
    decreases |s|
  {
    if s != "" {
      var e := Find(s, d);
      assert s[..|s|] == s;
      if e < |s| { NoDelimiterInside(s[e + 1..], d); }
    }
  }

  function FinalDelimiter(s: string, d: char): string {
    if s != "" && s[|s| - 1] == d then [d] else ""
  }

  lemma JoinWithRest(front: string, later: string, d: char)
    requires later != "" && JoinWith(Getline(later, d), d) + FinalDelimiter(later, d) == later && Getline(later, d) != []
    ensures JoinWith([front] + Getline(later, d), d) + FinalDelimiter(front + [d] + later, d) == front + [d] + later
  {
    hide JoinWith, Getline;
    JoinOneMore(front, Getline(later, d), d);
    assert front + [d] + JoinWith(Getline(later, d), d) + FinalDelimiter(later, d)
        == front + [d] + (JoinWith(Getline(later, d), d) + FinalDelimiter(later, d));
  }

  /** Nothing is lost: joining what was extracted gives the text back, up to one final delimiter. */
  lemma {:induction false} JoinOfGetline(s: string, d: char)
    ensures JoinWith(Getline(s, d), d) + FinalDelimiter(s, d) == s
    decreases |s|
  {
    hide JoinWith, Getline;
    if s == "" {
      NothingToGet(d);
      JoinOfOne("", d);
    } else {
      var e := Find(s, d);
      GetlineStep(s, d);
      NothingToGet(d);
      if e == |s| {
        JoinOfOne(s, d);
        assert s[..e] == s && s[|s| - 1] in s && [s] + [] == [s];
        assert s + "" == s;
      } else {
        var later := s[e + 1..];
        JoinOfGetline(later, d);
        NoDelimiterInside(later, d);
        assert s == s[..e] + [d] + later;
        if later == "" {
          JoinOfOne(s[..e], d);
          assert [s[..e]] + [] == [s[..e]];
        } else {
          GetlineStep(later, d);
          JoinWithRest(s[..e], later, d);
        }
      }
    }
  }

  // ---------------------------------------------------------------- decimal numbers

  /** The value of a non-empty run of decimal digits. */
  function DigitsValue(s: string): Option<nat> {
    if s == "" then None
    else if !('0' <= s[|s| - 1] <= '9') then None
    else
      var d := s[|s| - 1] as int - '0' as int;
      if |s| == 1 then Some(d)
      else
        var front := DigitsValue(s[..|s| - 1]);
        if front.None? then None else Some(front.value * 10 + d)
  }

  function Decimal(n: nat): string {
    if n < 10 then [('0' as int + n) as char] else Decimal(n / 10) + [('0' as int + n % 10) as char]
  }

  function Pow10(k: nat): nat {
    if k == 0 then 1 else 10 * Pow10(k - 1)
  }

  lemma {:induction false} DecimalReadsBack(n: nat)
    ensures DigitsValue(Decimal(n)) == Some(n)
    ensures forall c | c in Decimal(n) :: '0' <= c <= '9'
  {
    if n >= 10 {
      DecimalReadsBack(n / 10);
      assert Decimal(n)[..|Decimal(n)| - 1] == Decimal(n / 10);
    }
  }

  predicate AllDigits(s: string) {
    s != "" && forall i | 0 <= i < |s| :: '0' <= s[i] <= '9'
  }

  lemma {:induction false} DigitsValueIff(s: string)
    ensures DigitsValue(s).Some? <==> AllDigits(s)
  {
    if |s| > 1 { DigitsValueIff(s[..|s| - 1]); }
  }

  lemma {:induction false} LeadingZeroIsIgnored(s: string)
    requires AllDigits(s)
    ensures DigitsValue("0" + s) == DigitsValue(s)
  {
    DigitsValueIff(s);
    assert ("0" + s)[..|s|] == "0" + s[..|s| - 1];
    if |s| > 1 { LeadingZeroIsIgnored(s[..|s| - 1]); }
  }

  lemma {:induction false} DecimalIsShort(n: nat, k: nat)
    requires 0 < k && n < Pow10(k)
    ensures 0 < |Decimal(n)| <= k
  {
    if n >= 10 { DecimalIsShort(n / 10, k - 1); }
  }

  lemma {:induction false} ShortDigitsAreSmall(s: string)
    requires DigitsValue(s).Some?
    ensures DigitsValue(s).value < Pow10(|s|)
  {
    if |s| > 1 { ShortDigitsAreSmall(s[..|s| - 1]); }
  }
}
