/** `inventory_matches` of nmc_bmc_observer/src/lib.rs: its search, its two sorted lists and its device loop,
    against what they are for. */
module InventoryCheck {
  import opened Sequences
  import opened BmcState

  // ---------------------------------------------------------------- sorting

  /** The order of strings by their characters. */
  predicate Below(a: string, b: string) {
    a == "" || (b != "" && (a[0] < b[0] || (a[0] == b[0] && Below(a[1..], b[1..]))))
  }

  lemma {:induction false} BelowIsTotal(a: string, b: string)
    ensures Below(a, b) || Below(b, a)
    ensures Below(a, b) && Below(b, a) ==> a == b
  {
    if a != "" && b != "" && a[0] == b[0] {
      BelowIsTotal(a[1..], b[1..]);
      assert a == [a[0]] + a[1..] && b == [b[0]] + b[1..];
    }
  }

  lemma {:induction false} BelowIsTransitive(a: string, b: string, c: string)
    requires Below(a, b) && Below(b, c)
    ensures Below(a, c)
  {
    if a != "" && a[0] == b[0] && b[0] == c[0] { BelowIsTransitive(a[1..], b[1..], c[1..]); }
  }

  function Insert(x: string, xs: seq<string>): seq<string> {
    if xs == [] || Below(x, xs[0]) then [x] + xs else [xs[0]] + Insert(x, xs[1..])
  }

  function Sort(xs: seq<string>): seq<string> {
    if xs == [] then [] else Insert(xs[0], Sort(xs[1..]))
  }

  predicate Ascending(xs: seq<string>) {
    forall i, j | 0 <= i < j < |xs| :: Below(xs[i], xs[j])
  }

  lemma {:induction false} InsertHolds(x: string, xs: seq<string>)
    ensures multiset(Insert(x, xs)) == multiset(xs) + multiset{x}
  {
    hide Below;
    if xs != [] && !Below(x, xs[0]) {
      InsertHolds(x, xs[1..]);
      assert xs == [xs[0]] + xs[1..];
    }
  }

  lemma AscendsFrom(x: string, xs: seq<string>)
    requires Ascending(xs) && forall y | y in xs :: Below(x, y)
    ensures Ascending([x] + xs)
  {
    hide Below;
    assert forall i | 0 <= i < |xs| :: xs[i] in xs;
  }

  lemma {:induction false} InsertKeeps(x: string, xs: seq<string>)
    requires Ascending(xs)
    ensures Ascending(Insert(x, xs)) && multiset(Insert(x, xs)) == multiset(xs) + multiset{x}
  {
    hide Below;
    InsertHolds(x, xs);
    if xs == [] {
      AscendsFrom(x, xs);
    } else if Below(x, xs[0]) {
      forall y | y in xs ensures Below(x, y) {
        FirstIsLeast(xs, y);
        BelowIsTransitive(x, xs[0], y);
      }
      AscendsFrom(x, xs);
    } else {
      InsertKeeps(x, xs[1..]);
      BelowIsTotal(x, xs[0]);
      forall y | y in Insert(x, xs[1..]) ensures Below(xs[0], y) {
        assert y in multiset(Insert(x, xs[1..]));
        if y != x {
          assert y in multiset(xs[1..]) && y in xs;
          FirstIsLeast(xs, y);
        }
      }
      AscendsFrom(xs[0], Insert(x, xs[1..]));
    }
  }

  lemma NothingAscends()
    ensures Ascending([])
  {
  }

  lemma {:induction false} SortKeeps(xs: seq<string>)
    ensures Ascending(Sort(xs)) && multiset(Sort(xs)) == multiset(xs)
  {
    hide Below, Ascending, Insert;
    if xs == [] {
      NothingAscends();
    } else {
      SortKeeps(xs[1..]);
      InsertKeeps(xs[0], Sort(xs[1..]));
      assert xs == [xs[0]] + xs[1..];
    }
  }

  lemma FirstIsLeast(a: seq<string>, x: string)
    requires Ascending(a) && a != [] && x in a
    ensures Below(a[0], x)
  {
    var i :| 0 <= i < |a| && a[i] == x;
    BelowIsTotal(a[0], a[0]);
  }

  lemma RestOf(a: seq<string>)
    requires a != []
    ensures multiset(a[1..]) == multiset(a) - multiset{a[0]}
    ensures Ascending(a) ==> Ascending(a[1..])
  {
    hide Below;
    assert a == [a[0]] + a[1..];
  }

  lemma {:induction false} AscendingIsUnique(a: seq<string>, b: seq<string>)
    requires Ascending(a) && Ascending(b) && multiset(a) == multiset(b)
    ensures a == b
  {
    hide Below, Ascending;
    assert |a| == |multiset(a)| == |multiset(b)| == |b|;
    if a != [] {
      assert a[0] in multiset(a) && b[0] in multiset(b);
      FirstIsLeast(a, b[0]);
      FirstIsLeast(b, a[0]);
      BelowIsTotal(a[0], b[0]);
      RestOf(a);
      RestOf(b);
      AscendingIsUnique(a[1..], b[1..]);
      assert a == [a[0]] + a[1..] && b == [b[0]] + b[1..];
    }
  }

  /** Sorting and comparing tells whether two lists hold the same hosts equally often. */
  lemma SortedListsAgreeIff(a: seq<string>, b: seq<string>)
    ensures Sort(a) == Sort(b) <==> multiset(a) == multiset(b)
  {
    SortKeeps(a);
    SortKeeps(b);
    if multiset(a) == multiset(b) { AscendingIsUnique(Sort(a), Sort(b)); }
  }

  // ---------------------------------------------------------------- the check

  /** The first row with the controller's id names its endpoint, its protocol and its hosts. */
  ghost predicate RowAgrees(c: Controller, inv: Inventory) {
    exists i :: 0 <= i < |inv.controllers|
      && inv.controllers[i].id == c.id && (forall j | 0 <= j < i :: inv.controllers[j].id != c.id)
      && inv.controllers[i].endpoint == c.endpoint && inv.controllers[i].protocol == c.protocol
      && multiset(inv.controllers[i].manages) == multiset(c.manages)
  }

  /** Every host has a device row that names the controller. */
  ghost predicate HostsAgree(c: Controller, inv: Inventory) {
    forall k | 0 <= k < |c.manages| ::
      exists d :: 0 <= d < |inv.devices| && inv.devices[d].id == c.manages[k] && inv.devices[d].controllerId == c.id
  }

  /** The inventory says of itself that it is current, and it is at most maxAge old. */
  predicate InTime(inv: Inventory, at: int, maxAge: int) {
    inv.knownCurrent && 0 < inv.generatedAt <= at && at - inv.generatedAt <= maxAge
  }

  method CheckInventory(c: Controller, inv: Inventory, at: int, maxAge: int) returns (ok: bool)
    ensures ok <==> InTime(inv, at, maxAge) && RowAgrees(c, inv) && HostsAgree(c, inv)
  {
    if !inv.knownCurrent || !Fresh(inv.generatedAt, at, maxAge) { return false; }
    var i := 0;
    while i < |inv.controllers| && inv.controllers[i].id != c.id
      invariant 0 <= i <= |inv.controllers|
      invariant forall j | 0 <= j < i :: inv.controllers[j].id != c.id
    {
      i := i + 1;
    }
    if i == |inv.controllers| { return false; }
    var b := inv.controllers[i];
    SortedListsAgreeIff(b.manages, c.manages);
    if !(b.endpoint == c.endpoint && b.protocol == c.protocol && Sort(b.manages) == Sort(c.manages)) { return false; }
    for k := 0 to |c.manages|
      invariant forall l | 0 <= l < k ::
        exists d :: 0 <= d < |inv.devices| && inv.devices[d].id == c.manages[l] && inv.devices[d].controllerId == c.id
    {
      var found := false;
      for d := 0 to |inv.devices|
        invariant found <==> exists e :: 0 <= e < d && inv.devices[e].id == c.manages[k] && inv.devices[e].controllerId == c.id
      {
        if inv.devices[d].id == c.manages[k] && inv.devices[d].controllerId == c.id { found := true; }
      }
      if !found { return false; }
    }
    ok := true;
  }

  lemma {:induction false} FoundRowIsFirst(rs: seq<Registered>, id: Id)
    ensures FindRegistered(rs, id).Some? <==> exists i :: 0 <= i < |rs| && rs[i].id == id
    ensures forall i | 0 <= i < |rs| && rs[i].id == id && (forall j | 0 <= j < i :: rs[j].id != id) ::
      FindRegistered(rs, id) == Some(rs[i])
  {
    if rs != [] && rs[0].id != id {
      FoundRowIsFirst(rs[1..], id);
      forall i | 0 <= i < |rs| && rs[i].id == id && (forall j | 0 <= j < i :: rs[j].id != id)
        ensures FindRegistered(rs, id) == Some(rs[i])
      {
        assert rs[1..][i - 1] == rs[i];
        assert forall j | 0 <= j < i - 1 :: rs[1..][j] == rs[j + 1];
      }
      if i :| 0 <= i < |rs| && rs[i].id == id { assert rs[1..][i - 1] == rs[i]; }
    }
  }

  lemma {:induction false} FirstRow(rs: seq<Registered>, id: Id) returns (i: nat)
    requires FindRegistered(rs, id).Some?
    ensures i < |rs| && rs[i].id == id && rs[i] == FindRegistered(rs, id).value
    ensures forall j | 0 <= j < i :: rs[j].id != id
  {
    if rs[0].id == id {
      i := 0;
    } else {
      var k := FirstRow(rs[1..], id);
      i := k + 1;
      assert forall j | 1 <= j < i :: rs[j] == rs[1..][j - 1];
    }
  }

  lemma RowAgreesIff(c: Controller, inv: Inventory)
    ensures RowAgrees(c, inv) <==>
      var b := FindRegistered(inv.controllers, c.id);
      b.Some? && b.value.endpoint == c.endpoint && b.value.protocol == c.protocol
      && multiset(b.value.manages) == multiset(c.manages)
  {
    hide FindRegistered;
    FoundRowIsFirst(inv.controllers, c.id);
    if FindRegistered(inv.controllers, c.id).Some? {
      var i := FirstRow(inv.controllers, c.id);
    }
  }

  lemma HostsAgreeIff(c: Controller, inv: Inventory)
    ensures HostsAgree(c, inv) <==> forall h | h in c.manages :: Device(h, c.id) in inv.devices
  {
    if HostsAgree(c, inv) {
      forall h | h in c.manages ensures Device(h, c.id) in inv.devices {
        var k :| 0 <= k < |c.manages| && c.manages[k] == h;
        var d :| 0 <= d < |inv.devices| && inv.devices[d].id == c.manages[k] && inv.devices[d].controllerId == c.id;
        assert inv.devices[d] == Device(h, c.id);
      }
    }
    if forall h | h in c.manages :: Device(h, c.id) in inv.devices {
      forall k | 0 <= k < |c.manages|
        ensures exists d :: 0 <= d < |inv.devices| && inv.devices[d].id == c.manages[k] && inv.devices[d].controllerId == c.id
      {
        assert c.manages[k] in c.manages;
        var d :| 0 <= d < |inv.devices| && inv.devices[d] == Device(c.manages[k], c.id);
      }
    }
  }

  /** The check of a running observer asks for exactly that. */
  lemma MatchesIff(c: Controller, inv: Inventory, at: int, maxAge: int)
    ensures InventoryMatches(c, inv, at, maxAge)
       <==> InTime(inv, at, maxAge) && RowAgrees(c, inv) && HostsAgree(c, inv)
  {
    hide RowAgrees, HostsAgree, FindRegistered;
    RowAgreesIff(c, inv);
    HostsAgreeIff(c, inv);
  }
}
