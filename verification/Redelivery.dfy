/** Resending a batch that a failed commit or a crash interrupted. */
module Redelivery {
  import opened Sequences
  import opened BmcState
  import opened Durability
  import opened Regions

  /** The part of a controller's state that deduplication works on. */
  datatype Window = Window(seen: seq<Key>, total: nat)

  function WindowOf(c: ControllerState): Window {
    Window(c.seen, c.eventsTotal)
  }

  function Feed(w: Window, k: Key): Window {
    if k in w.seen then w else Window(Slide(w.seen, k), w.total + 1)
  }

  /** One uninterrupted delivery. */
  function FeedAll(w: Window, keys: seq<Key>): Window {
    if keys == [] then w else Feed(FeedAll(w, keys[..|keys| - 1]), keys[|keys| - 1])
  }

  /** The keys a delivery counts. */
  function Pushed(w: Window, keys: seq<Key>): (r: seq<Key>)
    ensures |r| <= |keys|
    ensures forall k | k in r :: k in keys
  {
    if keys == [] then []
    else
      var last := |keys| - 1;
      var before := Pushed(w, keys[..last]);
      if keys[last] in FeedAll(w, keys[..last]).seen then before else before + [keys[last]]
  }

  /** How many of the oldest entries n arrivals can push out. */
  function Evicted(w: Window, n: nat): (r: nat)
    ensures r <= n || |w.seen| > WINDOW
  {
    if |w.seen| + n <= WINDOW then 0 else |w.seen| + n - WINDOW
  }

  // ---------------------------------------------------------------- one delivery

  lemma {:induction false} FeedAllSlides(w: Window, keys: seq<Key>)
    requires |w.seen| <= WINDOW
    ensures FeedAll(w, keys) == Window(Last(w.seen + Pushed(w, keys), 512), w.total + |Pushed(w, keys)|)
  {
    if keys != [] {
      var last := |keys| - 1;
      FeedAllSlides(w, keys[..last]);
      if keys[last] !in FeedAll(w, keys[..last]).seen {
        var before := w.seen + Pushed(w, keys[..last]);
        assert w.seen + Pushed(w, keys) == before + [keys[last]];
        assert Slide(Last(before, WINDOW), keys[last]) == Last(before + [keys[last]], WINDOW);
      }
    }
  }

  lemma {:induction false} FeedAllAppend(w: Window, a: seq<Key>, b: seq<Key>)
    ensures FeedAll(w, a + b) == FeedAll(FeedAll(w, a), b)
    decreases |b|
  {
    if b == [] {
      assert a + b == a;
    } else {
      var last := |b| - 1;
      FeedAllAppend(w, a, b[..last]);
      assert (a + b)[..|a + b| - 1] == a + b[..last];
    }
  }

  lemma {:induction false} FeedAllKnown(w: Window, keys: seq<Key>)
    requires forall k | k in keys :: k in w.seen
    ensures FeedAll(w, keys) == w
  {
    if keys != [] {
      FeedAllKnown(w, keys[..|keys| - 1]);
    }
  }

  /** Each key of a delivery was counted by it or was in the window before. */
  lemma {:induction false} FedKeyWasPushedOrSeen(w: Window, keys: seq<Key>, k: Key)
    requires |w.seen| <= WINDOW && k in keys
    ensures k in Pushed(w, keys) || k in w.seen
  {
    var last := |keys| - 1;
    if k in keys[..last] {
      FedKeyWasPushedOrSeen(w, keys[..last], k);
    } else {
      FeedAllSlides(w, keys[..last]);
    }
  }

  /** After a delivery a key of the batch is in the window, unless it was an old entry that the new ones
      pushed out and that was not counted again. */
  lemma FedKeyIsSeen(w: Window, keys: seq<Key>, k: Key)
    requires |w.seen| <= WINDOW && |keys| <= WINDOW
    requires k in Pushed(w, keys) || k in w.seen[Evicted(w, |Pushed(w, keys)|)..]
    ensures k in FeedAll(w, keys).seen
  {
    hide FeedAll, Pushed;
    var p := Pushed(w, keys);
    if k in p {
      var i :| 0 <= i < |p| && p[i] == k;
      assert (w.seen + p)[|w.seen| + i] == k;
      EntryIsSeen(w, keys, |w.seen| + i);
    } else {
      var e := Evicted(w, |p|);
      var i :| 0 <= i < |w.seen| - e && w.seen[e..][i] == k;
      EntryIsSeen(w, keys, e + i);
    }
  }

  lemma EntryIsSeen(w: Window, keys: seq<Key>, i: nat)
    requires |w.seen| <= WINDOW && |keys| <= WINDOW
    requires Evicted(w, |Pushed(w, keys)|) <= i < |w.seen + Pushed(w, keys)|
    ensures (w.seen + Pushed(w, keys))[i] in FeedAll(w, keys).seen
  {
    FeedAllSlides(w, keys);
    InLast(w.seen, Pushed(w, keys), i);
  }

  lemma InLast(a: seq<Key>, b: seq<Key>, i: nat)
    requires i < |a + b| && |a + b| <= i + WINDOW
    ensures (a + b)[i] in Last(a + b, WINDOW)
  {
  }

  predicate Distinct(s: seq<Key>) {
    forall i, j | 0 <= i < j < |s| :: s[i] != s[j]
  }

  /** Resending a finished batch adds nothing if and only if none of its keys was an old entry that the
      delivery pushed out without counting it again. */
  lemma ResendAddsNothingIff(w: Window, keys: seq<Key>)
    requires |w.seen| <= WINDOW && |keys| <= WINDOW && Distinct(w.seen)
    ensures FeedAll(FeedAll(w, keys), keys) == FeedAll(w, keys)
       <==> forall k | k in keys && k in w.seen[..Evicted(w, |Pushed(w, keys)|)] :: k in Pushed(w, keys)
  {
    var done := FeedAll(w, keys);
    var e := Evicted(w, |Pushed(w, keys)|);
    if forall k | k in keys && k in w.seen[..e] :: k in Pushed(w, keys) {
      forall k | k in keys ensures k in done.seen {
        FedKeyWasPushedOrSeen(w, keys, k);
        assert w.seen == w.seen[..e] + w.seen[e..];
        FedKeyIsSeen(w, keys, k);
      }
      FeedAllKnown(done, keys);
    } else {
      var k :| k in keys && k in w.seen[..e] && k !in Pushed(w, keys);
      PushedOutKeyIsUnseen(w, keys, k);
      UnseenKeyIsCounted(done, keys, k);
    }
  }

  lemma PushedOutKeyIsUnseen(w: Window, keys: seq<Key>, k: Key)
    requires |w.seen| <= WINDOW && |keys| <= WINDOW && Distinct(w.seen)
    requires k in w.seen[..Evicted(w, |Pushed(w, keys)|)] && k !in Pushed(w, keys)
    ensures k !in FeedAll(w, keys).seen
  {
    var e := Evicted(w, |Pushed(w, keys)|);
    FeedAllSlides(w, keys);
    var i :| 0 <= i < e && w.seen[i] == k;
    assert (w.seen + Pushed(w, keys))[e..] == w.seen[e..] + Pushed(w, keys);
  }

  lemma {:induction false} UnseenKeyIsCounted(w: Window, keys: seq<Key>, k: Key)
    requires k in keys && k !in w.seen
    ensures FeedAll(w, keys).total > w.total
  {
    var last := |keys| - 1;
    if k in keys[..last] {
      UnseenKeyIsCounted(w, keys[..last], k);
    } else {
      TotalNeverDrops(w, keys[..last]);
      if FeedAll(w, keys[..last]).total == w.total {
        SameTotalSameWindow(w, keys[..last]);
      }
    }
  }

  lemma TotalNeverDrops(w: Window, keys: seq<Key>)
    ensures FeedAll(w, keys).total >= w.total
  {
  }

  lemma {:induction false} SameTotalSameWindow(w: Window, keys: seq<Key>)
    requires FeedAll(w, keys).total == w.total
    ensures FeedAll(w, keys) == w
  {
    if keys != [] {
      TotalNeverDrops(w, keys[..|keys| - 1]);
      SameTotalSameWindow(w, keys[..|keys| - 1]);
    }
  }

  /** A batch whose duplicate is the oldest entry counts that entry again when it is resent. */
  lemma OldestEntryIsCountedAgain(w: Window, other: Key)
    requires |w.seen| == WINDOW && Distinct(w.seen) && other !in w.seen
    ensures var batch := [w.seen[0], other];
      FeedAll(w, batch).total == w.total + 1 && FeedAll(FeedAll(w, batch), batch).total == w.total + 2
  {
    var batch := [w.seen[0], other];
    assert batch[..1] == [w.seen[0]] && batch[..1][..0] == [];
    assert FeedAll(w, batch[..1]) == Feed(FeedAll(w, []), w.seen[0]) == w;
    assert (w.seen + [other])[1..] == w.seen[1..] + [other];
    var w1 := FeedAll(w, batch);
    assert w1 == Window(w.seen[1..] + [other], w.total + 1);
    assert w.seen[0] !in w.seen[1..];
    var w2 := FeedAll(w1, batch[..1]);
    assert w2 == Feed(FeedAll(w1, []), w.seen[0]);
    assert other == w2.seen[WINDOW - 2];
  }

  // ---------------------------------------------------------------- interrupted deliveries

  /** No key of the batch lies where the batch itself could push it out. */
  predicate Safe(w: Window, keys: seq<Key>) {
    && |w.seen| <= WINDOW && |keys| <= WINDOW
    && forall k | k in keys :: k !in w.seen[..Evicted(w, |keys|)]
  }

  lemma SafeKeysStay(w: Window, keys: seq<Key>, m: nat)
    requires Safe(w, keys) && m <= |keys|
    ensures forall k | k in keys[..m] :: k in FeedAll(w, keys[..m]).seen
  {
    forall k | k in keys[..m] ensures k in FeedAll(w, keys[..m]).seen {
      FedKeyWasPushedOrSeen(w, keys[..m], k);
      var e := Evicted(w, |Pushed(w, keys[..m])|);
      assert w.seen == w.seen[..e] + w.seen[e..];
      assert forall x | x in w.seen[..e] :: x in w.seen[..Evicted(w, |keys|)];
      FedKeyIsSeen(w, keys[..m], k);
    }
  }

  /** No key of the batch is pushed out of the window again by the rest of the batch, unless it is counted
      again in time: after each prefix all its keys are in the window. */
  ghost predicate Lasting(w: Window, keys: seq<Key>) {
    && |w.seen| <= WINDOW && |keys| <= WINDOW
    && forall m, k | 0 <= m <= |keys| && k in keys[..m] :: k in FeedAll(w, keys[..m]).seen
  }

  lemma SafeLasts(w: Window, keys: seq<Key>)
    requires Safe(w, keys)
    ensures Lasting(w, keys)
  {
    hide Safe, FeedAll;
    forall m, k | 0 <= m <= |keys| && k in keys[..m] ensures k in FeedAll(w, keys[..m]).seen {
      SafeKeysStay(w, keys, m);
    }
    assert |w.seen| <= WINDOW && |keys| <= WINDOW by { SafeKeysStay(w, keys, 0); SafeFits(w, keys); }
  }

  lemma SafeFits(w: Window, keys: seq<Key>)
    requires Safe(w, keys)
    ensures |w.seen| <= WINDOW && |keys| <= WINDOW
  {
  }

  lemma {:induction false} PushedAppend(w: Window, a: seq<Key>, b: seq<Key>)
    ensures Pushed(w, a + b) == Pushed(w, a) + Pushed(FeedAll(w, a), b)
    decreases |b|
  {
    if b == [] {
      assert a + b == a;
    } else {
      var last := |b| - 1;
      PushedAppend(w, a, b[..last]);
      FeedAllAppend(w, a, b[..last]);
      assert (a + b)[..|a + b| - 1] == a + b[..last];
    }
  }

  /** For a batch without repetitions this is exactly what redelivery needs: every attempt that stops
      somewhere and is sent again leaves what one attempt would have left if and only if no key is lost. */
  lemma ResumingIsHarmlessIff(w: Window, keys: seq<Key>)
    requires |w.seen| <= WINDOW && |keys| <= WINDOW && Distinct(w.seen) && Distinct(keys)
    ensures Lasting(w, keys) <==>
      forall m | 0 <= m <= |keys| :: FeedAll(FeedAll(w, keys[..m]), keys) == FeedAll(w, keys)
  {
    hide FeedAll, Pushed, Distinct;
    assert keys[..|keys|] == keys;
    if Lasting(w, keys) {
      forall m | 0 <= m <= |keys| ensures FeedAll(FeedAll(w, keys[..m]), keys) == FeedAll(w, keys) {
        AttemptsMerge(w, keys, m, |keys|);
      }
    } else {
      var m, k :| 0 <= m <= |keys| && k in keys[..m] && k !in FeedAll(w, keys[..m]).seen;
      LostKeyIsCountedAgain(w, keys, m, k);
    }
  }

  /** A key that an attempt lost is missing after one attempt and present after a second. */
  lemma LostKeyIsCountedAgain(w: Window, keys: seq<Key>, m: nat, k: Key)
    requires |w.seen| <= WINDOW && |keys| <= WINDOW && Distinct(w.seen) && Distinct(keys)
    requires m <= |keys| && k in keys[..m] && k !in FeedAll(w, keys[..m]).seen
    ensures k !in FeedAll(w, keys).seen && k in FeedAll(FeedAll(w, keys[..m]), keys).seen
  {
    hide FeedAll, Pushed, Distinct;
    var (a, b) := (keys[..m], keys[m..]);
    var s := FeedAll(w, a);
    assert keys == a + b;
    PushedAppend(w, a, b);
    OnlyBefore(keys, m, k);
    FedKeyWasPushedOrSeen(w, a, k);
    LostKeyIsOld(w, a, k);
    EvictedGrows(w, |Pushed(w, a)|, |Pushed(w, keys)|, k);
    PushedOutKeyIsUnseen(w, keys, k);
    assert |s.seen| <= WINDOW by { FeedAllSlides(w, a); }
    FedKeyWasPushedOrSeen(s, keys, k);
    FedKeyIsSeen(s, keys, k);
  }

  lemma OnlyBefore(keys: seq<Key>, m: nat, k: Key)
    requires Distinct(keys) && m <= |keys| && k in keys[..m]
    ensures k !in keys[m..] && k in keys
  {
    var i :| 0 <= i < m && keys[i] == k;
    assert forall j | 0 <= j < |keys| - m :: keys[m..][j] == keys[m + j];
  }

  lemma LostKeyIsOld(w: Window, keys: seq<Key>, k: Key)
    requires |w.seen| <= WINDOW && |keys| <= WINDOW && k in keys && k !in FeedAll(w, keys).seen
    ensures k in w.seen[..Evicted(w, |Pushed(w, keys)|)] && k !in Pushed(w, keys)
  {
    hide FeedAll, Pushed;
    var e := Evicted(w, |Pushed(w, keys)|);
    FedKeyWasPushedOrSeen(w, keys, k);
    if k in Pushed(w, keys) || k in w.seen[e..] { FedKeyIsSeen(w, keys, k); }
    assert w.seen == w.seen[..e] + w.seen[e..];
  }

  lemma EvictedGrows(w: Window, n: nat, n2: nat, k: Key)
    requires |w.seen| <= WINDOW && n <= n2 <= WINDOW && k in w.seen[..Evicted(w, n)]
    ensures k in w.seen[..Evicted(w, n2)]
  {
    var i :| 0 <= i < Evicted(w, n) && w.seen[i] == k;
    assert w.seen[..Evicted(w, n2)][i] == k;
  }

  /** A second attempt after m keys, stopping after j, is as good as one attempt that got further. */
  lemma AttemptsMerge(w: Window, keys: seq<Key>, m: nat, j: nat)
    requires Lasting(w, keys) && m <= |keys| && j <= |keys|
    ensures FeedAll(FeedAll(w, keys[..m]), keys[..j]) == FeedAll(w, keys[..if j <= m then m else j])
  {
    var s := FeedAll(w, keys[..m]);
    if j <= m {
      assert forall k | k in keys[..j] :: k in keys[..m];
      FeedAllKnown(s, keys[..j]);
    } else {
      assert keys[..j] == keys[..m] + keys[m..j];
      FeedAllAppend(s, keys[..m], keys[m..j]);
      FeedAllKnown(s, keys[..m]);
      FeedAllAppend(w, keys[..m], keys[m..j]);
    }
  }

  /** x is where some prefix of the batch leads. */
  ghost predicate Midway(w: Window, keys: seq<Key>, x: Window) {
    exists m :: 0 <= m <= |keys| && x == FeedAll(w, keys[..m])
  }

  ghost predicate MidwayDoc(w: Window, keys: seq<Key>, id: Id, doc: Document) {
    id in doc && Midway(w, keys, WindowOf(doc[id]))
  }

  /** Memory and every recoverable document are midway. */
  ghost predicate MidwayNode(w: Window, keys: seq<Key>, id: Id, n: Node) {
    && MidwayDoc(w, keys, id, n.mem)
    && |n.disk.views| > 0
    && forall v | v in n.disk.views :: MidwayDoc(w, keys, id, v)
  }

  lemma MidwayHasRoom(w: Window, keys: seq<Key>, x: Window, k: Key)
    requires Lasting(w, keys) && Midway(w, keys, x) && k in keys && k !in x.seen && w.total + |keys| <= COUNTER_MAX
    ensures x.total < COUNTER_MAX
  {
    var m :| 0 <= m <= |keys| && x == FeedAll(w, keys[..m]);
    FeedAllSlides(w, keys[..m]);
    assert keys[..|keys|] == keys;
  }

  lemma AcceptKeyStaysMidway(w: Window, keys: seq<Key>, n: Node, id: Id, at: int, k: Key, f: Fate)
    requires Lasting(w, keys) && w.total + |keys| <= COUNTER_MAX
    requires MidwayNode(w, keys, id, n) && k in keys && Midway(w, keys, Feed(WindowOf(n.mem[id]), k))
    ensures var (n2, o) := AcceptKey(n, id, at, k, f);
      MidwayNode(w, keys, id, n2) && o != Exhausted
      && (o == Accepted ==> WindowOf(n2.mem[id]) == Feed(WindowOf(n.mem[id]), k))
  {
    if k !in n.mem[id].seen {
      MidwayHasRoom(w, keys, WindowOf(n.mem[id]), k);
    }
  }

  /** The key at i, fed where the batch already was at m or at i, whichever is further. */
  lemma NextKey(w: Window, keys: seq<Key>, m: nat, i: nat)
    requires Lasting(w, keys) && m <= |keys| && i < |keys|
    ensures Feed(FeedAll(w, keys[..if i <= m then m else i]), keys[i]) == FeedAll(w, keys[..if i < m then m else i + 1])
  {
    if i < m {
        assert keys[i] in keys[..m];
    } else {
      assert keys[..i + 1][..i] == keys[..i];
    }
  }

  /** One attempt over the first i keys, started midway: it stays midway, and is at the first i keys or
      further when it accepted them all. */
  lemma {:induction false} AttemptStaysMidway(w: Window, keys: seq<Key>, n: Node, id: Id, at: int, i: nat, m: nat, fates: seq<Fate>)
    requires Lasting(w, keys) && w.total + |keys| <= COUNTER_MAX
    requires MidwayNode(w, keys, id, n) && id in n.mem && m <= |keys| && WindowOf(n.mem[id]) == FeedAll(w, keys[..m])
    requires i <= |keys| && |fates| == i
    ensures var (n2, o) := AcceptAll(n, id, at, keys[..i], fates);
      MidwayNode(w, keys, id, n2) && o != Exhausted
      && (o == Accepted ==> WindowOf(n2.mem[id]) == FeedAll(w, keys[..if i <= m then m else i]))
    decreases i
  {
    hide MidwayNode, MidwayDoc, Midway, Lasting, AcceptKey, Feed, Slide;
    if i > 0 {
      assert keys[..i][..i - 1] == keys[..i - 1];
      AttemptStaysMidway(w, keys, n, id, at, i - 1, m, fates[..i - 1]);
      var (n1, o) := AcceptAll(n, id, at, keys[..i - 1], fates[..i - 1]);
      if o == Accepted {
        assert fates[..i - 1] + [fates[i - 1]] == fates;
        AcceptAllStep(n, id, at, keys, fates[..i - 1], i - 1, fates[i - 1]);
        NextKey(w, keys, m, i - 1);
        AcceptKeyStaysMidway(w, keys, n1, id, at, keys[i - 1], fates[i - 1]);
      }
    }
  }

  lemma ReceiptStaysMidway(w: Window, keys: seq<Key>, n: Node, id: Id, at: int, f: Fate)
    requires MidwayNode(w, keys, id, n)
    ensures MidwayNode(w, keys, id, Receipt(n, id, at, f).0)
    ensures WindowOf(Receipt(n, id, at, f).0.mem[id]) == WindowOf(n.mem[id])
  {
  }

  lemma DeliveryStaysMidway(w: Window, keys: seq<Key>, n: Node, id: Id, at: int, fates: seq<Fate>)
    requires Lasting(w, keys) && w.total + |keys| <= COUNTER_MAX
    requires MidwayNode(w, keys, id, n) && |fates| == |keys| + 1
    ensures var (n2, o) := Deliver(n, id, at, keys, fates);
      MidwayNode(w, keys, id, n2) && o != Exhausted
      && (o == Accepted ==> WindowOf(n2.mem[id]) == FeedAll(w, keys))
  {
    var m :| 0 <= m <= |keys| && WindowOf(n.mem[id]) == FeedAll(w, keys[..m]);
    assert keys[..|keys|] == keys;
    AttemptStaysMidway(w, keys, n, id, at, |keys|, m, fates[..|keys|]);
    var (n1, o) := AcceptAll(n, id, at, keys, fates[..|keys|]);
    if o == Accepted {
      ReceiptStaysMidway(w, keys, n1, id, at, fates[|keys|]);
    }
  }

  /** FeedAll is what an accepted delivery does from the start. */
  lemma AcceptedDeliveryFeeds(n: Node, id: Id, at: int, keys: seq<Key>, fates: seq<Fate>)
    requires id in n.mem && |fates| == |keys| + 1
    ensures Deliver(n, id, at, keys, fates).1 == Accepted ==>
      WindowOf(Deliver(n, id, at, keys, fates).0.mem[id]) == FeedAll(WindowOf(n.mem[id]), keys)
  {
    hide FeedAll, Receipt;
    AcceptedKeysFeed(n, id, at, keys, fates[..|keys|]);
    var (n1, o) := AcceptAll(n, id, at, keys, fates[..|keys|]);
    if o == Accepted { ReceiptKeepsWindow(n1, id, at, fates[|keys|]); }
  }

  lemma ReceiptKeepsWindow(n: Node, id: Id, at: int, f: Fate)
    requires id in n.mem
    ensures WindowOf(Receipt(n, id, at, f).0.mem[id]) == WindowOf(n.mem[id])
  {
  }

  lemma {:induction false} AcceptedKeysFeed(n: Node, id: Id, at: int, keys: seq<Key>, fates: seq<Fate>)
    requires id in n.mem && |fates| == |keys|
    ensures AcceptAll(n, id, at, keys, fates).1 == Accepted ==>
      WindowOf(AcceptAll(n, id, at, keys, fates).0.mem[id]) == FeedAll(WindowOf(n.mem[id]), keys)
    decreases |keys|
  {
    if keys != [] {
      AcceptedKeysFeed(n, id, at, keys[..|keys| - 1], fates[..|keys| - 1]);
    }
  }

  /** A safe batch that was delivered and is sent again is recognised entirely. */
  lemma SafeResendAddsNothing(w: Window, keys: seq<Key>)
    requires Safe(w, keys)
    ensures FeedAll(FeedAll(w, keys), keys) == FeedAll(w, keys)
  {
    assert keys[..|keys|] == keys;
    SafeLasts(w, keys);
    AttemptsMerge(w, keys, |keys|, |keys|);
  }
}
