/** What an event post does, in terms of the events as they were posted (`accept_events` in
    nmc_bmc_observer/src/lib.rs). */
module Events {
  import opened Sequences
  import opened BmcState
  import opened Durability
  import opened Regions

  /** A member that is missing or no text reads as empty. */
  function TextOf(f: Field): string {
    if f.Text? then f.text else ""
  }

  /** Two texts cannot be told apart by their first 128 characters. */
  predicate AlikeOn128(a: string, b: string) {
    && (|a| < 128 || |b| < 128 ==> |a| == |b|)
    && forall i | 0 <= i < 128 && i < |a| && i < |b| :: a[i] == b[i]
  }

  /** Two posted events are the same event to the observer. */
  predicate SameEvent(a: RawEvent, b: RawEvent) {
    && a.eventId == b.eventId
    && AlikeOn128(TextOf(a.timestamp), TextOf(b.timestamp))
    && AlikeOn128(TextOf(a.kind), TextOf(b.kind))
    && AlikeOn128(TextOf(a.severity), TextOf(b.severity))
    && AlikeOn128(TextOf(a.messageId), TextOf(b.messageId))
  }

  /** t is the text of the member, or its first 128 characters. */
  predicate Holds(t: string, f: Field) {
    |t| <= 128 && t <= TextOf(f) && (|t| < 128 ==> t == TextOf(f))
  }

  /** k carries the id and the texts of the event. */
  predicate IsKeyOf(k: Key, e: RawEvent) {
    && e.eventId == Text(k.eventId)
    && Holds(k.time, e.timestamp) && Holds(k.kind, e.kind) && Holds(k.severity, e.severity)
    && Holds(k.messageId, e.messageId)
  }

  predicate IsWellFormed(e: RawEvent) {
    && e.eventId.Text? && 0 < |e.eventId.text| <= 256
    && (e.timestamp == Missing || (e.timestamp.Text? && |e.timestamp.text| <= 128))
  }

  lemma HoldsSame(t: string, f: Field, u: string, g: Field)
    requires Holds(t, f) && Holds(u, g)
    ensures t == u <==> AlikeOn128(TextOf(f), TextOf(g))
  {
    if AlikeOn128(TextOf(f), TextOf(g)) {
      assert |t| == |u|;
      assert forall i | 0 <= i < |t| :: t[i] == TextOf(f)[i] && u[i] == TextOf(g)[i];
    }
    if t == u {
      forall i | 0 <= i < 128 && i < |TextOf(f)| && i < |TextOf(g)| ensures TextOf(f)[i] == TextOf(g)[i] {
        assert t[i] == TextOf(f)[i] && u[i] == TextOf(g)[i];
      }
    }
  }

  /** Keys are equal exactly for events the observer cannot tell apart. */
  lemma KeysTellEvents(k: Key, a: RawEvent, l: Key, b: RawEvent)
    requires IsKeyOf(k, a) && IsKeyOf(l, b)
    ensures k == l <==> SameEvent(a, b)
  {
    hide Holds, AlikeOn128, TextOf;
    HoldsSame(k.time, a.timestamp, l.time, b.timestamp);
    HoldsSame(k.kind, a.kind, l.kind, b.kind);
    HoldsSame(k.severity, a.severity, l.severity, b.severity);
    HoldsSame(k.messageId, a.messageId, l.messageId, b.messageId);
  }

  lemma ProjectionIsKey(e: RawEvent)
    requires EventOk(e)
    ensures IsWellFormed(e) && IsKeyOf(ProjectEvent(e), e)
  {
  }

  ghost predicate AreKeysOf(ks: seq<Key>, es: seq<RawEvent>) {
    |ks| == |es| && forall i | 0 <= i < |es| :: IsWellFormed(es[i]) && IsKeyOf(ks[i], es[i])
  }

  lemma {:induction false} ProjectionsAreKeys(es: seq<RawEvent>)
    requires ProjectEvents(es).Some?
    ensures AreKeysOf(ProjectEvents(es).value, es)
  {
    hide IsKeyOf, ProjectEvent;
    if es != [] {
      ProjectionsAreKeys(es[..|es| - 1]);
      ProjectionIsKey(es[|es| - 1]);
    }
  }

  /** What a post is let in for, read off the request and the state; a post that is not leaves all as it is. */
  lemma PostsAreLetInIff(cfg: Config, n: Node, id: Id, body: Body, inventoryAt: int, at: int, fates: seq<Fate>)
    requires |fates| == MAX_BATCH + 1
    ensures var (n2, outcome) := Post(cfg, n, id, body, inventoryAt, at, fates);
      && (outcome != Rejected <==>
            && (exists c :: c in cfg.controllers && c.id == id) && id in n.mem && n.mem[id].identityValid
            && 0 < inventoryAt <= at && at - inventoryAt <= cfg.inventoryMaxAgeSeconds * 1000
            && 0 < n.mem[id].pollAt <= at && at - n.mem[id].pollAt <= cfg.staleSeconds * 1000
            && body.context == Text("continuum-bmc/" + id)
            && body.events.Some? && 0 < |body.events.value| <= 32
            && forall e | e in body.events.value :: IsWellFormed(e))
      && (outcome == Rejected ==> n2 == n)
  {
    hide AcceptAll, Receipt, ProjectEvents;
    if PostAllowed(cfg, n.mem, id, body, inventoryAt, at) {
      var keys := ProjectEvents(body.events.value).value;
      AcceptAllNeverRejects(n, id, at, keys, fates[..|keys| + 1][..|keys|]);
      ReceiptNeverRejects(AcceptAll(n, id, at, keys, fates[..|keys| + 1][..|keys|]).0, id, at, fates[|keys|]);
    }
  }

  lemma ReceiptNeverRejects(n: Node, id: Id, at: int, f: Fate)
    requires id in n.mem
    ensures Receipt(n, id, at, f).1 != Rejected
  {
  }

  // ---------------------------------------------------------------- what is counted

  predicate Distinct(ks: seq<Key>) {
    forall i, j | 0 <= i < j < |ks| :: ks[i] != ks[j]
  }

  /** The push_event records of a batch of which every key is new. */
  function PushRecords(id: Id, at: int, ks: seq<Key>): (r: seq<Record>)
    ensures |r| == |ks| && forall i | 0 <= i < |ks| :: r[i] == PushEvent(id, at, ks[i])
  {
    if ks == [] then [] else PushRecords(id, at, ks[..|ks| - 1]) + [PushEvent(id, at, ks[|ks| - 1])]
  }

  /** From n to n2 the keys were counted and journaled, and nothing else happened to any controller's entry. */
  ghost predicate AllCounted(n: Node, n2: Node, id: Id, at: int, ks: seq<Key>) {
    && id in n.mem && id in n2.mem
    && n2.mem[id].eventsTotal == n.mem[id].eventsTotal + |ks| && n2.mem[id].accepted == n.mem[id].accepted + ks
    && n2.disk.written == n.disk.written + PushRecords(id, at, ks)
    && (forall k | k in n2.mem[id].seen :: k in n.mem[id].seen || k in ks)
    && forall x | x != id :: Entry(n2.mem, x) == Entry(n.mem, x)
  }

  lemma NewKeyIsCounted(n: Node, id: Id, at: int, k: Key, f: Fate)
    requires id in n.mem && k !in n.mem[id].seen && AcceptKey(n, id, at, k, f).1 == Accepted
    ensures AllCounted(n, AcceptKey(n, id, at, k, f).0, id, at, [k])
  {
    assert PushRecords(id, at, [k]) == [PushEvent(id, at, k)];
  }

  lemma OneMoreCounted(n: Node, n1: Node, n2: Node, id: Id, at: int, ks: seq<Key>, k: Key)
    requires AllCounted(n, n1, id, at, ks) && AllCounted(n1, n2, id, at, [k])
    ensures AllCounted(n, n2, id, at, ks + [k])
  {
    hide Entry;
    assert (ks + [k])[..|ks|] == ks;
    assert PushRecords(id, at, ks + [k]) == PushRecords(id, at, ks) + PushRecords(id, at, [k]);
  }

  lemma {:induction false} NewKeysAreCounted(n: Node, id: Id, at: int, ks: seq<Key>, fates: seq<Fate>)
    requires id in n.mem && |fates| == |ks| && Distinct(ks) && forall k | k in ks :: k !in n.mem[id].seen
    requires AcceptAll(n, id, at, ks, fates).1 == Accepted
    ensures AllCounted(n, AcceptAll(n, id, at, ks, fates).0, id, at, ks)
    decreases |ks|
  {
    hide Distinct, AcceptKey, PushRecords, Entry;
    if ks == [] {
      assert n.mem[id].accepted + ks == n.mem[id].accepted && n.disk.written + PushRecords(id, at, ks) == n.disk.written;
    } else {
      var (front, last) := (ks[..|ks| - 1], ks[|ks| - 1]);
      LastIsNew(ks);
      NewKeysAreCounted(n, id, at, front, fates[..|front|]);
      var n1 := AcceptAll(n, id, at, front, fates[..|front|]).0;
      assert ks == front + [last] && last in ks;
      NewKeyIsCounted(n1, id, at, last, fates[|front|]);
      OneMoreCounted(n, n1, AcceptKey(n1, id, at, last, fates[|front|]).0, id, at, front, last);
    }
  }

  lemma LastIsNew(ks: seq<Key>)
    requires ks != [] && Distinct(ks)
    ensures Distinct(ks[..|ks| - 1]) && ks[|ks| - 1] !in ks[..|ks| - 1]
    ensures forall k | k in ks[..|ks| - 1] :: k in ks
  {
  }

  /** An accepted post whose events are pairwise different and not in the window: each is counted, and
      journaled under its own id and texts, in order; the receipt follows; and state.json shows it all. */
  lemma NewEventsAreCounted(cfg: Config, n: Node, id: Id, body: Body, inventoryAt: int, at: int, fates: seq<Fate>)
    requires |fates| == MAX_BATCH + 1 && Post(cfg, n, id, body, inventoryAt, at, fates).1 == Accepted
    requires id in n.mem && body.events.Some?
    requires var es := body.events.value;
      && (forall i, j | 0 <= i < j < |es| :: !SameEvent(es[i], es[j]))
      && forall e, k | e in es && k in n.mem[id].seen :: !IsKeyOf(k, e)
    ensures var (es, n2) := (body.events.value, Post(cfg, n, id, body, inventoryAt, at, fates).0);
      && id in n2.mem
      && n2.mem[id].eventsTotal == n.mem[id].eventsTotal + |es|
      && n2.mem[id].pushAt == at
      && n2.disk.views == [n2.mem]
      && (exists ks :: AreKeysOf(ks, es)
            && n2.mem[id].accepted == n.mem[id].accepted + ks
            && n2.disk.written == n.disk.written + PushRecords(id, at, ks) + [PushReceipt(id, at)])
  {
    hide AcceptAll, IsKeyOf, SameEvent, Distinct, PushRecords;
    var es := body.events.value;
    var ks := ProjectEvents(es).value;
    ProjectionsAreKeys(es);
    NewEventsHaveNewKeys(es, ks, n.mem[id].seen);
    NewKeysAreCounted(n, id, at, ks, fates[..|ks| + 1][..|ks|]);
  }

  lemma NewEventsHaveNewKeys(es: seq<RawEvent>, ks: seq<Key>, seen: seq<Key>)
    requires AreKeysOf(ks, es)
    requires forall i, j | 0 <= i < j < |es| :: !SameEvent(es[i], es[j])
    requires forall e, k | e in es && k in seen :: !IsKeyOf(k, e)
    ensures Distinct(ks) && forall k | k in ks :: k !in seen
  {
    hide IsKeyOf, SameEvent, IsWellFormed;
    forall i, j | 0 <= i < j < |ks| ensures ks[i] != ks[j] {
      KeysTellEvents(ks[i], es[i], ks[j], es[j]);
    }
    forall k | k in ks ensures k !in seen {
      var i :| 0 <= i < |ks| && ks[i] == k;
      assert es[i] in es;
    }
  }

  /** An accepted post of events that are all in the window changes nothing but the time of the last post. */
  lemma KnownEventsAreNot(cfg: Config, n: Node, id: Id, body: Body, inventoryAt: int, at: int, fates: seq<Fate>)
    requires |fates| == MAX_BATCH + 1 && Post(cfg, n, id, body, inventoryAt, at, fates).1 == Accepted
    requires id in n.mem && body.events.Some?
    requires forall e | e in body.events.value :: exists k :: k in n.mem[id].seen && IsKeyOf(k, e)
    ensures var n2 := Post(cfg, n, id, body, inventoryAt, at, fates).0;
      && n2.mem == n.mem[id := n.mem[id].(pushAt := at)]
      && n2.disk == Disk([n2.mem], n.disk.written + [PushReceipt(id, at)])
  {
    hide AcceptAll, IsKeyOf, SameEvent;
    var es := body.events.value;
    var ks := ProjectEvents(es).value;
    ProjectionsAreKeys(es);
    forall k | k in ks ensures k in n.mem[id].seen {
      var i :| 0 <= i < |ks| && ks[i] == k;
      assert es[i] in es;
      var l :| l in n.mem[id].seen && IsKeyOf(l, es[i]);
      KeysTellEvents(k, es[i], l, es[i]);
      AlikeToItself(es[i]);
    }
    KnownKeysAreNot(n, id, at, ks, fates[..|ks| + 1][..|ks|]);
  }

  lemma AlikeToItself(e: RawEvent)
    ensures SameEvent(e, e)
  {
  }

  lemma {:induction false} KnownKeysAreNot(n: Node, id: Id, at: int, ks: seq<Key>, fates: seq<Fate>)
    requires id in n.mem && |fates| == |ks| && forall k | k in ks :: k in n.mem[id].seen
    ensures AcceptAll(n, id, at, ks, fates) == (n, Accepted)
    decreases |ks|
  {
    if ks != [] {
      assert ks[|ks| - 1] in ks && forall k | k in ks[..|ks| - 1] :: k in ks;
      KnownKeysAreNot(n, id, at, ks[..|ks| - 1], fates[..|ks| - 1]);
    }
  }
}
