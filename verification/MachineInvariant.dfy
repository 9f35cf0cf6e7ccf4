/** What holds in every reachable state of the observer, and that every step keeps it. */
module MachineInvariant {
  import opened Sequences
  import opened BmcState
  import opened Durability
  import opened Regions
  import opened Machine

  // ---------------------------------------------------------------- one controller, one document

  /** Any WINDOW + 1 consecutive entries are pairwise distinct. */
  ghost predicate LocallyDistinct(h: seq<Key>) {
    forall i, j | 0 <= i < j < |h| && j - i <= WINDOW :: h[i] != h[j]
  }

  ghost predicate StateOk(c: ControllerState) {
    && c.eventsTotal == |c.accepted| <= COUNTER_MAX
    && LocallyDistinct(c.accepted)
    && |c.seen| <= WINDOW
    && (c.eventsTotal < COUNTER_MAX ==> c.seen == Last(c.accepted, WINDOW))
    && (c.available ==> c.identityValid && c.diagnostic.current)
  }

  ghost predicate Journaled(doc: Document, written: seq<Record>) {
    forall id | id in doc :: IsSubsequence(doc[id].accepted, PushKeys(written, id))
  }

  ghost predicate DocOk(ids: set<Id>, written: seq<Record>, doc: Document) {
    && doc.Keys <= ids
    && (forall id | id in doc :: StateOk(doc[id]))
    && Journaled(doc, written)
  }

  ghost predicate EnrolledAs(doc: Document, r: Request) {
    r.id in doc && doc[r.id].enrollment.Some? && RequestOf(doc, r.id) == r
  }

  ghost function RequestOf(doc: Document, id: Id): Request
    requires id in doc && doc[id].enrollment.Some?
  {
    Request(id, doc[id].enrollment.value.requestId, doc[id].enrollment.value.revision)
  }

  /** The document names the request as one that is still to be confirmed. */
  ghost predicate Wanted(doc: Document, r: Request) {
    EnrolledAs(doc, r) && Pending(doc[r.id].enrollment)
  }

  // ---------------------------------------------------------------- documents against the history

  ghost predicate Later(history: seq<Happening>, i: int, x: Happening) {
    exists j :: 0 <= i < j < |history| && history[j] == x
  }

  predicate Confirms(x: Happening, r: Request) {
    x.Answered? && x.request == r && x.configured
  }

  /** An answer after the i-th happening confirmed the request. */
  ghost predicate ConfirmedLater(history: seq<Happening>, i: int, r: Request) {
    exists j :: 0 <= i < j < |history| && Confirms(history[j], r)
  }

  ghost predicate ConfirmedBetween(history: seq<Happening>, i: int, j: int, r: Request) {
    exists k :: 0 <= i < k < j <= |history| && Confirms(history[k], r)
  }

  /** doc is not behind the i-th happening: a request sent is still the controller's, or the one in its
      place was minted since; and it is still to be confirmed, or it was confirmed since. */
  ghost predicate NotBehind(history: seq<Happening>, i: int, doc: Document)
    requires 0 <= i < |history|
  {
    history[i].Sent? ==>
      var r := history[i].request;
      && r.id in doc && doc[r.id].enrollment.Some?
      && r.requestId <= doc[r.id].enrollment.value.requestId
      && (EnrolledAs(doc, r) || Later(history, i, Minted(RequestOf(doc, r.id))))
      && (Wanted(doc, r) || ConfirmedLater(history, i, r))
  }

  ghost predicate DocCurrent(history: seq<Happening>, doc: Document) {
    && (forall i | 0 <= i < |history| :: NotBehind(history, i, doc))
    && (forall id | id in doc && doc[id].enrollment.Some? :: Minted(RequestOf(doc, id)) in history)
  }

  ghost predicate NodeOk(ids: set<Id>, history: seq<Happening>, n: Node) {
    && |n.disk.views| > 0
    && DocOk(ids, n.disk.written, n.mem) && DocCurrent(history, n.mem)
    && (forall v | v in n.disk.views :: DocOk(ids, n.disk.written, v) && DocCurrent(history, v))
  }

  // ---------------------------------------------------------------- the history itself

  ghost predicate MintsOk(history: seq<Happening>, minted: nat) {
    && (forall i | 0 <= i < |history| && history[i].Minted? :: history[i].request.requestId < minted)
    && (forall i, j | 0 <= i < j < |history| && history[i].Minted? && history[j].Minted? ::
          history[i].request.requestId < history[j].request.requestId)
  }

  ghost predicate Between(history: seq<Happening>, i: int, j: int, x: Happening) {
    exists k :: 0 <= i < k < j <= |history| && history[k] == x
  }

  ghost predicate SendsOk(history: seq<Happening>) {
    && (forall i | 0 <= i < |history| && history[i].Sent? :: Minted(history[i].request) in history[..i])
    && (forall i, j | 0 <= i < j < |history| && history[i].Sent? && history[j].Sent?
                      && history[i].request.id == history[j].request.id ::
          SendsAgree(history, i, j))
  }

  /** The later send is not for an older request, and is for the same one unless its own was minted since. */
  ghost predicate SendsAgree(history: seq<Happening>, i: int, j: int)
    requires 0 <= i < j < |history| && history[i].Sent? && history[j].Sent?
  {
    && history[i].request.requestId <= history[j].request.requestId
    && (history[i].request == history[j].request || Between(history, i, j, Minted(history[j].request)))
  }

  /** After a send no request is minted for the controller until an answer has confirmed the one sent. */
  ghost predicate MintsWait(history: seq<Happening>) {
    forall i, j | 0 <= i < j < |history| && history[i].Sent? && history[j].Minted?
                  && history[i].request.id == history[j].request.id ::
      ConfirmedBetween(history, i, j, history[i].request)
  }

  ghost predicate ScrapesOk(history: seq<Happening>) {
    forall i | 0 <= i < |history| && history[i].Scraped? ::
      forall id | id in history[i].doc :: StateOk(history[i].doc[id])
  }

  ghost predicate HistoryOk(history: seq<Happening>, minted: nat) {
    MintsOk(history, minted) && SendsOk(history) && MintsWait(history) && ScrapesOk(history)
  }

  // ---------------------------------------------------------------- observers in flight

  /** Every version of the document a reader or a restart may meet names the request. */
  ghost predicate Pinned(n: Node, r: Request) {
    Wanted(n.mem, r) && forall v | v in n.disk.views :: Wanted(v, r)
  }

  ghost predicate TaskOk(tick: Option<Inventory>, n: Node, id: Id, t: Task) {
    match t
    case Gap => true
    case Diagnosing =>
      && tick.Some? && FindRegistered(tick.value.controllers, id).Some?
      && id in n.mem && n.mem[id].identityValid
    case Enrolling => id in n.mem && n.mem[id].enrollment.Some? && Pinned(n, RequestOf(n.mem, id))
    case Sending(r) => r.id == id && Pinned(n, r)
    case Awaiting(r) => r.id == id && Pinned(n, r)
  }

  ghost predicate TasksOk(s: Sys) {
    forall id | id in s.tasks :: TaskOk(s.tick, s.node, id, s.tasks[id])
  }

  ghost predicate Inv(s: Sys) {
    && Ids(s.config.controllers) <= s.known
    && NodeOk(s.known, s.history, s.node)
    && HistoryOk(s.history, s.minted)
    && TasksOk(s)
  }

  // ---------------------------------------------------------------- commits and memory updates

  lemma JournaledGrows(doc: Document, written: seq<Record>, r: Record)
    requires Journaled(doc, written)
    ensures Journaled(doc, written + [r])
  {
  }

  /** Committing a good document over a good disk, whatever the fate. */
  lemma CommitKeepsDocuments(ids: set<Id>, history: seq<Happening>, n: Node, doc: Document, r: Record, f: Fate)
    requires NodeOk(ids, history, n)
    requires DocOk(ids, n.disk.written + [r], doc) && DocCurrent(history, doc)
    ensures NodeOk(ids, history, Node(n.mem, CommitTo(n.disk, doc, r, f)))
    ensures f.Committed? ==> NodeOk(ids, history, Node(doc, CommitTo(n.disk, doc, r, f)))
  {
    hide DocCurrent, StateOk;
    JournaledGrows(n.mem, n.disk.written, r);
    forall v | v in n.disk.views ensures Journaled(v, n.disk.written + [r]) {
      JournaledGrows(v, n.disk.written, r);
    }
  }

  lemma CommitMemoryKeeps(ids: set<Id>, history: seq<Happening>, n: Node, r: Record, f: Fate)
    requires NodeOk(ids, history, n)
    ensures NodeOk(ids, history, CommitMemory(n, r, f))
    ensures Carries(n, CommitMemory(n, r, f), {})
  {
    hide DocCurrent, StateOk;
    JournaledGrows(n.mem, n.disk.written, r);
    CommitKeepsDocuments(ids, history, n, n.mem, r, f);
  }

  /** Outside `but`, no controller's enrollment or identity differs between two documents. */
  ghost predicate SameRequests(d: Document, m: Document, but: set<Id>) {
    forall id | id in m && id !in but ::
      id in d && d[id].identityValid == m[id].identityValid && d[id].enrollment == m[id].enrollment
  }

  /** n2 differs from n1, for readers outside `but`, only in documents that say the same as n1's memory. */
  ghost predicate Carries(n1: Node, n2: Node, but: set<Id>) {
    && SameRequests(n2.mem, n1.mem, but)
    && forall v | v in n2.disk.views :: v in n1.disk.views || SameRequests(v, n1.mem, but)
  }

  lemma CarriesOn(n1: Node, n2: Node, n3: Node, but: set<Id>)
    requires Carries(n1, n2, but) && Carries(n2, n3, {})
    ensures Carries(n1, n3, but)
  {
  }

  /** A section that touches one controller's request leaves every other observer's ground alone. */
  lemma OtherTasksKeep(s: Sys, n: Node, but: set<Id>)
    requires TasksOk(s) && Carries(s.node, n, but)
    ensures forall id | id in s.tasks && id !in but :: TaskOk(s.tick, n, id, s.tasks[id])
  {
  }

  // ---------------------------------------------------------------- event delivery

  /** Same requests: the history sees no difference. */
  lemma SameForReaders(history: seq<Happening>, doc: Document, doc2: Document)
    requires DocCurrent(history, doc)
    requires forall id | id in doc :: id in doc2 && doc2[id].enrollment == doc[id].enrollment
    requires forall id | id in doc2 && id !in doc :: doc2[id].enrollment.None?
    ensures DocCurrent(history, doc2)
  {
    hide Later;
    forall i | 0 <= i < |history| ensures NotBehind(history, i, doc2) {
      assert NotBehind(history, i, doc);
    }
    forall id | id in doc2 && doc2[id].enrollment.Some? ensures Minted(RequestOf(doc2, id)) in history {
      assert RequestOf(doc2, id) == RequestOf(doc, id);
    }
  }

  lemma AcceptKeyKeeps(ids: set<Id>, history: seq<Happening>, n: Node, id: Id, at: int, k: Key, f: Fate)
    requires NodeOk(ids, history, n) && id in n.mem
    ensures NodeOk(ids, history, AcceptKey(n, id, at, k, f).0)
    ensures Carries(n, AcceptKey(n, id, at, k, f).0, {})
  {
    hide NodeOk;
    if k in n.mem[id].seen {
    } else if n.mem[id].eventsTotal == COUNTER_MAX {
      ExhaustionKeeps(ids, history, n, id, k);
    } else {
      CountingKeeps(ids, history, n, id, at, k, f);
    }
  }

  lemma ExhaustionKeeps(ids: set<Id>, history: seq<Happening>, n: Node, id: Id, k: Key)
    requires NodeOk(ids, history, n) && id in n.mem && n.mem[id].eventsTotal == COUNTER_MAX
    ensures var n1 := n.(mem := n.mem[id := Slid(n.mem[id], k)]); NodeOk(ids, history, n1) && Carries(n, n1, {})
  {
    hide DocCurrent, LocallyDistinct, Journaled;
    SlidStateOk(n.mem[id], k);
    EntryInMemory(ids, history, n, id, Slid(n.mem[id], k));
  }

  lemma CountingKeeps(ids: set<Id>, history: seq<Happening>, n: Node, id: Id, at: int, k: Key, f: Fate)
    requires NodeOk(ids, history, n) && id in n.mem && n.mem[id].eventsTotal != COUNTER_MAX && k !in n.mem[id].seen
    ensures var n1 := AfterCommit(n, n.mem[id := Counted(n.mem[id], k)], PushEvent(id, at, k), f);
      NodeOk(ids, history, n1) && Carries(n, n1, {})
  {
    hide DocCurrent, LocallyDistinct, Journaled;
    CountedStateOk(n.mem[id], k);
    CommitEntry(ids, history, n, id, Counted(n.mem[id], k), PushEvent(id, at, k), f);
  }

  lemma SlidStateOk(c: ControllerState, k: Key)
    requires StateOk(c) && c.eventsTotal == COUNTER_MAX
    ensures StateOk(Slid(c, k))
  {
  }

  lemma CountedStateOk(c: ControllerState, k: Key)
    requires StateOk(c) && c.eventsTotal < COUNTER_MAX && k !in c.seen
    ensures StateOk(Counted(c, k))
  {
  }

  lemma EntryDocOk(ids: set<Id>, doc: Document, written: seq<Record>, id: Id, c: ControllerState, r: Record)
    requires DocOk(ids, written, doc) && id in doc && StateOk(c)
    requires c.accepted == doc[id].accepted
          || (r.PushEvent? && r.id == id && c.accepted == doc[id].accepted + [r.key])
    ensures DocOk(ids, written + [r], doc[id := c])
  {
    hide StateOk, IsSubsequence, PushKeys;
    EntryJournaled(doc, written, id, c.accepted, r);
  }

  /** The pattern of every counted change: set the entry, commit, keep the old entry if that fails. */
  lemma CommitEntry(ids: set<Id>, history: seq<Happening>, n: Node, id: Id, c: ControllerState, r: Record, f: Fate)
    requires NodeOk(ids, history, n) && id in n.mem && StateOk(c)
    requires c.enrollment == n.mem[id].enrollment && c.identityValid == n.mem[id].identityValid
    requires c.accepted == n.mem[id].accepted
          || (r.PushEvent? && r.id == id && c.accepted == n.mem[id].accepted + [r.key])
    ensures NodeOk(ids, history, AfterCommit(n, n.mem[id := c], r, f))
    ensures Carries(n, AfterCommit(n, n.mem[id := c], r, f), {})
  {
    hide StateOk, NotBehind, DocOk, DocCurrent;
    EntryDocOk(ids, n.mem, n.disk.written, id, c, r);
    SameForReaders(history, n.mem, n.mem[id := c]);
    CommitKeepsDocuments(ids, history, n, n.mem[id := c], r, f);
    CommitCarries(n, n.mem[id := c], r, f);
  }

  ghost function AfterCommit(n: Node, m: Document, r: Record, f: Fate): Node {
    Node(if f.Committed? then m else n.mem, CommitTo(n.disk, m, r, f))
  }

  lemma CommitCarries(n: Node, m: Document, r: Record, f: Fate)
    requires SameRequests(m, n.mem, {})
    ensures Carries(n, AfterCommit(n, m, r, f), {})
  {
  }

  lemma EntryJournaled(doc: Document, written: seq<Record>, id: Id, accepted: seq<Key>, r: Record)
    requires Journaled(doc, written) && id in doc
    requires accepted == doc[id].accepted || (r.PushEvent? && r.id == id && accepted == doc[id].accepted + [r.key])
    ensures Journaled(doc, written + [r]) && IsSubsequence(accepted, PushKeys(written + [r], id))
  {
  }

  /** A change of one entry in memory only, outside the counted part and the request. */
  lemma EntryInMemory(ids: set<Id>, history: seq<Happening>, n: Node, id: Id, c: ControllerState)
    requires NodeOk(ids, history, n) && id in ids
    requires StateOk(c) && c.accepted == Entry(n.mem, id).accepted
    requires c.enrollment == Entry(n.mem, id).enrollment
    ensures NodeOk(ids, history, n.(mem := n.mem[id := c]))
    ensures Carries(n, n.(mem := n.mem[id := c]), {id})
    ensures id in n.mem && c.identityValid == n.mem[id].identityValid ==> Carries(n, n.(mem := n.mem[id := c]), {})
  {
    hide StateOk, NotBehind;
    SameForReaders(history, n.mem, n.mem[id := c]);
    assert DocOk(ids, n.disk.written, n.mem[id := c]);
  }

  lemma {:induction false} AcceptAllKeeps(ids: set<Id>, history: seq<Happening>, n: Node, id: Id, at: int, keys: seq<Key>, fates: seq<Fate>)
    requires NodeOk(ids, history, n) && id in n.mem && |fates| == |keys|
    ensures NodeOk(ids, history, AcceptAll(n, id, at, keys, fates).0)
    ensures Carries(n, AcceptAll(n, id, at, keys, fates).0, {})
    decreases |keys|
  {
    hide NodeOk, AcceptKey;
    if keys != [] {
      var last := |keys| - 1;
      AcceptAllKeeps(ids, history, n, id, at, keys[..last], fates[..last]);
      var (n1, o) := AcceptAll(n, id, at, keys[..last], fates[..last]);
      if o == Accepted {
        AcceptKeyKeeps(ids, history, n1, id, at, keys[last], fates[last]);
        CarriesOn(n, n1, AcceptKey(n1, id, at, keys[last], fates[last]).0, {});
      }
    }
  }

  lemma ReceiptKeeps(ids: set<Id>, history: seq<Happening>, n: Node, id: Id, at: int, f: Fate)
    requires NodeOk(ids, history, n) && id in n.mem
    ensures NodeOk(ids, history, Receipt(n, id, at, f).0)
    ensures Carries(n, Receipt(n, id, at, f).0, {})
  {
    hide DocCurrent, Journaled;
    CommitEntry(ids, history, n, id, n.mem[id].(pushAt := at), PushReceipt(id, at), f);
  }

  lemma PostKeeps(cfg: Config, ids: set<Id>, history: seq<Happening>, n: Node, id: Id, body: Body, inventoryAt: int, at: int, fates: seq<Fate>)
    requires NodeOk(ids, history, n) && |fates| == MAX_BATCH + 1
    ensures NodeOk(ids, history, Post(cfg, n, id, body, inventoryAt, at, fates).0)
    ensures Carries(n, Post(cfg, n, id, body, inventoryAt, at, fates).0, {})
  {
    hide NodeOk, AcceptAll, Receipt;
    if PostAllowed(cfg, n.mem, id, body, inventoryAt, at) {
      var keys := ProjectEvents(body.events.value).value;
      var used := fates[..|keys| + 1][..|keys|];
      AcceptAllKeeps(ids, history, n, id, at, keys, used);
      var (n1, o) := AcceptAll(n, id, at, keys, used);
      if o == Accepted {
        ReceiptKeeps(ids, history, n1, id, at, fates[|keys|]);
        CarriesOn(n, n1, Receipt(n1, id, at, fates[|keys|]).0, {});
      }
    }
  }

  // ---------------------------------------------------------------- the history grows

  lemma LaterGrows(history: seq<Happening>, x: Happening, i: int)
    requires 0 <= i < |history|
    ensures forall y :: Later(history, i, y) ==> Later(history + [x], i, y)
  {
    forall y | Later(history, i, y) ensures Later(history + [x], i, y) {
      var j :| i < j < |history| && history[j] == y;
      assert (history + [x])[j] == history[j];
    }
  }

  lemma ConfirmedLaterGrows(history: seq<Happening>, x: Happening, i: int)
    requires 0 <= i < |history|
    ensures forall r :: ConfirmedLater(history, i, r) ==> ConfirmedLater(history + [x], i, r)
  {
    forall r | ConfirmedLater(history, i, r) ensures ConfirmedLater(history + [x], i, r) {
      var j :| i < j < |history| && Confirms(history[j], r);
      assert (history + [x])[j] == history[j];
    }
  }

  lemma ConfirmedBetweenGrows(history: seq<Happening>, x: Happening, i: int, j: int, r: Request)
    requires ConfirmedBetween(history, i, j, r)
    ensures ConfirmedBetween(history + [x], i, j, r)
  {
    var k :| i < k < j && Confirms(history[k], r);
    assert (history + [x])[k] == history[k];
  }

  /** Nothing that happens makes a document outdated, except a send it does not name as wanted. */
  lemma DocSurvives(history: seq<Happening>, doc: Document, x: Happening)
    requires DocCurrent(history, doc) && (x.Sent? ==> Wanted(doc, x.request))
    ensures DocCurrent(history + [x], doc)
  {
    hide Later;
    var h := history + [x];
    forall i | 0 <= i < |h| ensures NotBehind(h, i, doc) {
      if i < |history| {
        assert NotBehind(history, i, doc);
        LaterGrows(history, x, i);
        ConfirmedLaterGrows(history, x, i);
      }
    }
  }

  lemma NodeSurvives(ids: set<Id>, history: seq<Happening>, n: Node, x: Happening)
    requires NodeOk(ids, history, n) && (x.Sent? ==> Pinned(n, x.request))
    ensures NodeOk(ids, history + [x], n)
  {
    hide DocCurrent, DocOk, Wanted;
    DocSurvives(history, n.mem, x);
    forall v | v in n.disk.views ensures DocCurrent(history + [x], v) {
      DocSurvives(history, v, x);
    }
  }

  lemma BetweenGrows(history: seq<Happening>, x: Happening, i: int, j: int, y: Happening)
    requires Between(history, i, j, y)
    ensures Between(history + [x], i, j, y)
  {
    var k :| i < k < j && history[k] == y;
    assert (history + [x])[k] == history[k];
  }

  /** Happenings that are neither a mint nor a send leave the order of the others alone. */
  lemma OrderIgnores(history: seq<Happening>, minted: nat, x: Happening)
    requires HistoryOk(history, minted) && !x.Minted? && !x.Sent?
    requires x.Scraped? ==> forall id | id in x.doc :: StateOk(x.doc[id])
    ensures HistoryOk(history + [x], minted)
  {
    hide StateOk, SendsOk, MintsWait;
    SendsIgnore(history, x);
    MintsWaitIgnores(history, x);
  }

  lemma SendsIgnore(history: seq<Happening>, x: Happening)
    requires SendsOk(history) && !x.Sent?
    ensures SendsOk(history + [x])
  {
    hide Between;
    var h := history + [x];
    forall i | 0 <= i < |h| && h[i].Sent? ensures Minted(h[i].request) in h[..i] {
      assert h[..i] == history[..i];
    }
    forall i, j | 0 <= i < j < |h| && h[i].Sent? && h[j].Sent? && h[i].request.id == h[j].request.id
      ensures SendsAgree(h, i, j)
    {
      assert SendsAgree(history, i, j);
      if Between(history, i, j, Minted(history[j].request)) { BetweenGrows(history, x, i, j, Minted(history[j].request)); }
    }
  }

  lemma MintsWaitIgnores(history: seq<Happening>, x: Happening)
    requires MintsWait(history) && !x.Minted?
    ensures MintsWait(history + [x])
  {
    hide ConfirmedBetween;
    var h := history + [x];
    forall i, j | 0 <= i < j < |h| && h[i].Sent? && h[j].Minted? && h[i].request.id == h[j].request.id
      ensures ConfirmedBetween(h, i, j, h[i].request)
    {
      ConfirmedBetweenGrows(history, x, i, j, history[i].request);
    }
  }

  // ---------------------------------------------------------------- a request is minted

  lemma MintKeeps(ids: set<Id>, s: Sys, n: Node, id: Id, c: ControllerState, r: Request)
    requires NodeOk(ids, s.history, n) && MintsOk(s.history, s.minted) && id in n.mem && id in ids
    requires StateOk(c) && c.accepted == n.mem[id].accepted && !Pending(n.mem[id].enrollment)
    requires r.id == id && r.requestId == s.minted
    requires EnrolledAs(n.mem[id := c], r)
    ensures NodeOk(ids, s.history + [Minted(r)], n.(mem := n.mem[id := c]))
  {
    hide DocCurrent, StateOk, MintsOk, EnrolledAs;
    MintedDocCurrent(s.history, s.minted, n.mem, id, c, r);
    NodeSurvives(ids, s.history, n, Minted(r));
    assert DocOk(ids, n.disk.written, n.mem[id := c]);
  }

  lemma MintedDocCurrent(history: seq<Happening>, minted: nat, doc: Document, id: Id, c: ControllerState, r: Request)
    requires DocCurrent(history, doc) && MintsOk(history, minted) && id in doc && !Pending(doc[id].enrollment)
    requires r.id == id && r.requestId == minted && EnrolledAs(doc[id := c], r)
    ensures DocCurrent(history + [Minted(r)], doc[id := c])
  {
    hide Later;
    var h := history + [Minted(r)];
    var m := doc[id := c];
    assert h[|history|] == Minted(r);
    DocSurvives(history, doc, Minted(r));
    forall i | 0 <= i < |h| ensures NotBehind(h, i, m) {
      assert NotBehind(h, i, doc);
      if h[i].Sent? && h[i].request.id == id {
        assert i < |history| && Later(h, i, Minted(r)) by { IsLater(h, i, |history|); }
        OlderThanMinted(history, minted, doc, id);
      }
    }
    forall x | x in m && m[x].enrollment.Some? ensures Minted(RequestOf(m, x)) in h {
      if x != id { assert RequestOf(m, x) == RequestOf(doc, x); }
    }
  }

  lemma IsLater(history: seq<Happening>, i: int, j: int)
    requires 0 <= i < j < |history|
    ensures Later(history, i, history[j])
  {
  }

  lemma OlderThanMinted(history: seq<Happening>, minted: nat, doc: Document, id: Id)
    requires DocCurrent(history, doc) && MintsOk(history, minted) && id in doc && doc[id].enrollment.Some?
    ensures doc[id].enrollment.value.requestId < minted
  {
  }

  lemma MintKeepsOrder(history: seq<Happening>, minted: nat, doc: Document, r: Request)
    requires HistoryOk(history, minted) && r.requestId == minted
    requires DocCurrent(history, doc) && r.id in doc && !Pending(doc[r.id].enrollment)
    ensures HistoryOk(history + [Minted(r)], minted + 1)
  {
    hide StateOk, SendsOk, MintsWait, DocCurrent;
    SendsIgnore(history, Minted(r));
    MintHasWaited(history, doc, r);
  }

  /** A request is minted only where the one before, if it was ever sent, has been confirmed. */
  lemma MintHasWaited(history: seq<Happening>, doc: Document, r: Request)
    requires MintsWait(history) && DocCurrent(history, doc) && r.id in doc && !Pending(doc[r.id].enrollment)
    ensures MintsWait(history + [Minted(r)])
  {
    hide Between;
    var h := history + [Minted(r)];
    forall i, j | 0 <= i < j < |h| && h[i].Sent? && h[j].Minted? && h[i].request.id == h[j].request.id
      ensures ConfirmedBetween(h, i, j, h[i].request)
    {
      var sent := history[i].request;
      if j == |history| {
        assert NotBehind(history, i, doc);
        assert ConfirmedBetween(history, i, j, sent);
      }
      ConfirmedBetweenGrows(history, Minted(r), i, j, sent);
    }
  }

  lemma LaterIsBetween(history: seq<Happening>, i: int, y: Happening)
    requires Later(history, i, y)
    ensures Between(history, i, |history|, y)
  {
    var k :| i < k < |history| && history[k] == y;
  }

  // ---------------------------------------------------------------- a request is sent and answered

  /** A send repeats the last one, unless its request was minted since. */
  lemma SendKeepsOrder(history: seq<Happening>, minted: nat, doc: Document, r: Request)
    requires HistoryOk(history, minted) && DocCurrent(history, doc) && EnrolledAs(doc, r)
    ensures HistoryOk(history + [Sent(r)], minted)
  {
    hide StateOk, MintsWait, Between, Later;
    var h := history + [Sent(r)];
    MintsWaitIgnores(history, Sent(r));
    SendIsMinted(history, doc, r);
    forall i, j | 0 <= i < j < |h| && h[i].Sent? && h[j].Sent? && h[i].request.id == h[j].request.id
      ensures SendsAgree(h, i, j)
    {
      var y := Minted(h[j].request);
      if j == |history| {
        assert NotBehind(history, i, doc);
        if Later(history, i, y) { LaterIsBetween(history, i, y); }
      } else {
        assert SendsAgree(history, i, j);
      }
      if Between(history, i, j, y) { BetweenGrows(history, Sent(r), i, j, y); }
    }
  }

  lemma SendIsMinted(history: seq<Happening>, doc: Document, r: Request)
    requires DocCurrent(history, doc) && EnrolledAs(doc, r) && SendsOk(history)
    ensures var h := history + [Sent(r)];
      forall i | 0 <= i < |h| && h[i].Sent? :: Minted(h[i].request) in h[..i]
  {
    hide NotBehind, SendsAgree;
    var h := history + [Sent(r)];
    assert Minted(RequestOf(doc, r.id)) in history;
    forall i | 0 <= i < |h| && h[i].Sent? ensures Minted(h[i].request) in h[..i] {
      assert h[..i] == history[..i];
    }
  }

  /** The entry after an answer; it stays wanted unless the answer confirmed it. */
  lemma AnsweredDocCurrent(history: seq<Happening>, doc: Document, r: Request, c: ControllerState, configured: bool, at: int)
    requires DocCurrent(history, doc) && EnrolledAs(doc, r) && EnrolledAs(doc[r.id := c], r)
    requires !configured ==> Pending(c.enrollment)
    ensures DocCurrent(history + [Answered(r, configured, at)], doc[r.id := c])
  {
    hide Later;
    var h := history + [Answered(r, configured, at)];
    var m := doc[r.id := c];
    assert h[|history|] == Answered(r, configured, at);
    DocSurvives(history, doc, h[|history|]);
    forall i | 0 <= i < |h| ensures NotBehind(h, i, m) {
      assert NotBehind(h, i, doc);
      assert configured && i < |history| ==> Confirms(h[|history|], r) && ConfirmedLater(h, i, r);
    }
    forall x | x in m && m[x].enrollment.Some? ensures Minted(RequestOf(m, x)) in h {
      assert RequestOf(m, x) == RequestOf(doc, x);
    }
  }
}
