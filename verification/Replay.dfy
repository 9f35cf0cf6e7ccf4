/** The observer's memory as a replay of what happened: replies, checks, answers, posts and restarts decide it,
    and every recoverable version of state.json is the memory of some earlier moment. */
module Replay {
  import opened Sequences
  import opened BmcState
  import opened Durability
  import opened Regions
  import opened Machine
  import opened MachineInvariant
  import opened MachineSafety
  import InventoryCheck

  /** What is stored of a controller, apart from the counted events and the time of the last post. */
  datatype Facts = Facts(identityValid: bool, available: bool, pollAt: int, reading: Reading, enrollment: Option<Enrollment>)

  function FactsOf(c: ControllerState): Facts {
    Facts(c.identityValid, c.available, c.pollAt, c.diagnostic.reading, c.enrollment)
  }

  /** The reply said its inventory was current, and it was observed at most two minutes before it was
      looked at, and not after. */
  predicate Prompt(x: Happening)
    requires x.Replied? && x.reply.Reply?
  {
    && x.reply.inventoryCurrent
    && 0 < x.reply.reading.observedAt <= x.projectedAt
    && x.projectedAt - x.reply.reading.observedAt <= 120000
  }

  predicate IsReply(x: Happening, id: Id) {
    x.Replied? && x.reply.Reply? && x.controller.id == id
  }

  /** How one happening changes what is stored. */
  function After(f: Facts, x: Happening, id: Id): Facts {
    if x.Checked? && x.controller.id == id then f.(identityValid := x.valid, available := false)
    else if IsReply(x, id) then f.(available := Prompt(x), pollAt := x.at, reading := x.reply.reading)
    else if x.Minted? && x.request.id == id then
      f.(enrollment := Some(Enrollment(x.request.requestId, x.request.revision, Intent, 0)))
    else if x.Answered? && x.request.id == id then
      f.(enrollment := Some(Enrollment(x.request.requestId, x.request.revision,
                                       if x.configured then Configured else Unknown, x.at)))
    else if x.Reloaded? then FactsOf(Entry(x.doc, id))
    else f
  }

  const NOTHING_YET := Facts(false, false, 0, Reading(0, false, false, [], [], [], [], false, None), None)

  ghost function Replayed(history: seq<Happening>, id: Id): Facts {
    if history == [] then NOTHING_YET
    else After(Replayed(history[..|history| - 1], id), history[|history| - 1], id)
  }

  /** The time of the controller's last accepted post. */
  ghost function LastPost(history: seq<Happening>, id: Id): int {
    if history == [] then 0
    else
      var x := history[|history| - 1];
      if x.Posted? && x.id == id && x.outcome == Accepted then x.at
      else if x.Reloaded? then Entry(x.doc, id).pushAt
      else LastPost(history[..|history| - 1], id)
  }

  ghost function LastAdopted(history: seq<Happening>): Option<Inventory> {
    if history == [] then None
    else
      var x := history[|history| - 1];
      if x.Adopted? then Some(x.inventory) else LastAdopted(history[..|history| - 1])
  }

  /** The time of the inventory in use: none after a tick began or failed, an inventory was refused, or the
      process restarted. */
  ghost function InventoryTime(history: seq<Happening>): int {
    if history == [] then 0
    else
      var x := history[|history| - 1];
      if x.Adopted? then x.inventory.generatedAt
      else if x.Withdrawn? || x.Reloaded? then 0
      else InventoryTime(history[..|history| - 1])
  }

  lemma OneMore(history: seq<Happening>, x: Happening, id: Id)
    ensures Replayed(history + [x], id) == After(Replayed(history, id), x, id)
    ensures LastPost(history + [x], id)
         == if x.Posted? && x.id == id && x.outcome == Accepted then x.at
            else if x.Reloaded? then Entry(x.doc, id).pushAt else LastPost(history, id)
    ensures LastAdopted(history + [x]) == if x.Adopted? then Some(x.inventory) else LastAdopted(history)
    ensures InventoryTime(history + [x])
         == if x.Adopted? then x.inventory.generatedAt else if x.Withdrawn? || x.Reloaded? then 0
            else InventoryTime(history)
  {
    assert (history + [x])[..|history|] == history;
  }

  // ---------------------------------------------------------------- documents

  ghost predicate SameFacts(a: Document, b: Document) {
    forall id :: FactsOf(Entry(a, id)) == FactsOf(Entry(b, id))
  }

  /** The document shows what the history leads to. */
  ghost predicate Pictures(history: seq<Happening>, doc: Document) {
    forall id :: FactsOf(Entry(doc, id)) == Replayed(history, id)
  }

  /** The document shows what the history led to at some moment. */
  ghost predicate Past(history: seq<Happening>, doc: Document) {
    exists k :: 0 <= k <= |history| && Pictures(history[..k], doc)
  }

  lemma PastLasts(history: seq<Happening>, h: seq<Happening>, doc: Document)
    requires Past(history, doc) && history <= h
    ensures Past(h, doc)
  {
    var k :| 0 <= k <= |history| && Pictures(history[..k], doc);
    assert h[..k] == history[..k];
  }

  // ---------------------------------------------------------------- sections

  /** Memory says the same, and so does every version of state.json that is new. */
  ghost predicate Quiet(n: Node, n2: Node) {
    && SameFacts(n2.mem, n.mem)
    && forall v | v in n2.disk.views :: v in n.disk.views || SameFacts(v, n.mem)
  }

  lemma QuietOn(n1: Node, n2: Node, n3: Node)
    requires Quiet(n1, n2) && Quiet(n2, n3)
    ensures Quiet(n1, n3)
  {
    hide FactsOf;
    forall v | v in n3.disk.views && v !in n1.disk.views ensures SameFacts(v, n1.mem) {
      if v in n2.disk.views {
        assert SameFacts(v, n1.mem);
      } else {
        assert SameFacts(v, n2.mem);
      }
    }
  }

  lemma CommitIsQuiet(n: Node, m: Document, r: Record, f: Fate)
    requires SameFacts(m, n.mem)
    ensures Quiet(n, AfterCommit(n, m, r, f))
  {
    hide FactsOf;
  }

  lemma KeyIsQuiet(n: Node, id: Id, at: int, k: Key, f: Fate)
    requires id in n.mem
    ensures Quiet(n, AcceptKey(n, id, at, k, f).0)
    ensures forall x :: Entry(AcceptKey(n, id, at, k, f).0.mem, x).pushAt == Entry(n.mem, x).pushAt
  {
    var c := n.mem[id];
    if k !in c.seen && c.eventsTotal != COUNTER_MAX {
      CommitIsQuiet(n, n.mem[id := Counted(c, k)], PushEvent(id, at, k), f);
    }
  }

  lemma {:induction false} KeysAreQuiet(n: Node, id: Id, at: int, keys: seq<Key>, fates: seq<Fate>)
    requires id in n.mem && |fates| == |keys|
    ensures Quiet(n, AcceptAll(n, id, at, keys, fates).0)
    ensures forall x :: Entry(AcceptAll(n, id, at, keys, fates).0.mem, x).pushAt == Entry(n.mem, x).pushAt
    decreases |keys|
  {
    hide AcceptKey, Quiet;
    if keys == [] {
      NothingIsQuiet(n);
    } else {
      var last := |keys| - 1;
      KeysAreQuiet(n, id, at, keys[..last], fates[..last]);
      var (n1, o) := AcceptAll(n, id, at, keys[..last], fates[..last]);
      if o == Accepted {
        KeyIsQuiet(n1, id, at, keys[last], fates[last]);
        QuietOn(n, n1, AcceptKey(n1, id, at, keys[last], fates[last]).0);
      }
    }
  }

  lemma NothingIsQuiet(n: Node)
    ensures Quiet(n, n)
  {
  }

  lemma ReceiptIsQuiet(n: Node, id: Id, at: int, f: Fate)
    requires id in n.mem
    ensures Quiet(n, Receipt(n, id, at, f).0)
    ensures var (n2, o) := Receipt(n, id, at, f);
      forall x :: Entry(n2.mem, x).pushAt == if o == Accepted && x == id then at else Entry(n.mem, x).pushAt
  {
    CommitIsQuiet(n, n.mem[id := n.mem[id].(pushAt := at)], PushReceipt(id, at), f);
  }

  lemma PostIsQuiet(cfg: Config, n: Node, id: Id, body: Body, inventoryAt: int, at: int, fates: seq<Fate>)
    requires |fates| == MAX_BATCH + 1
    ensures Quiet(n, Post(cfg, n, id, body, inventoryAt, at, fates).0)
    ensures var (n2, o) := Post(cfg, n, id, body, inventoryAt, at, fates);
      forall x :: Entry(n2.mem, x).pushAt == if o == Accepted && x == id then at else Entry(n.mem, x).pushAt
  {
    hide AcceptAll, Receipt, Quiet;
    if !PostAllowed(cfg, n.mem, id, body, inventoryAt, at) {
      NothingIsQuiet(n);
    } else {
      var keys := ProjectEvents(body.events.value).value;
      var used := fates[..|keys| + 1][..|keys|];
      KeysAreQuiet(n, id, at, keys, used);
      var (n1, o) := AcceptAll(n, id, at, keys, used);
      if o == Accepted {
        ReceiptIsQuiet(n1, id, at, fates[|keys|]);
        QuietOn(n, n1, Receipt(n1, id, at, fates[|keys|]).0);
      }
    }
  }

  /** After a section every version of state.json is an old one or says what memory says. */
  ghost predicate Settled(n: Node, n2: Node) {
    forall v | v in n2.disk.views :: v in n.disk.views || SameFacts(v, n2.mem)
  }

  lemma QuietIsSettled(n: Node, n2: Node)
    requires Quiet(n, n2)
    ensures Settled(n, n2)
  {
  }

  lemma SectionIsSettled(n: Node, m: Document, n2: Node, r0: Record, f0: Fate, r1: Record, f1: Fate)
    requires Section(n.(mem := m), n2, r0, f0, r1, f1)
    ensures n2.mem == m && Settled(n, n2)
  {
    hide FactsOf;
    assert SameFacts(m, m);
  }

  // ---------------------------------------------------------------- steps

  /** What memory says after a step is what the longer history leads to. */
  ghost predicate Follows(s: Sys, s2: Sys) {
    && s.history <= s2.history
    && (Pictures(s.history, s.node.mem) ==> Pictures(s2.history, s2.node.mem))
    && ((forall id :: Entry(s.node.mem, id).pushAt == LastPost(s.history, id))
        ==> forall id :: Entry(s2.node.mem, id).pushAt == LastPost(s2.history, id))
    && Settled(s.node, s2.node)
  }

  lemma CheckFollows(s: Sys, c: Controller, at: int)
    requires Enabled(s, Begin(c, at))
    ensures Follows(s, Apply(s, Begin(c, at)))
  {
    hide InventoryMatches, Replayed, LastPost, CommitTo;
    NothingIsQuiet(s.node);
    var s2 := BeginStep(s, c, at);
    var x := s2.history[|s.history|];
    forall id ensures Replayed(s2.history, id) == After(Replayed(s.history, id), x, id)
              ensures LastPost(s2.history, id) == LastPost(s.history, id)
    {
      OneMore(s.history, x, id);
    }
  }

  lemma AnswerFollows(s: Sys, id: Id, configured: bool, at: int, f: Fate)
    requires Inv(s) && Enabled(s, Answer(id, configured, at, f))
    ensures Follows(s, Apply(s, Answer(id, configured, at, f)))
  {
    hide Replayed, LastPost, NodeOk, HistoryOk;
    var r := s.tasks[id].request;
    assert TaskOk(s.tick, s.node, id, s.tasks[id]);
    var x := Answered(r, configured, at);
    forall y ensures Replayed(s.history + [x], y) == After(Replayed(s.history, y), x, y)
             ensures LastPost(s.history + [x], y) == LastPost(s.history, y)
    {
      OneMore(s.history, x, y);
    }
  }

  lemma PostFollows(s: Sys, id: Id, body: Body, at: int, fates: seq<Fate>)
    requires |fates| == MAX_BATCH + 1
    ensures Follows(s, Apply(s, Events(id, body, at, fates)))
  {
    hide Replayed, LastPost, Post, FactsOf;
    var (n, outcome) := Post(s.config, s.node, id, body, s.inventoryAt, at, fates);
    PostIsQuiet(s.config, s.node, id, body, s.inventoryAt, at, fates);
    QuietIsSettled(s.node, n);
    var x := Posted(id, body, at, outcome);
    forall y ensures Replayed(s.history + [x], y) == Replayed(s.history, y)
             ensures LastPost(s.history + [x], y)
                  == if outcome == Accepted && y == id then at else LastPost(s.history, y)
    {
      OneMore(s.history, x, y);
    }
  }

  /** Happenings that say nothing about what is stored. */
  predicate Silent(x: Happening) {
    x.Withdrawn? || x.Adopted? || x.Sent? || x.Scraped?
  }

  lemma SilenceFollows(s: Sys, s2: Sys)
    requires s2.node.mem == s.node.mem && Settled(s.node, s2.node)
    requires s2.history == s.history || exists x :: s2.history == s.history + [x] && Silent(x)
    ensures Follows(s, s2)
  {
    hide Replayed, LastPost, FactsOf;
    if x :| s2.history == s.history + [x] && Silent(x) {
      forall id ensures Replayed(s2.history, id) == Replayed(s.history, id)
                ensures LastPost(s2.history, id) == LastPost(s.history, id)
      {
        OneMore(s.history, x, id);
      }
    }
  }

  lemma CommitSettles(n: Node, r: Record, f: Fate)
    ensures Settled(n, CommitMemory(n, r, f))
  {
    hide FactsOf;
    assert SameFacts(n.mem, n.mem);
  }

  lemma ReplyFollows(s: Sys, c: Controller, b: Registered, reply: Reply, projectedAt: int, at: int, f0: Fate, f1: Fate)
    requires c.id in s.node.mem && s.tick.Some? && reply.Reply?
    ensures var x := Replied(c, b, s.config.enrollPush, reply, projectedAt, at);
      Follows(s, Diagnosis(Noted(s, x), c, b, Project(reply, projectedAt), at, f0, f1))
  {
    hide Replayed, LastPost, Section, CommitMemory;
    var x := Replied(c, b, s.config.enrollPush, reply, projectedAt, at);
    var s1 := Noted(s, x);
    var s2 := Diagnosis(s1, c, b, Project(reply, projectedAt), at, f0, f1);
    var e := EntryAfter(s1, c, b, Project(reply, projectedAt), at);
    DiagnoseIsASection(s1, c, b, Project(reply, projectedAt), at, f0, f1);
    SectionIsSettled(s.node, s.node.mem[c.id := e], s2.node, Observation(c.id, at, Project(reply, projectedAt)), f0,
                     EnrollmentIntent(c.id, at, e.enrollment), f1);
    hide Diagnose, Diagnosed;
    var mint := Mint(s1, c.id, s2.node);
    forall id ensures Replayed(s2.history, id)
                   == (var f := After(Replayed(s.history, id), x, id); if mint == [] then f else After(f, mint[0], id))
              ensures LastPost(s2.history, id) == LastPost(s.history, id)
    {
      OneMore(s.history, x, id);
      if mint == [] {
        assert s1.history + [] == s1.history;
      } else {
        assert mint == [mint[0]];
        OneMore(s1.history, mint[0], id);
      }
    }
    EntryIsReplayed(s1, c, b, reply, projectedAt, at, s2.node);
  }

  /** The entry a reply leaves, in terms of the reply and of what was minted. */
  lemma EntryIsReplayed(s: Sys, c: Controller, b: Registered, reply: Reply, projectedAt: int, at: int, n: Node)
    requires c.id in s.node.mem && s.tick.Some? && reply.Reply?
    requires n.mem == s.node.mem[c.id := EntryAfter(s, c, b, Project(reply, projectedAt), at)]
    ensures var x := Replied(c, b, s.config.enrollPush, reply, projectedAt, at);
      var f := After(FactsOf(s.node.mem[c.id]), x, c.id);
      var mint := Mint(s, c.id, n);
      FactsOf(n.mem[c.id]) == if mint == [] then f else After(f, mint[0], c.id)
    ensures Mint(s, c.id, n) != [] ==> Mint(s, c.id, n)[0].Minted? && Mint(s, c.id, n)[0].request.id == c.id
    ensures n.mem[c.id].pushAt == s.node.mem[c.id].pushAt
  {
  }

  lemma StepFollows(s: Sys, step: Step)
    requires Inv(s) && Enabled(s, step) && !step.ProcessRestart? && !step.PowerLoss?
    ensures Follows(s, Apply(s, step))
  {
    hide Follows, Settled, Inv, Post, Diagnosis, InventoryMatches, FindRegistered, Project, CommitTo, BeginStep, ValidConfig;
    NothingIsQuiet(s.node);
    QuietIsSettled(s.node, s.node);
    match step
    case Begin(c, at) => CheckFollows(s, c, at);
    case CommitGap(id, at, f) =>
      CommitSettles(s.node, IdentityGap(id, at), f);
      SilenceFollows(s, Apply(s, step));
    case Observe(c, reply, projectedAt, at, f0, f1) =>
      if Answers(reply, c) {
        ReplyFollows(s, c, FindRegistered(s.tick.value.controllers, c.id).value, reply, projectedAt, at, f0, f1);
      } else {
        CommitSettles(s.node, CollectionGap(c.id, at), f0);
        SilenceFollows(s, Apply(s, step));
      }
    case Answer(id, configured, at, f) => AnswerFollows(s, id, configured, at, f);
    case Events(id, body, at, fates) => PostFollows(s, id, body, at, fates);
    case Send(id) =>
      assert Silent(Sent(s.tasks[id].request));
      SilenceFollows(s, Apply(s, step));
    case Scrape(at) =>
      assert Silent(Scraped(s.config, s.node.mem, s.inventoryAt, at));
      SilenceFollows(s, Apply(s, step));
    case UseInventory(inv, at) =>
      assert Silent(Adopted(inv, at, MaxAge(s.config))) && Silent(Withdrawn);
      SilenceFollows(s, Apply(s, step));
    case StartTick =>
      assert Silent(Withdrawn);
      SilenceFollows(s, Apply(s, step));
    case EndTick(_) =>
      assert Silent(Withdrawn);
      SilenceFollows(s, Apply(s, step));
    case ReadIntent(_) => SilenceFollows(s, Apply(s, step));
    case ProcessRestart(_) =>
    case PowerLoss(_, _) =>
  }

  // ---------------------------------------------------------------- what is on record is true

  /** A request is minted right after a reply of its controller, when event push is wanted all round, no
      request exists or the last one was confirmed at least fifteen minutes ago, and the inventory in use
      names the revision. */
  ghost predicate Due(history: seq<Happening>, i: nat)
    requires i < |history| && history[i].Minted?
  {
    var r := history[i].request;
    && i > 0 && IsReply(history[i - 1], r.id)
    && history[i - 1].enrollPush && history[i - 1].row.pushEnabled && history[i - 1].controller.eventToken
    && history[i - 1].reply.reading.pushSupported
    && LastAdopted(history[..i]).Some? && LastAdopted(history[..i]).value.revision == Some(r.revision)
    && var e := Replayed(history[..i], r.id).enrollment;
       e.None? || (e.value.phase == Configured && history[i - 1].at - e.value.checkedAt >= 900000)
  }

  /** Each record of the history is true of what happened before it. */
  ghost predicate Witnessed(history: seq<Happening>, i: nat)
    requires i < |history|
  {
    match history[i]
    case Adopted(inv, at, maxAge) => InventoryCheck.InTime(inv, at, maxAge)
    case Checked(c, inv, at, maxAge, valid) =>
      LastAdopted(history[..i]) == Some(inv) && valid == InventoryMatches(c, inv, at, maxAge)
    case Minted(_) => Due(history, i)
    case Replied(c, _, _, reply, _, _) => reply.Reply? && reply.controllerId == c.id && reply.protocol == c.protocol
    case Scraped(_, doc, inventoryAt, _) =>
      && Pictures(history[..i], doc) && inventoryAt == InventoryTime(history[..i])
      && forall id :: Entry(doc, id).pushAt == LastPost(history[..i], id)
    case Reloaded(doc) => Past(history[..i], doc)
    case _ => true
  }

  ghost predicate AllWitnessed(history: seq<Happening>) {
    forall i | 0 <= i < |history| :: Witnessed(history, i)
  }

  lemma WitnessLasts(history: seq<Happening>, h: seq<Happening>, i: nat)
    requires history <= h && i < |history| && Witnessed(history, i)
    ensures Witnessed(h, i)
  {
    hide InventoryMatches, Pictures, Past, Replayed, LastAdopted, LastPost, InventoryTime;
    assert h[..i] == history[..i] && h[i] == history[i];
    if history[i].Minted? { assert i > 0 && h[i - 1] == history[i - 1]; }
  }

  /** What holds in every reachable state. */
  ghost predicate Told(s: Sys) {
    && Pictures(s.history, s.node.mem)
    && (forall id :: Entry(s.node.mem, id).pushAt == LastPost(s.history, id))
    && (forall v | v in s.node.disk.views :: Past(s.history, v))
    && AllWitnessed(s.history)
    && (s.tick.Some? ==> LastAdopted(s.history) == s.tick)
    && s.inventoryAt == InventoryTime(s.history)
  }

  lemma OneWitnessed(history: seq<Happening>, x: Happening)
    requires AllWitnessed(history) && Witnessed(history + [x], |history|)
    ensures AllWitnessed(history + [x])
  {
    hide Witnessed;
    forall i | 0 <= i < |history + [x]| ensures Witnessed(history + [x], i) {
      if i < |history| { WitnessLasts(history, history + [x], i); }
    }
  }

  lemma MintIsDue(s: Sys, c: Controller, b: Registered, reply: Reply, projectedAt: int, at: int, f0: Fate, f1: Fate)
    requires Told(s) && c.id in s.node.mem && s.tick.Some? && Answers(reply, c)
    ensures var x := Replied(c, b, s.config.enrollPush, reply, projectedAt, at);
      AllWitnessed(Diagnosis(Noted(s, x), c, b, Project(reply, projectedAt), at, f0, f1).history)
  {
    hide Replayed, LastAdopted, LastPost, InventoryTime, CommitMemory, InventoryMatches;
    var x := Replied(c, b, s.config.enrollPush, reply, projectedAt, at);
    var s1 := Noted(s, x);
    var s2 := Diagnosis(s1, c, b, Project(reply, projectedAt), at, f0, f1);
    var mint := Mint(s1, c.id, s2.node);
    assert s1.history[|s.history|] == x;
    OneWitnessed(s.history, x);
    OneMore(s.history, x, c.id);
    if mint != [] {
      assert s1.history == (s1.history + mint)[..|s1.history|];
      assert Pictures(s.history, s.node.mem);
      assert Entry(s.node.mem, c.id) == s.node.mem[c.id];
      MintedOnlyIf(s1, c, b, Project(reply, projectedAt), at, f0, f1);
      assert mint == [mint[0]];
      assert Due(s1.history + [mint[0]], |s1.history|);
      OneWitnessed(s1.history, mint[0]);
    } else {
      assert s1.history + [] == s1.history;
    }
  }

  lemma MintedOnlyIf(s: Sys, c: Controller, b: Registered, p: Diagnostic, at: int, f0: Fate, f1: Fate)
    requires c.id in s.node.mem && s.tick.Some?
    ensures var mint := Mint(s, c.id, Diagnosis(s, c, b, p, at, f0, f1).node);
      mint != [] ==>
        && |mint| == 1 && mint[0].Minted? && mint[0].request.id == c.id
        && s.config.enrollPush && b.pushEnabled && p.reading.pushSupported && c.eventToken
        && s.tick.value.revision == Some(mint[0].request.revision)
        && var e := s.node.mem[c.id].enrollment;
           e.None? || (e.value.phase == Configured && at - e.value.checkedAt >= 900000)
  {
    hide CommitTo;
  }

  lemma NothingMoreWitnessed(s: Sys, s2: Sys)
    requires AllWitnessed(s.history)
    requires s2.history == s.history
          || exists x :: s2.history == s.history + [x] && Witnessed(s2.history, |s.history|)
    ensures AllWitnessed(s2.history)
  {
    hide Witnessed, AllWitnessed;
    if x :| s2.history == s.history + [x] && Witnessed(s2.history, |s.history|) { OneWitnessed(s.history, x); }
  }

  lemma StepIsWitnessed(s: Sys, step: Step)
    requires Told(s) && Enabled(s, step)
    ensures AllWitnessed(Apply(s, step).history)
  {
    hide Pictures, Past, AllWitnessed, LastAdopted, InventoryTime, LastPost, Replayed, Post, Diagnosis, CommitTo,
      InventoryMatches, FindRegistered, ValidConfig, Due, MarkIdentity, FinishEnrollment, Project;
    var s2 := Apply(s, step);
    if step.Observe? && Answers(step.reply, step.c) {
      MintIsDue(s, step.c, FindRegistered(s.tick.value.controllers, step.c.id).value, step.reply, step.projectedAt,
                step.at, step.f0, step.f1);
    } else {
      assert |s2.history| > |s.history| ==>
        s2.history == s.history + [s2.history[|s.history|]] && s2.history[..|s.history|] == s.history;
      if step.ProcessRestart? { assert Newest(s.node.disk.views) in s.node.disk.views; }
      if step.PowerLoss? { assert s.node.disk.views[step.survivor] in s.node.disk.views; }
      NothingMoreWitnessed(s, s2);
    }
  }

  function Newest(views: seq<Document>): Document
    requires |views| > 0
  {
    views[|views| - 1]
  }

  lemma TickIsTold(s: Sys, step: Step)
    requires Told(s) && Enabled(s, step)
    ensures var s2 := Apply(s, step);
      && (s2.tick.Some? ==> LastAdopted(s2.history) == s2.tick)
      && s2.inventoryAt == InventoryTime(s2.history)
  {
    hide Pictures, Past, AllWitnessed, LastAdopted, InventoryTime, LastPost, Replayed, Post, CommitTo,
      InventoryMatches, FindRegistered, ValidConfig, MarkIdentity, FinishEnrollment, Project, Diagnose;
    var s2 := Apply(s, step);
    var more := s2.history[|s.history|..];
    assert s2.history == s.history + more && |more| <= 2;
    if |more| == 1 {
      assert more == [more[0]];
      OneMore(s.history, more[0], "");
    } else if |more| == 2 {
      assert s.history + more == s.history + [more[0]] + [more[1]];
      OneMore(s.history, more[0], "");
      OneMore(s.history + [more[0]], more[1], "");
    }
  }

  lemma VersionsStayPast(s: Sys, s2: Sys)
    requires (forall v | v in s.node.disk.views :: Past(s.history, v)) && Follows(s, s2)
    requires Pictures(s2.history, s2.node.mem)
    ensures forall v | v in s2.node.disk.views :: Past(s2.history, v)
  {
    hide FactsOf, Replayed;
    forall v | v in s2.node.disk.views ensures Past(s2.history, v) {
      if v in s.node.disk.views {
        PastLasts(s.history, s2.history, v);
      } else {
        assert s2.history[..|s2.history|] == s2.history;
        assert Pictures(s2.history, v);
      }
    }
  }

  lemma ReloadIsTold(s: Sys, n: Node, next: Config)
    requires Told(s) && n.mem in s.node.disk.views && forall v | v in n.disk.views :: v in s.node.disk.views
    ensures var s2 := Reload(s, n, next);
      && Pictures(s2.history, s2.node.mem)
      && (forall id :: Entry(s2.node.mem, id).pushAt == LastPost(s2.history, id))
      && forall v | v in s2.node.disk.views :: Past(s2.history, v)
  {
    hide FactsOf, Replayed, LastPost, AllWitnessed, LastAdopted, InventoryTime, Past;
    var h := s.history + [Reloaded(n.mem)];
    forall id ensures Replayed(h, id) == FactsOf(Entry(n.mem, id)) && LastPost(h, id) == Entry(n.mem, id).pushAt {
      OneMore(s.history, Reloaded(n.mem), id);
    }
    forall v | v in n.disk.views ensures Past(h, v) {
      PastLasts(s.history, h, v);
    }
  }

  lemma BootIsTold(cfg: Config)
    ensures Told(Boot(cfg))
  {
    assert Boot(cfg).history[..0] == [];
    assert Pictures([], map[]);
  }

  lemma StepIsTold(s: Sys, step: Step)
    requires Inv(s) && Told(s) && Enabled(s, step)
    ensures Told(Apply(s, step))
  {
    StepIsWitnessed(s, step);
    TickIsTold(s, step);
    hide Pictures, Past, AllWitnessed, LastAdopted, InventoryTime, LastPost, Inv, ValidConfig;
    if step.ProcessRestart? {
      hide Reload;
      assert Newest(s.node.disk.views) in s.node.disk.views;
      ReloadIsTold(s, Killed(s.node), step.next);
    } else if step.PowerLoss? {
      hide Reload;
      assert s.node.disk.views[step.survivor] in s.node.disk.views;
      ReloadIsTold(s, PoweredOff(s.node, step.survivor), step.next);
    } else {
      hide Apply, Enabled;
      StepFollows(s, step);
      VersionsStayPast(s, Apply(s, step));
    }
  }

  lemma {:induction false} RunIsTold(cfg: Config, steps: seq<Step>)
    ensures Told(Run(cfg, steps))
  {
    hide Told, Apply, Enabled, Inv;
    if steps == [] {
      BootIsTold(cfg);
    } else {
      var before := steps[..|steps| - 1];
      RunIsTold(cfg, before);
      RunKeepsInvariant(cfg, before);
      if Enabled(Run(cfg, before), steps[|steps| - 1]) { StepIsTold(Run(cfg, before), steps[|steps| - 1]); }
    }
  }

  /** In every run memory is, for each controller, what replaying the history gives. */
  lemma MemoryIsReplayed(cfg: Config, steps: seq<Step>, id: Id)
    ensures var s := Run(cfg, steps);
      FactsOf(Entry(s.node.mem, id)) == Replayed(s.history, id) && Entry(s.node.mem, id).pushAt == LastPost(s.history, id)
  {
    RunIsTold(cfg, steps);
  }

  /** And every recoverable version of state.json is what replaying some beginning of the history gives. */
  lemma VersionsAreFromThePast(cfg: Config, steps: seq<Step>, v: Document)
    requires v in Run(cfg, steps).node.disk.views
    ensures var h := Run(cfg, steps).history;
      exists k :: 0 <= k <= |h| && forall id :: FactsOf(Entry(v, id)) == Replayed(h[..k], id)
  {
    RunIsTold(cfg, steps);
    assert Past(Run(cfg, steps).history, v);
  }

  // ---------------------------------------------------------------- evidence

  lemma BeginningIsWitnessed(history: seq<Happening>, k: nat)
    requires AllWitnessed(history) && k <= |history|
    ensures AllWitnessed(history[..k])
  {
    hide InventoryMatches, Pictures, Past, Replayed, LastAdopted, LastPost, InventoryTime;
    var h := history[..k];
    forall i | 0 <= i < k ensures Witnessed(h, i) {
      assert Witnessed(history, i) && h[..i] == history[..i] && h[i] == history[i];
      if history[i].Minted? { assert i > 0 && h[i - 1] == history[i - 1]; }
    }
  }

  /** A reply that explains an availability claim. */
  ghost predicate Explains(x: Happening, id: Id, f: Facts) {
    IsReply(x, id) && Prompt(x) && x.reply.reading == f.reading && x.at == f.pollAt
  }

  /** Where availability is claimed, a prompt reply of the controller is on record, and it is the one stored. */
  lemma {:induction false} AvailabilityIsExplained(history: seq<Happening>, id: Id)
    requires AllWitnessed(history) && Replayed(history, id).available
    ensures exists j :: 0 <= j < |history| && Explains(history[j], id, Replayed(history, id))
    decreases |history|
  {
    hide AllWitnessed, Explains;
    var last := |history| - 1;
    var x := history[last];
    var f := Replayed(history, id);
    if IsReply(x, id) {
      PromptExplains(history, id);
    } else {
      var k := last;
      if x.Reloaded? { k := ReloadedFrom(history, last, id); }
      BeginningIsWitnessed(history, k);
      assert history[..last] == history[..|history| - 1];
      AvailabilityIsExplained(history[..k], id);
      var j :| 0 <= j < k && Explains(history[..k][j], id, Replayed(history[..k], id));
      SameExplanation(x, history[..k][j], id, Replayed(history[..k], id), f);
      assert history[j] == history[..k][j];
    }
  }

  lemma PromptExplains(history: seq<Happening>, id: Id)
    requires history != [] && IsReply(history[|history| - 1], id) && Replayed(history, id).available
    ensures Explains(history[|history| - 1], id, Replayed(history, id))
  {
  }

  lemma SameExplanation(x: Happening, y: Happening, id: Id, g: Facts, f: Facts)
    requires Explains(y, id, g) && f.available && !IsReply(x, id)
    requires f == if x.Reloaded? then g else After(g, x, id)
    ensures Explains(y, id, f)
  {
  }

  /** A reloaded document leads back to a beginning of the history. */
  lemma ReloadedFrom(history: seq<Happening>, i: nat, id: Id) returns (k: nat)
    requires AllWitnessed(history) && i < |history| && history[i].Reloaded?
    ensures k <= i && Replayed(history[..k], id) == FactsOf(Entry(history[i].doc, id))
  {
    hide Replayed, FactsOf;
    assert Witnessed(history, i);
    var j :| 0 <= j <= i && Pictures(history[..i][..j], history[i].doc);
    assert history[..i][..j] == history[..j];
    k := j;
  }

  /** The answer or the mint that a stored enrollment comes from. */
  ghost predicate EnrollmentOnRecord(history: seq<Happening>, id: Id, e: Enrollment) {
    var r := Request(id, e.requestId, e.revision);
    match e.phase
    case Intent => e.checkedAt == 0 && Minted(r) in history
    case Unknown => Answered(r, false, e.checkedAt) in history
    case Configured => Answered(r, true, e.checkedAt) in history
  }

  lemma {:induction false} EnrollmentIsExplained(history: seq<Happening>, id: Id)
    requires AllWitnessed(history) && Replayed(history, id).enrollment.Some?
    ensures EnrollmentOnRecord(history, id, Replayed(history, id).enrollment.value)
    decreases |history|
  {
    hide AllWitnessed;
    var last := |history| - 1;
    var x := history[last];
    assert x in history;
    if !((x.Minted? || x.Answered?) && x.request.id == id) {
      var k := last;
      if x.Reloaded? { k := ReloadedFrom(history, last, id); }
      BeginningIsWitnessed(history, k);
      assert history[..last] == history[..|history| - 1];
      EnrollmentIsExplained(history[..k], id);
      assert forall y | y in history[..k] :: y in history;
    }
  }
}
