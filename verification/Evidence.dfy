/** What the observer claims about a controller, traced back to the replies, checks, answers and posts it rests on. */
module Evidence {
  import opened Sequences
  import opened BmcState
  import opened Durability
  import opened Regions
  import opened Machine
  import opened MachineInvariant
  import opened MachineSafety
  import opened Replay
  import Metrics

  // ---------------------------------------------------------------- availability

  /** A reply of the controller itself that said its inventory was current, observed at most two minutes
      before it was looked at. */
  ghost predicate PromptReply(x: Happening, id: Id) {
    && x.Replied? && x.controller.id == id
    && x.reply.Reply? && x.reply.controllerId == id && x.reply.protocol == x.controller.protocol
    && x.reply.inventoryCurrent
    && 0 < x.reply.reading.observedAt <= x.projectedAt
    && x.projectedAt - x.reply.reading.observedAt <= 2 * 60 * 1000
  }

  lemma ExplainedBy(history: seq<Happening>, id: Id)
    requires AllWitnessed(history) && Replayed(history, id).available
    ensures exists x :: (x in history && PromptReply(x, id)
      && x.reply.reading == Replayed(history, id).reading && x.at == Replayed(history, id).pollAt)
  {
    hide Replayed, LastAdopted, LastPost, InventoryTime;
    AvailabilityIsExplained(history, id);
    var j :| 0 <= j < |history| && Explains(history[j], id, Replayed(history, id));
    assert Witnessed(history, j) && history[j] in history;
  }

  /** In memory and on disk, `available` is claimed only with a valid identity and with the reading of a prompt
      reply of the controller on record, stored at the time on record. */
  lemma AvailableIsEarned(cfg: Config, steps: seq<Step>, doc: Document, id: Id)
    requires var s := Run(cfg, steps); doc == s.node.mem || doc in s.node.disk.views
    requires id in doc && doc[id].available
    ensures doc[id].identityValid
    ensures exists x :: (x in Run(cfg, steps).history && PromptReply(x, id)
      && x.reply.reading == doc[id].diagnostic.reading && x.at == doc[id].pollAt)
  {
    RunKeepsInvariant(cfg, steps);
    RunIsTold(cfg, steps);
    hide Run, DocCurrent, Journaled, LocallyDistinct, AllWitnessed, Replayed, PromptReply, HistoryOk, TasksOk;
    var s := Run(cfg, steps);
    assert s.history[..|s.history|] == s.history;
    assert Past(s.history, doc);
    var k :| 0 <= k <= |s.history| && Pictures(s.history[..k], doc);
    assert FactsOf(Entry(doc, id)) == Replayed(s.history[..k], id);
    BeginningIsWitnessed(s.history, k);
    ExplainedBy(s.history[..k], id);
    assert forall x | x in s.history[..k] :: x in s.history;
  }

  /** And a reply decides: after a diagnosis memory holds its reading and its time, and claims availability
      exactly if the reply was prompt. */
  lemma RepliesDecide(s: Sys, c: Controller, reply: Reply, projectedAt: int, at: int, f0: Fate, f1: Fate)
    requires Enabled(s, Observe(c, reply, projectedAt, at, f0, f1))
    requires reply.Reply? && reply.controllerId == c.id && reply.protocol == c.protocol
    ensures var m := Apply(s, Observe(c, reply, projectedAt, at, f0, f1)).node.mem;
      && c.id in m && m[c.id].pollAt == at && m[c.id].diagnostic.reading == reply.reading
      && (m[c.id].available <==>
            && reply.inventoryCurrent && 0 < reply.reading.observedAt <= projectedAt
            && projectedAt - reply.reading.observedAt <= 2 * 60 * 1000)
      && forall id | id in s.node.mem && id != c.id :: id in m && m[id] == s.node.mem[id]
  {
    hide CommitTo, FindRegistered, NeedsMint, WantsPush, Pending;
  }

  /** Any other reply, or none, leaves the stored state alone; a notice is committed, and the observer ends. */
  lemma OtherRepliesDoNot(s: Sys, c: Controller, reply: Reply, projectedAt: int, at: int, f0: Fate, f1: Fate)
    requires Enabled(s, Observe(c, reply, projectedAt, at, f0, f1))
    requires reply.Reply? ==> reply.controllerId != c.id || reply.protocol != c.protocol
    ensures Apply(s, Observe(c, reply, projectedAt, at, f0, f1))
         == s.(node := Node(s.node.mem, CommitTo(s.node.disk, s.node.mem, CollectionGap(c.id, at), f0)),
               tasks := map id | id in s.tasks && id != c.id :: s.tasks[id])
  {
    hide CommitTo;
    assert s.tasks - {c.id} == map id | id in s.tasks && id != c.id :: s.tasks[id];
  }

  // ---------------------------------------------------------------- what a scrape shows

  /** The inventory whose time is in use: adopted, and since then neither replaced nor withdrawn. */
  ghost predicate InUse(history: seq<Happening>, j: int) {
    && 0 <= j < |history| && history[j].Adopted?
    && forall k | j < k < |history| :: !history[k].Adopted? && !history[k].Withdrawn? && !history[k].Reloaded?
  }

  lemma {:induction false} InventoryTimeIs(history: seq<Happening>) returns (j: nat)
    requires InventoryTime(history) != 0
    ensures InUse(history, j) && history[j].inventory.generatedAt == InventoryTime(history)
  {
    var last := |history| - 1;
    if history[last].Adopted? {
      j := last;
    } else {
      j := InventoryTimeIs(history[..last]);
      assert forall k | 0 <= k < last :: history[..last][k] == history[k];
    }
  }

  /** A scrape shows host, system, firmware, fault or sensor lines only of a configured controller whose
      identity flag is set; whose stored reading is that of a prompt reply on record and was observed at most
      staleSeconds before the scrape; and while an inventory of at most the configured age is in use. */
  lemma DetailsAreNeverStale(cfg: Config, steps: seq<Step>, i: nat, x: Metrics.Sample)
    requires var h := Run(cfg, steps).history;
      i < |h| && h[i].Scraped? && x in Shown(h[i]) && Metrics.IsDetail(x.name)
    ensures var (h, g) := (Run(cfg, steps).history, Run(cfg, steps).history[i]);
      && x.controller in Ids(g.config.controllers) && x.controller in g.doc
      && g.doc[x.controller].identityValid
      && (exists y :: y in h[..i] && PromptReply(y, x.controller)
            && y.reply.reading == g.doc[x.controller].diagnostic.reading)
      && (exists j :: (InUse(h[..i], j) && 0 < h[j].inventory.generatedAt <= g.at
            && g.at - h[j].inventory.generatedAt <= g.config.inventoryMaxAgeSeconds * 1000))
      && var seenAt := g.doc[x.controller].diagnostic.reading.observedAt;
      0 < seenAt <= g.at && g.at - seenAt <= g.config.staleSeconds * 1000
  {
    RunIsTold(cfg, steps);
    hide Run, PromptReply, Replayed, LastPost, InventoryTime, LastAdopted, Past, InUse;
    var h := Run(cfg, steps).history;
    var g := h[i];
    assert Witnessed(h, i);
    BeginningIsWitnessed(h, i);
    Metrics.DetailMeansFresh(g.config, g.config.controllers, g.doc, g.inventoryAt, g.at, x);
    assert FactsOf(Entry(g.doc, x.controller)) == Replayed(h[..i], x.controller);
    hide AllWitnessed, Witnessed;
    ExplainedBy(h[..i], x.controller);
    var j := InventoryTimeIs(h[..i]);
    InUseIsWithin(h, i, j);
  }

  lemma InUseIsWithin(h: seq<Happening>, i: nat, j: nat)
    requires i <= |h| && InUse(h[..i], j)
    ensures j < i && h[..i][j] == h[j]
  {
  }

  /** The detail lines of a scrape, entry by entry: a line is there exactly if it tells a host of a configured
      controller or an entry of the reading stored for it, while the controller is identified, available and
      fresh and the inventory in use is. */
  lemma DetailsAreTheReading(cfg: Config, steps: seq<Step>, i: nat, x: Metrics.Sample)
    requires var h := Run(cfg, steps).history; i < |h| && h[i].Scraped? && Metrics.IsDetail(x.name)
    ensures var (h, g) := (Run(cfg, steps).history, Run(cfg, steps).history[i]);
      x in Shown(g) <==> exists b :: b in g.config.controllers && IsLive(g, Replayed(h[..i], b.id), InventoryTime(h[..i]))
                           && Metrics.Describes(b, Replayed(h[..i], b.id).reading, x)
  {
    RunIsTold(cfg, steps);
    hide Run, Metrics.Describes, Metrics.Scrape, Metrics.IsDetail, Replayed, LastPost, InventoryTime, LastAdopted, Past;
    var h := Run(cfg, steps).history;
    var g := h[i];
    assert Witnessed(h, i);
    Metrics.DetailsShownIff(g.config, g.config.controllers, g.doc, g.inventoryAt, g.at, x);
    assert forall id :: FactsOf(Entry(g.doc, id)) == Replayed(h[..i], id);
    assert Metrics.IsDetail(x.name) && !Metrics.IsDetail(Metrics.InventoryFresh) by { NoDetail(); }
    LiveIsFresh(g, h[..i]);
  }

  lemma NoDetail()
    ensures !Metrics.IsDetail(Metrics.InventoryFresh)
  {
  }

  /** Identified, available, observed at most staleSeconds ago, under an inventory of at most the maximal age. */
  ghost predicate IsLive(g: Happening, f: Facts, inventoryAt: int)
    requires g.Scraped?
  {
    && f.identityValid && f.available
    && 0 < f.reading.observedAt <= g.at && g.at - f.reading.observedAt <= g.config.staleSeconds * 1000
    && InventoryIsFresh(g, inventoryAt)
  }

  ghost predicate InventoryIsFresh(g: Happening, inventoryAt: int)
    requires g.Scraped?
  {
    0 < inventoryAt <= g.at && g.at - inventoryAt <= g.config.inventoryMaxAgeSeconds * 1000
  }

  lemma LiveIsFresh(g: Happening, history: seq<Happening>)
    requires g.Scraped? && g.inventoryAt == InventoryTime(history)
    requires forall id :: FactsOf(Entry(g.doc, id)) == Replayed(history, id)
    ensures forall id :: Metrics.IsFresh(g.config, Entry(g.doc, id), g.inventoryAt, g.at)
                    <==> IsLive(g, Replayed(history, id), InventoryTime(history))
    ensures forall id :: Entry(g.doc, id).diagnostic.reading == Replayed(history, id).reading
  {
    hide Replayed, InventoryTime;
    forall id
      ensures Metrics.IsFresh(g.config, Entry(g.doc, id), g.inventoryAt, g.at)
         <==> IsLive(g, Replayed(history, id), InventoryTime(history))
      ensures Entry(g.doc, id).diagnostic.reading == Replayed(history, id).reading
    {
      assert FactsOf(Entry(g.doc, id)) == Replayed(history, id);
    }
  }

  function OneIf(b: bool): real { if b then 1.0 else 0.0 }

  /** What each gauge of a controller means, in terms of the history before the scrape. */
  ghost function GaugeValue(g: Happening, history: seq<Happening>, id: Id, name: Metrics.Name): real
    requires g.Scraped? && !Metrics.IsDetail(name) && !name.InventoryFresh? && !name.PushEventsTotal?
  {
    var f := Replayed(history, id);
    var live := IsLive(g, f, InventoryTime(history));
    match name
    case Available => OneIf(live)
    case IdentityValid => OneIf(f.identityValid && InventoryIsFresh(g, InventoryTime(history)))
    case LastObservationTimestampSeconds => f.reading.observedAt as real / 1000.0
    case EventPushSupported => OneIf(live && f.reading.pushSupported)
    case EventPushCapabilityKnown => OneIf(live && f.reading.pushKnown)
    case EventPushConfigured => OneIf(f.enrollment.Some? && f.enrollment.value.phase == Configured)
    case EventDeliveryObserved => OneIf(LastPost(history, id) > 0)
    case LastPushTimestampSeconds => LastPost(history, id) as real / 1000.0
    case LogCollectionAvailable => OneIf(live && f.reading.logsAvailable)
    case LogCapacityAvailable => OneIf(live && f.reading.logUsedPercent != None)
    case PollingRequired => 1.0
  }

  /** Every gauge line of a scrape is of a configured controller and shows what the history before the scrape
      makes it mean. */
  lemma GaugesTellTheHistory(cfg: Config, steps: seq<Step>, i: nat, x: Metrics.Sample)
    requires var h := Run(cfg, steps).history; i < |h| && h[i].Scraped? && x in Shown(h[i])
    requires !Metrics.IsDetail(x.name) && !x.name.InventoryFresh? && !x.name.PushEventsTotal?
    ensures var (h, g) := (Run(cfg, steps).history, Run(cfg, steps).history[i]);
      x.controller in Ids(g.config.controllers) && x.labels == [] && x.value == GaugeValue(g, h[..i], x.controller, x.name)
  {
    RunIsTold(cfg, steps);
    hide Run, Metrics.Scrape, Metrics.IsDetail, Metrics.Summary, Replayed, LastPost, InventoryTime, LastAdopted, Past, GaugeValue;
    var h := Run(cfg, steps).history;
    var g := h[i];
    assert Witnessed(h, i);
    Metrics.SummariesAreShown(g.config, g.config.controllers, g.doc, g.inventoryAt, g.at, x);
    var b :| b in g.config.controllers && x in Metrics.Summary(g.config, b, Entry(g.doc, b.id), g.inventoryAt, g.at);
    assert forall id :: FactsOf(Entry(g.doc, id)) == Replayed(h[..i], id);
    LiveIsFresh(g, h[..i]);
    SummaryTells(g, h[..i], b, x);
  }

  lemma SummaryTells(g: Happening, history: seq<Happening>, b: Controller, x: Metrics.Sample)
    requires g.Scraped? && g.inventoryAt == InventoryTime(history)
    requires FactsOf(Entry(g.doc, b.id)) == Replayed(history, b.id) && Entry(g.doc, b.id).pushAt == LastPost(history, b.id)
    requires Metrics.IsFresh(g.config, Entry(g.doc, b.id), g.inventoryAt, g.at)
        <==> IsLive(g, Replayed(history, b.id), InventoryTime(history))
    requires x in Metrics.Summary(g.config, b, Entry(g.doc, b.id), g.inventoryAt, g.at)
    requires !Metrics.IsDetail(x.name) && !x.name.InventoryFresh? && !x.name.PushEventsTotal?
    ensures x.controller == b.id && x.labels == [] && x.value == GaugeValue(g, history, b.id, x.name)
  {
    Metrics.SummaryValues(g.config, b, Entry(g.doc, b.id), g.inventoryAt, g.at, x);
    hide Replayed, LastPost, InventoryTime, Metrics.IsFresh, IsLive, Metrics.AsDouble, Metrics.Summary, Entry;
  }

  /** And every configured controller has every gauge. */
  lemma GaugesAreShown(cfg: Config, steps: seq<Step>, i: nat, b: Controller, name: Metrics.Name)
    requires var h := Run(cfg, steps).history; i < |h| && h[i].Scraped? && b in h[i].config.controllers
    requires !Metrics.IsDetail(name) && !name.InventoryFresh?
    ensures exists x :: x in Shown(Run(cfg, steps).history[i]) && x.name == name && x.controller == b.id
  {
    hide Run, Metrics.Scrape, Metrics.IsDetail, Metrics.Summary;
    var g := Run(cfg, steps).history[i];
    var x := InSummary(g, b, name);
    Metrics.SummariesAreShown(g.config, g.config.controllers, g.doc, g.inventoryAt, g.at, x);
  }

  lemma InSummary(g: Happening, b: Controller, name: Metrics.Name) returns (x: Metrics.Sample)
    requires g.Scraped? && !Metrics.IsDetail(name) && !name.InventoryFresh?
    ensures x in Metrics.Summary(g.config, b, Entry(g.doc, b.id), g.inventoryAt, g.at) && x.name == name && x.controller == b.id
  {
    hide Metrics.IsFresh, Metrics.AsDouble, Fresh;
    var xs := Metrics.Summary(g.config, b, Entry(g.doc, b.id), g.inventoryAt, g.at);
    var k := match name
      case Available => 0
      case IdentityValid => 1
      case LastObservationTimestampSeconds => 2
      case EventPushSupported => 3
      case EventPushCapabilityKnown => 4
      case EventPushConfigured => 5
      case EventDeliveryObserved => 6
      case LastPushTimestampSeconds => 7
      case PushEventsTotal => 8
      case LogCollectionAvailable => 9
      case PollingRequired => 10
      case LogCapacityAvailable => 11
      case _ => 0;
    x := xs[k];
  }

  /** A tick works from the inventory it got exactly if that is current and of at most the configured age. If it
      is not, while it is being fetched, and after a tick that failed, no post is let in and no detail shown. */
  lemma InventoriesDecide(s: Sys, step: Step, inv: Inventory, at: int, id: Id, body: Body, now: int, x: Metrics.Sample)
    requires Enabled(s, step) && (step == StartTick || step == UseInventory(inv, at) || step == EndTick(true))
    ensures var s2 := Apply(s, step);
      && s2.node == s.node && s2.config == s.config && s2.tasks == s.tasks
      && if step.UseInventory? && inv.knownCurrent && 0 < inv.generatedAt <= at
              && at - inv.generatedAt <= s.config.inventoryMaxAgeSeconds * 1000
         then s2.tick == Some(inv) && s2.inventoryAt == inv.generatedAt
         else
           && s2.tick.None? && !PostAllowed(s2.config, s2.node.mem, id, body, s2.inventoryAt, now)
           && (x in Metrics.Body(s2.config, s2.node.mem, s2.inventoryAt, now) ==> !Metrics.IsDetail(x.name))
  {
    hide Metrics.Scrape, Metrics.IsDetail;
    var s2 := Apply(s, step);
    NoDetail();
    if s2.inventoryAt == 0 && x in Metrics.Body(s2.config, s2.node.mem, 0, now) && Metrics.IsDetail(x.name) {
      Metrics.DetailMeansFresh(s2.config, s2.config.controllers, s2.node.mem, 0, now, x);
    }
  }

  /** The line on the inventory: every scrape has it once, and it tells whether the one in use is recent. */
  lemma InventoryIsShown(cfg: Config, steps: seq<Step>, i: nat, x: Metrics.Sample)
    requires var h := Run(cfg, steps).history; i < |h| && h[i].Scraped?
    ensures var (h, g) := (Run(cfg, steps).history, Run(cfg, steps).history[i]);
      (x in Shown(g) && x.name.InventoryFresh?)
        <==> x == Metrics.Sample(Metrics.InventoryFresh, "", [], OneIf(InventoryIsFresh(g, InventoryTime(h[..i]))))
  {
    RunIsTold(cfg, steps);
    hide Run, Metrics.Scrape, Metrics.Summary, Replayed, LastPost, InventoryTime, LastAdopted, Past;
    var g := Run(cfg, steps).history[i];
    assert Witnessed(Run(cfg, steps).history, i);
    NoDetail();
    Metrics.SummariesAreShown(g.config, g.config.controllers, g.doc, g.inventoryAt, g.at, x);
    if b :| b in g.config.controllers && x in Metrics.Summary(g.config, b, Entry(g.doc, b.id), g.inventoryAt, g.at) {
      Metrics.SummaryValues(g.config, b, Entry(g.doc, b.id), g.inventoryAt, g.at, x);
    }
  }

  // ---------------------------------------------------------------- enrollment

  /** A stored enrollment, in memory or on disk, is on record: minted, if it is an intent; otherwise answered
      at the stored time, and configured exactly by a confirming answer. */
  lemma EnrollmentsAreOnRecord(cfg: Config, steps: seq<Step>, doc: Document, id: Id)
    requires var s := Run(cfg, steps); doc == s.node.mem || doc in s.node.disk.views
    requires id in doc && doc[id].enrollment.Some?
    ensures EnrollmentOnRecord(Run(cfg, steps).history, id, doc[id].enrollment.value)
  {
    RunIsTold(cfg, steps);
    hide Run, AllWitnessed, Replayed, LastPost, InventoryTime, LastAdopted;
    var s := Run(cfg, steps);
    assert s.history[..|s.history|] == s.history;
    assert Past(s.history, doc);
    var k :| 0 <= k <= |s.history| && Pictures(s.history[..k], doc);
    assert FactsOf(Entry(doc, id)) == Replayed(s.history[..k], id);
    BeginningIsWitnessed(s.history, k);
    EnrollmentIsExplained(s.history[..k], id);
    assert forall x | x in s.history[..k] :: x in s.history;
  }

  /** A request is minted only right after a reply of its controller that offers event push, for a controller
      with an event token that the inventory allows to push; with the revision of the inventory adopted last;
      and only if no request is stored or the stored one was confirmed at least fifteen minutes before. */
  lemma MintsAreDue(cfg: Config, steps: seq<Step>, i: nat)
    requires i < |Run(cfg, steps).history| && Run(cfg, steps).history[i].Minted?
    ensures var h := Run(cfg, steps).history;
      var r := h[i].request;
      && i > 0 && IsReply(h[i - 1], r.id) && h[i - 1].reply.reading.pushSupported
      && h[i - 1].enrollPush && h[i - 1].row.pushEnabled && h[i - 1].controller.eventToken
      && LastAdopted(h[..i]).Some? && LastAdopted(h[..i]).value.revision == Some(r.revision)
      && var e := Replayed(h[..i], r.id).enrollment;
      e.Some? ==>
        && h[i - 1].at - e.value.checkedAt >= 15 * 60 * 1000
        && Answered(Request(r.id, e.value.requestId, e.value.revision), true, e.value.checkedAt) in h[..i]
  {
    RunIsTold(cfg, steps);
    hide Run, Replayed, LastPost, InventoryTime, LastAdopted;
    var h := Run(cfg, steps).history;
    assert Witnessed(h, i);
    BeginningIsWitnessed(h, i);
    hide AllWitnessed;
    if Replayed(h[..i], h[i].request.id).enrollment.Some? { EnrollmentIsExplained(h[..i], h[i].request.id); }
  }

  /** And a diagnosis goes on to a request exactly when its commits complete, event push is wanted all round, and
      the stored request is still unconfirmed or a new one is due and the inventory names a revision. */
  lemma EnrollsExactlyWhenDue(s: Sys, c: Controller, reply: Reply, projectedAt: int, at: int, f0: Fate, f1: Fate)
    requires Enabled(s, Observe(c, reply, projectedAt, at, f0, f1))
    requires reply.Reply? && reply.controllerId == c.id && reply.protocol == c.protocol
    ensures var s2 := Apply(s, Observe(c, reply, projectedAt, at, f0, f1));
      var row := FindRegistered(s.tick.value.controllers, c.id).value;
      var wanted := s.config.enrollPush && row.pushEnabled && reply.reading.pushSupported && c.eventToken;
      var e := s.node.mem[c.id].enrollment;
      var due := wanted && (e.None? || (e.value.phase == Configured && at - e.value.checkedAt >= 15 * 60 * 1000));
      var revision := s.tick.value.revision;
      && (c.id in s2.tasks && s2.tasks[c.id] == Enrolling <==>
            && wanted && (if due then revision.Some? else e.value.phase != Configured)
            && f0 == Committed && f1 == Committed)
      && s2.node.mem[c.id].enrollment
         == (if due && revision.Some? then Some(Enrollment(s.minted, revision.value, Intent, 0)) else e)
      && s2.minted == s.minted + if due && revision.Some? then 1 else 0
  {
    hide FindRegistered, CommitTo;
  }

  /** What it journals: nothing if a request is due that cannot be named, else an observation, and after its
      commit the intent of a request that is due or unconfirmed. */
  lemma DiagnosisIsJournaled(s: Sys, c: Controller, reply: Reply, projectedAt: int, at: int, f0: Fate, f1: Fate)
    requires Enabled(s, Observe(c, reply, projectedAt, at, f0, f1))
    requires reply.Reply? && reply.controllerId == c.id && reply.protocol == c.protocol
    ensures var s2 := Apply(s, Observe(c, reply, projectedAt, at, f0, f1));
      var row := FindRegistered(s.tick.value.controllers, c.id).value;
      var wanted := s.config.enrollPush && row.pushEnabled && reply.reading.pushSupported && c.eventToken;
      var e := s.node.mem[c.id].enrollment;
      var due := wanted && (e.None? || (e.value.phase == Configured && at - e.value.checkedAt >= 15 * 60 * 1000));
      var (m, d) := (s2.node.mem, s.node.disk);
      var d1 := CommitTo(d, m, Observation(c.id, at, m[c.id].diagnostic), f0);
      s2.node.disk
        == if due && s.tick.value.revision.None? then d
           else if wanted && f0 == Committed && (due || e.value.phase != Configured)
           then CommitTo(d1, m, EnrollmentIntent(c.id, at, m[c.id].enrollment), f1)
           else d1
  {
    hide FindRegistered, CommitTo;
  }

  /** An answer settles the request that was sent: configured exactly if it confirms, at the time of the answer. */
  lemma AnswersSettle(cfg: Config, steps: seq<Step>, id: Id, configured: bool, at: int, f: Fate)
    requires Enabled(Run(cfg, steps), Answer(id, configured, at, f))
    ensures var s := Run(cfg, steps);
      var r := s.tasks[id].request;
      var s2 := Apply(s, Answer(id, configured, at, f));
      var e := Enrollment(r.requestId, r.revision, if configured then Configured else Unknown, at);
      && r.id == id && id !in s2.tasks && id in s.node.mem
      && s2.node.mem == s.node.mem[id := s.node.mem[id].(enrollment := Some(e))]
      && s2.node.disk == CommitTo(s.node.disk, s2.node.mem, EnrollmentResult(id, at, e), f)
  {
    RunKeepsInvariant(cfg, steps);
    hide Run, NodeOk, HistoryOk;
    var s := Run(cfg, steps);
    assert TaskOk(s.tick, s.node, id, s.tasks[id]);
  }
}
