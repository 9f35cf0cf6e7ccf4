/** The event counters across restarts: when a power loss can bring back a smaller one. */
module Counters {
  import opened Sequences
  import opened BmcState
  import opened Durability
  import opened Regions
  import opened Machine
  import opened MachineInvariant
  import opened MachineSafety
  import Metrics

  /** No counter of `now` is greater than in `later`. */
  ghost predicate Ahead(now: Document, later: Document) {
    forall id :: Total(now, id) <= Total(later, id)
  }

  ghost predicate SameTotals(a: Document, b: Document) {
    forall id :: Total(a, id) == Total(b, id)
  }

  ghost predicate AllAhead(m: Document, views: seq<Document>) {
    forall v | v in views :: Ahead(m, v)
  }

  /** A way of reading a counter, such as rounding it to a double. */
  ghost predicate Monotone(read: nat -> nat) {
    forall m: nat, n: nat | m <= n :: read(m) <= read(n)
  }

  /** The counter of a controller reads less in v than in m. */
  ghost predicate Behind(read: nat -> nat, v: Document, m: Document, id: Id) {
    read(Total(v, id)) < read(Total(m, id))
  }

  /** Some version of state.json a power loss may bring back has a counter that reads less than in memory. */
  ghost predicate Exposed(read: nat -> nat, n: Node, id: Id) {
    exists v :: v in n.disk.views && Behind(read, v, n.mem, id)
  }

  function Newest(views: seq<Document>): Document
    requires |views| > 0
  {
    views[|views| - 1]
  }

  /** The newest version is never behind memory. */
  ghost predicate NewestAhead(n: Node) {
    |n.disk.views| > 0 && Ahead(n.mem, Newest(n.disk.views))
  }

  // ---------------------------------------------------------------- sections

  /** What a section does to the counters: none goes back, and either all versions are ahead afterwards
      or the old ones stay beside new ones that are ahead, and memory counts what it did. */
  ghost predicate Settles(n: Node, n2: Node) {
    && |n2.disk.views| > 0
    && Ahead(n.mem, n2.mem)
    && (|| AllAhead(n2.mem, n2.disk.views)
        || (&& n.disk.views <= n2.disk.views && SameTotals(n.mem, n2.mem)
            && AllAhead(n2.mem, n2.disk.views[|n.disk.views|..])))
  }

  lemma SettlesOn(n1: Node, n2: Node, n3: Node)
    requires Settles(n1, n2) && Settles(n2, n3)
    ensures Settles(n1, n3)
  {
    if !AllAhead(n2.mem, n2.disk.views) && !AllAhead(n3.mem, n3.disk.views) {
      var (a, b) := (|n1.disk.views|, |n2.disk.views|);
      forall v | v in n3.disk.views[a..] ensures Ahead(n3.mem, v) {
        var k :| a <= k < |n3.disk.views| && n3.disk.views[k] == v;
        if k < b {
          assert v == n2.disk.views[a..][k - a];
          assert Ahead(n2.mem, v);
          assert SameTotals(n2.mem, n3.mem);
        } else {
          assert v == n3.disk.views[b..][k - b];
        }
      }
    } else if AllAhead(n2.mem, n2.disk.views) && !AllAhead(n3.mem, n3.disk.views) {
      AheadStays(n2, n3);
    }
  }

  /** Once all versions are ahead they remain so. */
  lemma AheadStays(n: Node, n2: Node)
    requires Settles(n, n2) && AllAhead(n.mem, n.disk.views)
    ensures AllAhead(n2.mem, n2.disk.views)
  {
    if n.disk.views <= n2.disk.views {
      assert n2.disk.views == n.disk.views + n2.disk.views[|n.disk.views|..];
    }
  }

  lemma NewestStaysAhead(n: Node, n2: Node)
    requires Settles(n, n2) && NewestAhead(n)
    ensures NewestAhead(n2)
  {
    if !AllAhead(n2.mem, n2.disk.views) && |n2.disk.views| > |n.disk.views| {
      assert Newest(n2.disk.views) in n2.disk.views[|n.disk.views|..];
    }
  }

  lemma CommitSettles(n: Node, m: Document, r: Record, f: Fate)
    requires |n.disk.views| > 0 && Ahead(n.mem, m)
    ensures Settles(n, AfterCommit(n, m, r, f))
  {
    match f
    case Lost(_) => assert n.disk.views[|n.disk.views|..] == [];
    case Renamed => assert (n.disk.views + [m])[|n.disk.views|..] == [m];
    case Committed =>
  }

  lemma MemorySettles(n: Node, m: Document)
    requires |n.disk.views| > 0 && SameTotals(n.mem, m)
    ensures Settles(n, n.(mem := m))
  {
    assert n.disk.views[|n.disk.views|..] == [];
  }

  lemma MemoryCommitSettles(n: Node, m: Document, r: Record, f: Fate)
    requires |n.disk.views| > 0 && SameTotals(n.mem, m)
    ensures Settles(n, CommitMemory(n.(mem := m), r, f))
  {
    hide Settles;
    var n1 := n.(mem := m);
    MemorySettles(n, m);
    CommitSettles(n1, m, r, f);
    assert AfterCommit(n1, m, r, f) == CommitMemory(n1, r, f);
    SettlesOn(n, n1, CommitMemory(n1, r, f));
  }

  lemma AcceptKeySettles(n: Node, id: Id, at: int, k: Key, f: Fate)
    requires |n.disk.views| > 0 && id in n.mem
    ensures Settles(n, AcceptKey(n, id, at, k, f).0)
  {
    hide Settles;
    var c := n.mem[id];
    if k in c.seen {
      MemorySettles(n, n.mem);
    } else if c.eventsTotal == COUNTER_MAX {
      MemorySettles(n, n.mem[id := Slid(c, k)]);
    } else {
      CommitSettles(n, n.mem[id := Counted(c, k)], PushEvent(id, at, k), f);
    }
  }

  lemma {:induction false} AcceptAllSettles(n: Node, id: Id, at: int, keys: seq<Key>, fates: seq<Fate>)
    requires |n.disk.views| > 0 && id in n.mem && |fates| == |keys|
    ensures Settles(n, AcceptAll(n, id, at, keys, fates).0)
    decreases |keys|
  {
    hide AcceptKey;
    if keys == [] {
      MemorySettles(n, n.mem);
    } else {
      var last := |keys| - 1;
      AcceptAllSettles(n, id, at, keys[..last], fates[..last]);
      var (n1, o) := AcceptAll(n, id, at, keys[..last], fates[..last]);
      if o == Accepted {
        AcceptKeySettles(n1, id, at, keys[last], fates[last]);
        SettlesOn(n, n1, AcceptKey(n1, id, at, keys[last], fates[last]).0);
      }
    }
  }

  lemma ReceiptSettles(n: Node, id: Id, at: int, f: Fate)
    requires |n.disk.views| > 0 && id in n.mem
    ensures Settles(n, Receipt(n, id, at, f).0)
  {
    hide Settles;
    CommitSettles(n, n.mem[id := n.mem[id].(pushAt := at)], PushReceipt(id, at), f);
  }

  lemma PostSettles(cfg: Config, n: Node, id: Id, body: Body, inventoryAt: int, at: int, fates: seq<Fate>)
    requires |n.disk.views| > 0 && |fates| == MAX_BATCH + 1
    ensures Settles(n, Post(cfg, n, id, body, inventoryAt, at, fates).0)
  {
    hide AcceptAll;
    if !PostAllowed(cfg, n.mem, id, body, inventoryAt, at) {
      MemorySettles(n, n.mem);
    } else {
      var keys := ProjectEvents(body.events.value).value;
      var used := fates[..|keys| + 1][..|keys|];
      AcceptAllSettles(n, id, at, keys, used);
      var (n1, o) := AcceptAll(n, id, at, keys, used);
      if o == Accepted {
        ReceiptSettles(n1, id, at, fates[|keys|]);
        SettlesOn(n, n1, Receipt(n1, id, at, fates[|keys|]).0);
      }
    }
  }

  lemma SectionSettles(n: Node, m: Document, n2: Node, r0: Record, f0: Fate, r1: Record, f1: Fate)
    requires |n.disk.views| > 0 && SameTotals(n.mem, m)
    requires Section(n.(mem := m), n2, r0, f0, r1, f1)
    ensures Settles(n, n2)
  {
    hide Settles;
    var n1 := n.(mem := m);
    if n2 == n1 {
      MemorySettles(n, m);
    } else {
      MemoryCommitSettles(n, m, r0, f0);
      if n2 != CommitMemory(n1, r0, f0) {
        MemoryCommitSettles(CommitMemory(n1, r0, f0), m, r1, f1);
        SettlesOn(n, CommitMemory(n1, r0, f0), n2);
      }
    }
  }

  lemma DiagnosisSettles(s: Sys, c: Controller, b: Registered, p: Diagnostic, at: int, f0: Fate, f1: Fate)
    requires |s.node.disk.views| > 0 && c.id in s.node.mem && s.tick.Some?
    ensures Settles(s.node, Diagnosis(s, c, b, p, at, f0, f1).node)
  {
    var e := EntryAfter(s, c, b, p, at);
    DiagnoseIsASection(s, c, b, p, at, f0, f1);
    assert e.eventsTotal == s.node.mem[c.id].eventsTotal;
    SectionSettles(s.node, s.node.mem[c.id := e], Diagnosis(s, c, b, p, at, f0, f1).node,
                   Observation(c.id, at, p), f0, EnrollmentIntent(c.id, at, e.enrollment), f1);
  }

  predicate IsRestart(step: Step) {
    step.ProcessRestart? || step.PowerLoss?
  }

  lemma StepSettles(s: Sys, step: Step)
    requires |s.node.disk.views| > 0 && Enabled(s, step) && !IsRestart(step)
    ensures Settles(s.node, Apply(s, step).node)
  {
    hide Settles, Post, Diagnosis;
    var n := s.node;
    match step
    case Begin(c, at) => MemorySettles(n, MarkIdentity(n, c.id, InventoryMatches(c, s.tick.value, at, MaxAge(s.config))).mem);
    case CommitGap(id, at, f) => MemoryCommitSettles(n, n.mem, IdentityGap(id, at), f);
    case Observe(c, reply, projectedAt, at, f0, f1) =>
      if !Answers(reply, c) {
        MemoryCommitSettles(n, n.mem, CollectionGap(c.id, at), f0);
      } else {
        var b := FindRegistered(s.tick.value.controllers, c.id).value;
        DiagnosisSettles(Noted(s, Replied(c, b, s.config.enrollPush, reply, projectedAt, at)), c, b, Project(reply, projectedAt), at, f0, f1);
      }
    case Answer(id, configured, at, f) =>
      var e := n.mem[id].enrollment.value.(phase := if configured then Configured else Unknown, checkedAt := at);
      MemoryCommitSettles(n, n.mem[id := n.mem[id].(enrollment := Some(e))], EnrollmentResult(id, at, e), f);
    case Events(id, body, at, fates) => PostSettles(s.config, n, id, body, s.inventoryAt, at, fates);
    case _ => MemorySettles(n, n.mem);
  }

  // ---------------------------------------------------------------- runs

  /** The last process restart found a version of state.json in which the controller's counter reads less
      than in the newest one, and since then there was no power loss and no commit that completed and left a
      single version. */
  ghost predicate Loose(read: nat -> nat, cfg: Config, steps: seq<Step>, id: Id) {
    if steps == [] then false
    else
      var before := steps[..|steps| - 1];
      var (s, step) := (Run(cfg, before), steps[|steps| - 1]);
      if !Enabled(s, step) then Loose(read, cfg, before, id)
      else match step
        case ProcessRestart(_) =>
          exists v :: v in s.node.disk.views && Behind(read, v, Newest(s.node.disk.views), id)
        case PowerLoss(_, _) => false
        case _ => Loose(read, cfg, before, id) && s.node.disk.views <= Apply(s, step).node.disk.views
  }

  /** A version of state.json is behind memory exactly then, however counters are read: a commit that fails
      between the rename and the directory sync is not enough, nor is a process restart by itself. */
  lemma {:induction false} ExposedIff(read: nat -> nat, cfg: Config, steps: seq<Step>, id: Id)
    requires Monotone(read)
    ensures Exposed(read, Run(cfg, steps).node, id) <==> Loose(read, cfg, steps, id)
    ensures NewestAhead(Run(cfg, steps).node)
  {
    hide Apply, Enabled, Settles, Monotone, Behind;
    if steps == [] {
      BootIsNotExposed(read, cfg, id);
    } else {
      var before := steps[..|steps| - 1];
      var (s, step) := (Run(cfg, before), steps[|steps| - 1]);
      ExposedIff(read, cfg, before, id);
      if Enabled(s, step) && IsRestart(step) {
        RestartExposes(read, s, step, id);
      } else if Enabled(s, step) {
        StepSettles(s, step);
        NewestStaysAhead(s.node, Apply(s, step).node);
        StaysExposedIff(read, s.node, Apply(s, step).node, id);
      }
    }
  }

  lemma BootIsNotExposed(read: nat -> nat, cfg: Config, id: Id)
    ensures !Exposed(read, Boot(cfg).node, id) && NewestAhead(Boot(cfg).node)
  {
  }

  lemma RestartExposes(read: nat -> nat, s: Sys, step: Step, id: Id)
    requires Enabled(s, step) && IsRestart(step)
    ensures NewestAhead(Apply(s, step).node)
    ensures step.PowerLoss? ==> !Exposed(read, Apply(s, step).node, id)
    ensures |s.node.disk.views| > 0
    ensures step.ProcessRestart? ==>
      (Exposed(read, Apply(s, step).node, id) <==>
       exists v :: v in s.node.disk.views && Behind(read, v, Newest(s.node.disk.views), id))
  {
    hide IdOk, ControllerOk, ValidConfig;
    assert step.PowerLoss? ==> !Behind(read, s.node.disk.views[step.survivor], s.node.disk.views[step.survivor], id);
  }

  lemma AheadIsNotBehind(read: nat -> nat, m: Document, v: Document, id: Id)
    requires Monotone(read)
    ensures Ahead(m, v) ==> !Behind(read, v, m, id)
  {
  }

  lemma StaysExposedIff(read: nat -> nat, n: Node, n2: Node, id: Id)
    requires Monotone(read) && Settles(n, n2)
    ensures Exposed(read, n2, id) <==> Exposed(read, n, id) && n.disk.views <= n2.disk.views
  {
    if Exposed(read, n, id) && n.disk.views <= n2.disk.views {
      var v :| v in n.disk.views && Behind(read, v, n.mem, id);
      assert v in n2.disk.views && read(Total(n.mem, id)) <= read(Total(n2.mem, id));
      assert Behind(read, v, n2.mem, id);
    }
    if Exposed(read, n2, id) {
      var v :| v in n2.disk.views && Behind(read, v, n2.mem, id);
      AheadIsNotBehind(read, n2.mem, v, id);
      assert n2.disk.views == n.disk.views + n2.disk.views[|n.disk.views|..];
      assert v in n.disk.views && Behind(read, v, n.mem, id);
    }
  }

  lemma NewestIsAhead(cfg: Config, steps: seq<Step>)
    ensures NewestAhead(Run(cfg, steps).node)
  {
    ExposedIff(n => n, cfg, steps, "");
  }

  /** A counter in memory goes back exactly in a power loss whose survivor is behind memory. */
  lemma MemoryGoesBackIff(cfg: Config, steps: seq<Step>, step: Step)
    requires Enabled(Run(cfg, steps), step)
    ensures var s := Run(cfg, steps);
      !Ahead(s.node.mem, Apply(s, step).node.mem) <==>
      (step.PowerLoss? && !Ahead(s.node.mem, s.node.disk.views[step.survivor]))
  {
    hide Run;
    NewestIsAhead(cfg, steps);
    if !IsRestart(step) {
      StepSettles(Run(cfg, steps), step);
    }
  }

  // ---------------------------------------------------------------- scrapes

  /** No power loss strikes while an older version of state.json would show a smaller counter of the
      controller than memory. */
  ghost predicate SafePowerLosses(cfg: Config, steps: seq<Step>, id: Id) {
    forall k | 0 <= k < |steps| && steps[k].PowerLoss? && Enabled(Run(cfg, steps[..k]), steps[k]) ::
      !Loose(Metrics.AsDouble, cfg, steps[..k], id)
  }

  /** The controller's counter as a scrape of the document shows it. */
  ghost function Reading(doc: Document, id: Id): nat {
    Metrics.AsDouble(Total(doc, id))
  }

  /** The documents scraped so far are in order, and not ahead of memory. */
  ghost predicate ScrapesInOrder(history: seq<Happening>, m: Document, id: Id) {
    && (forall i | 0 <= i < |history| && history[i].Scraped? :: Reading(history[i].doc, id) <= Reading(m, id))
    && (forall i, j | 0 <= i < j < |history| && history[i].Scraped? && history[j].Scraped? ::
          Reading(history[i].doc, id) <= Reading(history[j].doc, id))
  }

  lemma RoundingReads()
    ensures Monotone(Metrics.AsDouble)
  {
    forall m: nat, n: nat | m <= n ensures Metrics.AsDouble(m) <= Metrics.AsDouble(n) {
      Metrics.RoundingIsMonotone(m, n);
    }
  }

  lemma {:induction false} ScrapesStayInOrder(cfg: Config, steps: seq<Step>, id: Id)
    requires SafePowerLosses(cfg, steps, id)
    ensures ScrapesInOrder(Run(cfg, steps).history, Run(cfg, steps).node.mem, id)
  {
    hide Apply, Enabled, Loose, Reading;
    if steps != [] {
      var before := steps[..|steps| - 1];
      var (s, step) := (Run(cfg, before), steps[|steps| - 1]);
      assert SafePowerLosses(cfg, before, id) by {
        forall k | 0 <= k < |before| && before[k].PowerLoss? && Enabled(Run(cfg, before[..k]), before[k])
          ensures !Loose(Metrics.AsDouble, cfg, before[..k], id)
        {
          assert before[..k] == steps[..k];
        }
      }
      ScrapesStayInOrder(cfg, before, id);
      if Enabled(s, step) {
        SafeStepReadsNoLess(cfg, before, step, id);
        OrderGrows(s, step, id);
      }
    }
  }

  lemma SafeStepReadsNoLess(cfg: Config, steps: seq<Step>, step: Step, id: Id)
    requires Enabled(Run(cfg, steps), step)
    requires step.PowerLoss? ==> !Loose(Metrics.AsDouble, cfg, steps, id)
    ensures var s := Run(cfg, steps); Reading(s.node.mem, id) <= Reading(Apply(s, step).node.mem, id)
  {
    hide Run, Loose, Metrics.AsDouble;
    var s := Run(cfg, steps);
    RoundingReads();
    if step.PowerLoss? {
      ExposedIff(Metrics.AsDouble, cfg, steps, id);
      SurvivorIsAView(s, step.survivor, step.next);
      assert !Behind(Metrics.AsDouble, s.node.disk.views[step.survivor], s.node.mem, id);
    } else {
      MemoryGoesBackIff(cfg, steps, step);
      Metrics.RoundingIsMonotone(Total(s.node.mem, id), Total(Apply(s, step).node.mem, id));
    }
  }

  lemma SurvivorIsAView(s: Sys, survivor: nat, next: Config)
    requires Enabled(s, PowerLoss(survivor, next))
    ensures survivor < |s.node.disk.views| && s.node.disk.views[survivor] in s.node.disk.views
    ensures Apply(s, PowerLoss(survivor, next)).node.mem == s.node.disk.views[survivor]
  {
  }

  lemma OrderGrows(s: Sys, step: Step, id: Id)
    requires Enabled(s, step) && ScrapesInOrder(s.history, s.node.mem, id)
    requires Reading(s.node.mem, id) <= Reading(Apply(s, step).node.mem, id)
    ensures ScrapesInOrder(Apply(s, step).history, Apply(s, step).node.mem, id)
  {
    hide Reading, Apply, Enabled;
    var s2 := Apply(s, step);
    HistoryGrows(s, step);
    forall i, j | 0 <= i < j < |s2.history| && s2.history[i].Scraped? && s2.history[j].Scraped?
      ensures Reading(s2.history[i].doc, id) <= Reading(s2.history[j].doc, id)
    {
      assert i < |s.history| ==> s2.history[i] == s.history[i];
      assert j < |s.history| ==> s2.history[j] == s.history[j];
    }
  }

  /** Steps add to the history, and a scrape only of what is in memory. */
  lemma HistoryGrows(s: Sys, step: Step)
    requires Enabled(s, step)
    ensures var h := Apply(s, step).history;
      s.history <= h && forall i | |s.history| <= i < |h| && h[i].Scraped? :: h[i].doc == s.node.mem
  {
    hide Diagnose, MarkIdentity, Post, Killed, PoweredOff, FinishEnrollment, InventoryMatches, IdOk, ControllerOk;
  }

  /** What a scrape says about a controller's counter. */
  ghost predicate ShowsCounter(x: Happening, line: Metrics.Sample, id: Id) {
    x.Scraped? && line in Shown(x) && line.name == Metrics.PushEventsTotal && line.controller == id
  }

  /** A scrape holds a counter line of a controller exactly when it is configured, and its value is the
      stored counter rounded. */
  lemma CounterLine(x: Happening, id: Id)
    requires x.Scraped?
    ensures (exists line :: ShowsCounter(x, line, id)) <==> id in Ids(x.config.controllers)
    ensures forall line | ShowsCounter(x, line, id) :: line.value == Reading(x.doc, id) as real
  {
    hide Metrics.AsDouble, Metrics.ControllerSamples;
    var cs := x.config.controllers;
    forall line | ShowsCounter(x, line, id)
      ensures line.value == Reading(x.doc, id) as real && id in Ids(cs)
    {
      Metrics.CounterShownIsStored(x.config, cs, x.doc, x.inventoryAt, x.at, line);
    }
    if id in Ids(cs) {
      var b :| b in cs && b.id == id;
      Metrics.FreshIsShown(x.config, cs, x.doc, x.inventoryAt, x.at, b);
      assert ShowsCounter(x, Metrics.Sample(Metrics.PushEventsTotal, id, [], Reading(x.doc, id) as real), id);
    }
  }

  /** The scraped push_events_total of a controller does not go back, whatever process restarts and failed
      commits occur, unless power is lost while an older version of state.json would show a smaller one. */
  lemma ScrapedCounterIsMonotone(cfg: Config, steps: seq<Step>, id: Id)
    requires SafePowerLosses(cfg, steps, id)
    ensures var h := Run(cfg, steps).history;
      forall i, j, x, y | 0 <= i < j < |h| && ShowsCounter(h[i], x, id) && ShowsCounter(h[j], y, id) :: x.value <= y.value
  {
    hide Run, SafePowerLosses, Reading, Shown, ShowsCounter;
    ScrapesStayInOrder(cfg, steps, id);
    var h := Run(cfg, steps).history;
    forall i, j, x, y | 0 <= i < j < |h| && ShowsCounter(h[i], x, id) && ShowsCounter(h[j], y, id)
      ensures x.value <= y.value
    {
      ShownInOrder(h, i, j, Run(cfg, steps).node.mem, id, x, y);
    }
  }

  lemma ShownInOrder(h: seq<Happening>, i: nat, j: nat, m: Document, id: Id, x: Metrics.Sample, y: Metrics.Sample)
    requires i < j < |h| && ShowsCounter(h[i], x, id) && ShowsCounter(h[j], y, id) && ScrapesInOrder(h, m, id)
    ensures x.value <= y.value
  {
    hide Reading, Shown;
    CounterLine(h[i], id);
    CounterLine(h[j], id);
  }

  /** Of the last two scrapes, with one happening in between, the second shows a smaller counter. */
  ghost predicate ShownFalls(h: seq<Happening>, id: Id) {
    && |h| >= 3
    && exists x, y :: ShowsCounter(h[|h| - 3], x, id) && ShowsCounter(h[|h| - 1], y, id) && y.value < x.value
  }

  function Interrupted(steps: seq<Step>, survivor: nat, next: Config): seq<Step> {
    steps + [Scrape(0)] + [PowerLoss(survivor, next)] + [Scrape(0)]
  }

  /** The exception is exact: after any run, a power loss between two scrapes can turn a controller's line
      back if and only if the run left an older version of state.json that would show less, and the
      controller is configured before and after. */
  lemma PowerLossTurnsBackIff(cfg: Config, steps: seq<Step>, next: Config, id: Id)
    requires ValidConfig(next)
    ensures (exists survivor: nat ::
              survivor < |Run(cfg, steps).node.disk.views|
              && ShownFalls(Run(cfg, Interrupted(steps, survivor, next)).history, id))
       <==> Loose(Metrics.AsDouble, cfg, steps, id)
            && id in Ids(Run(cfg, steps).config.controllers) && id in Ids(next.controllers)
  {
    hide Run, Loose, ShownFalls, Behind, Ids, Interrupted;
    RoundingReads();
    ExposedIff(Metrics.AsDouble, cfg, steps, id);
    var s := Run(cfg, steps);
    var views := s.node.disk.views;
    forall survivor: nat | survivor < |views|
      ensures ShownFalls(Run(cfg, Interrupted(steps, survivor, next)).history, id)
         <==> Behind(Metrics.AsDouble, views[survivor], s.node.mem, id)
              && id in Ids(s.config.controllers) && id in Ids(next.controllers)
    {
      PowerLossBetweenScrapes(cfg, steps, survivor, next, id);
    }
    if Loose(Metrics.AsDouble, cfg, steps, id) && id in Ids(s.config.controllers) && id in Ids(next.controllers) {
      var v :| v in views && Behind(Metrics.AsDouble, v, s.node.mem, id);
      var survivor: nat :| survivor < |views| && views[survivor] == v;
      assert ShownFalls(Run(cfg, Interrupted(steps, survivor, next)).history, id);
    }
  }

  lemma PowerLossBetweenScrapes(cfg: Config, steps: seq<Step>, survivor: nat, next: Config, id: Id)
    requires ValidConfig(next) && survivor < |Run(cfg, steps).node.disk.views|
    ensures ShownFalls(Run(cfg, Interrupted(steps, survivor, next)).history, id)
       <==> Behind(Metrics.AsDouble, Run(cfg, steps).node.disk.views[survivor], Run(cfg, steps).node.mem, id)
            && id in Ids(Run(cfg, steps).config.controllers) && id in Ids(next.controllers)
  {
    hide Run, Metrics.AsDouble, Metrics.Body, Ids, ValidConfig, ShowsCounter;
    var h := ScrapesAround(cfg, steps, survivor, next);
    CounterLine(h[|h| - 3], id);
    CounterLine(h[|h| - 1], id);
  }

  lemma ScrapesAround(cfg: Config, steps: seq<Step>, survivor: nat, next: Config) returns (h: seq<Happening>)
    requires ValidConfig(next) && survivor < |Run(cfg, steps).node.disk.views|
    ensures h == Run(cfg, Interrupted(steps, survivor, next)).history && |h| >= 3
    ensures h[|h| - 3].Scraped? && h[|h| - 1].Scraped?
    ensures var s := Run(cfg, steps);
      && h[|h| - 3].doc == s.node.mem && h[|h| - 3].config == s.config
      && h[|h| - 1].doc == s.node.disk.views[survivor] && h[|h| - 1].config == next
  {
    hide Run, ValidConfig;
    RunOn(cfg, steps, Scrape(0));
    RunOn(cfg, steps + [Scrape(0)], PowerLoss(survivor, next));
    RunOn(cfg, steps + [Scrape(0)] + [PowerLoss(survivor, next)], Scrape(0));
    h := Run(cfg, Interrupted(steps, survivor, next)).history;
  }

  lemma RunOn(cfg: Config, steps: seq<Step>, step: Step)
    requires Enabled(Run(cfg, steps), step)
    ensures Run(cfg, steps + [step]) == Apply(Run(cfg, steps), step)
  {
    assert (steps + [step])[..|steps|] == steps;
  }
}
