/** Every step keeps the invariant; what follows for whole runs of the observer. */
module MachineSafety {
  import opened Sequences
  import opened BmcState
  import opened Durability
  import opened Regions
  import opened Machine
  import opened MachineInvariant

  // ---------------------------------------------------------------- steps, one by one

  /** A happening that is neither a mint nor a send nor a scrape may be recorded at any time. */
  lemma RecordingKeeps(s: Sys, x: Happening)
    requires Inv(s) && !x.Minted? && !x.Sent? && !x.Scraped?
    ensures Inv(Noted(s, x))
  {
    hide NodeOk, HistoryOk;
    NodeSurvives(s.known, s.history, s.node, x);
    OrderIgnores(s.history, s.minted, x);
  }

  /** Steps that concern the inventory alone. */
  lemma TickKeeps(s: Sys, step: Step)
    requires Inv(s) && Enabled(s, step) && (step.StartTick? || step.UseInventory? || step.EndTick?)
    ensures Inv(Apply(s, step))
  {
    hide NodeOk, HistoryOk;
    RecordingKeeps(s, Withdrawn);
    if step.UseInventory? { RecordingKeeps(s, Adopted(step.inventory, step.at, MaxAge(s.config))); }
  }

  lemma BeginKeeps(s: Sys, c: Controller, at: int)
    requires Inv(s) && Enabled(s, Begin(c, at))
    ensures Inv(Apply(s, Begin(c, at)))
  {
    hide HistoryOk, DocCurrent, Journaled, Pinned;
    var valid := InventoryMatches(c, s.tick.value, at, MaxAge(s.config));
    var e := Entry(s.node.mem, c.id).(identityValid := valid, available := false);
    var n := MarkIdentity(s.node, c.id, valid);
    var x := Checked(c, s.tick.value, at, MaxAge(s.config), valid);
    assert StateOk(e) by { assert c.id in s.node.mem ==> StateOk(s.node.mem[c.id]); }
    EntryInMemory(s.known, s.history, s.node, c.id, e);
    assert n == s.node.(mem := s.node.mem[c.id := e]);
    NodeSurvives(s.known, s.history, n, x);
    OrderIgnores(s.history, s.minted, x);
    OtherTasksKeep(s, n, {c.id});
  }

  lemma CommitGapKeeps(s: Sys, id: Id, at: int, f: Fate)
    requires Inv(s) && Enabled(s, CommitGap(id, at, f))
    ensures Inv(Apply(s, CommitGap(id, at, f)))
  {
    hide NodeOk, HistoryOk;
    CommitMemoryKeeps(s.known, s.history, s.node, IdentityGap(id, at), f);
    OtherTasksKeep(s, CommitMemory(s.node, IdentityGap(id, at), f), {});
  }

  lemma EventsKeeps(s: Sys, id: Id, body: Body, at: int, fates: seq<Fate>)
    requires Inv(s) && |fates| == MAX_BATCH + 1
    ensures Inv(Apply(s, Events(id, body, at, fates)))
  {
    hide NodeOk, HistoryOk, Post;
    var (n, outcome) := Post(s.config, s.node, id, body, s.inventoryAt, at, fates);
    PostKeeps(s.config, s.known, s.history, s.node, id, body, s.inventoryAt, at, fates);
    OtherTasksKeep(s, n, {});
    RecordingKeeps(s.(node := n), Posted(id, body, at, outcome));
  }

  lemma AnswerKeeps(s: Sys, id: Id, configured: bool, at: int, f: Fate)
    requires Inv(s) && Enabled(s, Answer(id, configured, at, f))
    ensures Inv(Apply(s, Answer(id, configured, at, f)))
  {
    hide NodeOk, HistoryOk, Carries, TaskOk;
    var r := s.tasks[id].request;
    var x := Answered(r, configured, at);
    var n := s.node;
    var e := n.mem[id].enrollment.value.(phase := if configured then Configured else Unknown, checkedAt := at);
    var n1 := n.(mem := n.mem[id := n.mem[id].(enrollment := Some(e))]);
    AnsweredNodeOk(s, id, configured, at, e);
    var n2 := CommitMemory(n1, EnrollmentResult(id, at, e), f);
    CommitMemoryKeeps(s.known, s.history + [x], n1, EnrollmentResult(id, at, e), f);
    OneEntryCarries(n, id, n1.mem[id]);
    CarriesOn(n, n1, n2, {id});
    OrderIgnores(s.history, s.minted, x);
    OtherTasksKeep(s, n2, {id});
  }

  lemma OneEntryCarries(n: Node, id: Id, c: ControllerState)
    ensures Carries(n, n.(mem := n.mem[id := c]), {id})
  {
  }

  lemma AnsweredNodeOk(s: Sys, id: Id, configured: bool, at: int, e: Enrollment)
    requires Inv(s) && id in s.tasks && s.tasks[id].Awaiting? && id in s.node.mem && s.node.mem[id].enrollment.Some?
    requires e.requestId == s.node.mem[id].enrollment.value.requestId
          && e.revision == s.node.mem[id].enrollment.value.revision && (!configured ==> e.phase == Unknown)
    ensures var x := Answered(s.tasks[id].request, configured, at);
      NodeOk(s.known, s.history + [x], s.node.(mem := s.node.mem[id := s.node.mem[id].(enrollment := Some(e))]))
  {
    hide HistoryOk, DocCurrent, LocallyDistinct;
    var n := s.node;
    var c := n.mem[id].(enrollment := Some(e));
    assert TaskOk(s.tick, n, id, s.tasks[id]);
    AnsweredDocCurrent(s.history, n.mem, s.tasks[id].request, c, configured, at);
    NodeSurvives(s.known, s.history, n, Answered(s.tasks[id].request, configured, at));
    assert DocOk(s.known, n.disk.written, n.mem[id := c]);
  }

  lemma ReadIntentKeeps(s: Sys, id: Id)
    requires Inv(s) && Enabled(s, ReadIntent(id))
    ensures Inv(Apply(s, ReadIntent(id)))
  {
    hide NodeOk, HistoryOk;
    assert TaskOk(s.tick, s.node, id, s.tasks[id]);
  }

  lemma SendKeeps(s: Sys, id: Id)
    requires Inv(s) && Enabled(s, Send(id))
    ensures Inv(Apply(s, Send(id)))
  {
    hide NodeOk, HistoryOk, Pinned;
    var r := s.tasks[id].request;
    assert TaskOk(s.tick, s.node, id, s.tasks[id]);
    NodeSurvives(s.known, s.history, s.node, Sent(r));
    PinnedSendKeepsOrder(s, r);
    var s2 := Apply(s, Send(id));
    forall x | x in s2.tasks ensures TaskOk(s2.tick, s2.node, x, s2.tasks[x]) {
      assert x != id ==> TaskOk(s.tick, s.node, x, s.tasks[x]);
    }
  }

  lemma PinnedSendKeepsOrder(s: Sys, r: Request)
    requires Inv(s) && Pinned(s.node, r)
    ensures HistoryOk(s.history + [Sent(r)], s.minted)
  {
    SendKeepsOrder(s.history, s.minted, s.node.mem, r);
  }

  lemma ScrapeKeeps(s: Sys, at: int)
    requires Inv(s)
    ensures Inv(Apply(s, Scrape(at)))
  {
    hide HistoryOk, DocCurrent, StateOk, TaskOk;
    var x := Scraped(s.config, s.node.mem, s.inventoryAt, at);
    NodeSurvives(s.known, s.history, s.node, x);
    OrderIgnores(s.history, s.minted, x);
  }

  /** Whichever version of state.json is loaded, and from whichever disk it is then the start. */
  lemma ReloadKeeps(s: Sys, n: Node, next: Config)
    requires Inv(s) && n.mem in s.node.disk.views && n.disk.written == s.node.disk.written
    requires n.disk.views == s.node.disk.views || n.disk.views == [n.mem]
    ensures Inv(Reload(s, n, next))
  {
    hide HistoryOk, DocCurrent, StateOk, Journaled;
    NodeSurvives(s.known, s.history, n, Reloaded(n.mem));
    OrderIgnores(s.history, s.minted, Reloaded(n.mem));
  }

  // ---------------------------------------------------------------- a diagnostics reply

  /** The diagnosed entry, when nothing is minted. */
  lemma UpdatedEntryOk(s: Sys, c: Controller, p: Diagnostic, at: int)
    requires Inv(s) && c.id in s.tasks && s.tasks[c.id] == Diagnosing
    ensures c.id in s.node.mem && c.id in s.known
    ensures StateOk(s.node.mem[c.id].(available := p.current, pollAt := at, diagnostic := p))
  {
  }

  /** The entry a diagnostics reply leaves in memory, and the two records that may follow it. */
  ghost function EntryAfter(s: Sys, c: Controller, b: Registered, p: Diagnostic, at: int): ControllerState
    requires c.id in s.node.mem && s.tick.Some?
  {
    var d := Diagnosed(s.config, s.node.mem[c.id], c, b, s.tick.value.revision, p, at, s.minted);
    if d.Some? then d.value else s.node.mem[c.id].(available := p.current, pollAt := at, diagnostic := p)
  }

  ghost predicate Section(n1: Node, n2: Node, r0: Record, f0: Fate, r1: Record, f1: Fate) {
    n2 == n1 || n2 == CommitMemory(n1, r0, f0) || n2 == CommitMemory(CommitMemory(n1, r0, f0), r1, f1)
  }

  lemma DiagnoseIsASection(s: Sys, c: Controller, b: Registered, p: Diagnostic, at: int, f0: Fate, f1: Fate)
    requires c.id in s.node.mem && s.tick.Some?
    ensures var e := EntryAfter(s, c, b, p, at);
      Section(s.node.(mem := s.node.mem[c.id := e]),
              Diagnose(s.config, s.node, c, b, s.tick.value.revision, p, at, s.minted, f0, f1).0,
              Observation(c.id, at, p), f0, EnrollmentIntent(c.id, at, e.enrollment), f1)
  {
  }

  /** Replacing one entry and committing at most twice. */
  lemma SectionKeeps(ids: set<Id>, history: seq<Happening>, n: Node, id: Id, e: ControllerState, n2: Node,
                     r0: Record, f0: Fate, r1: Record, f1: Fate)
    requires NodeOk(ids, history, n.(mem := n.mem[id := e]))
    requires Section(n.(mem := n.mem[id := e]), n2, r0, f0, r1, f1)
    ensures NodeOk(ids, history, n2) && Carries(n, n2, {id}) && n2.mem == n.mem[id := e]
  {
    hide NodeOk, Carries;
    var n1 := n.(mem := n.mem[id := e]);
    OneEntryCarries(n, id, e);
    if n2 != n1 {
      var n0 := CommitMemory(n1, r0, f0);
      CommitMemoryKeeps(ids, history, n1, r0, f0);
      CarriesOn(n, n1, n0, {id});
      if n2 != n0 {
        CommitMemoryKeeps(ids, history, n0, r1, f1);
        CarriesOn(n, n0, n2, {id});
      }
    }
  }

  lemma UpdateKeeps(s: Sys, c: Controller, b: Registered, p: Diagnostic, at: int, n: Node, f0: Fate, f1: Fate)
    requires Inv(s) && c.id in s.tasks && s.tasks[c.id] == Diagnosing
    requires c.id in s.node.mem && s.tick.Some?
    requires n == Diagnose(s.config, s.node, c, b, s.tick.value.revision, p, at, s.minted, f0, f1).0
    requires EntryAfter(s, c, b, p, at).enrollment == s.node.mem[c.id].enrollment
    ensures NodeOk(s.known, s.history, n) && Carries(s.node, n, {c.id})
    ensures n.mem == s.node.mem[c.id := EntryAfter(s, c, b, p, at)]
  {
    hide NodeOk, HistoryOk, Carries;
    var e := EntryAfter(s, c, b, p, at);
    UpdatedEntryOk(s, c, p, at);
    EntryInMemory(s.known, s.history, s.node, c.id, e);
    DiagnoseIsASection(s, c, b, p, at, f0, f1);
    SectionKeeps(s.known, s.history, s.node, c.id, e, n,
                 Observation(c.id, at, p), f0, EnrollmentIntent(c.id, at, e.enrollment), f1);
  }

  lemma MintingKeeps(s: Sys, c: Controller, b: Registered, p: Diagnostic, at: int, n: Node, r: Request, f0: Fate, f1: Fate)
    requires Inv(s) && c.id in s.tasks && s.tasks[c.id] == Diagnosing
    requires c.id in s.node.mem && s.tick.Some?
    requires n == Diagnose(s.config, s.node, c, b, s.tick.value.revision, p, at, s.minted, f0, f1).0
    requires EntryAfter(s, c, b, p, at).enrollment == Some(Enrollment(s.minted, r.revision, Intent, 0))
    requires r.id == c.id && r.requestId == s.minted && !Pending(s.node.mem[c.id].enrollment)
    ensures NodeOk(s.known, s.history + [Minted(r)], n) && Carries(s.node, n, {c.id})
    ensures n.mem == s.node.mem[c.id := EntryAfter(s, c, b, p, at)]
  {
    hide NodeOk, Carries;
    var e := EntryAfter(s, c, b, p, at);
    UpdatedEntryOk(s, c, p, at);
    MintKeeps(s.known, s, s.node, c.id, e, r);
    DiagnoseIsASection(s, c, b, p, at, f0, f1);
    SectionKeeps(s.known, s.history + [Minted(r)], s.node, c.id, e, n,
                 Observation(c.id, at, p), f0, EnrollmentIntent(c.id, at, e.enrollment), f1);
  }

  /** Enrollment goes on only from a section whose commits succeeded: the intent is in every document. */
  lemma EnrollIsPinned(cfg: Config, n: Node, c: Controller, b: Registered, revision: Option<string>, p: Diagnostic,
                       at: int, requestId: nat, f0: Fate, f1: Fate)
    requires c.id in n.mem
    requires Diagnose(cfg, n, c, b, revision, p, at, requestId, f0, f1).1 == Enroll
    ensures var n2 := Diagnose(cfg, n, c, b, revision, p, at, requestId, f0, f1).0;
      c.id in n2.mem && n2.mem[c.id].enrollment.Some? && Pinned(n2, RequestOf(n2.mem, c.id))
  {
  }

  lemma TasksAfterDiagnosis(s: Sys, c: Controller, b: Registered, p: Diagnostic, at: int, f0: Fate, f1: Fate)
    requires TasksOk(s) && c.id in s.node.mem && s.tick.Some?
    requires Carries(s.node, Diagnosis(s, c, b, p, at, f0, f1).node, {c.id})
    ensures TasksOk(Diagnosis(s, c, b, p, at, f0, f1))
  {
    OtherTasksKeep(s, Diagnosis(s, c, b, p, at, f0, f1).node, {c.id});
    if Diagnose(s.config, s.node, c, b, s.tick.value.revision, p, at, s.minted, f0, f1).1 == Enroll {
      EnrollIsPinned(s.config, s.node, c, b, s.tick.value.revision, p, at, s.minted, f0, f1);
    }
  }

  lemma ObserveKeeps(s: Sys, c: Controller, reply: Reply, projectedAt: int, at: int, f0: Fate, f1: Fate)
    requires Inv(s) && Enabled(s, Observe(c, reply, projectedAt, at, f0, f1))
    ensures Inv(Apply(s, Observe(c, reply, projectedAt, at, f0, f1)))
  {
    hide NodeOk, HistoryOk;
    if !Answers(reply, c) {
      CommitMemoryKeeps(s.known, s.history, s.node, CollectionGap(c.id, at), f0);
      OtherTasksKeep(s, CommitMemory(s.node, CollectionGap(c.id, at), f0), {});
    } else {
      var b := FindRegistered(s.tick.value.controllers, c.id).value;
      var x := Replied(c, b, s.config.enrollPush, reply, projectedAt, at);
      RecordingKeeps(s, x);
      DiagnosisKeeps(Noted(s, x), c, b, Project(reply, projectedAt), at, f0, f1);
    }
  }

  predicate Mints(s: Sys, c: Controller, b: Registered, p: Diagnostic, at: int)
    requires c.id in s.node.mem && s.tick.Some?
  {
    WantsPush(s.config, c, b, p) && NeedsMint(s.node.mem[c.id].enrollment, at) && s.tick.value.revision.Some?
  }

  lemma MintedHistoryOk(s: Sys, r: Request)
    requires Inv(s) && r.requestId == s.minted && r.id in s.node.mem && !Pending(s.node.mem[r.id].enrollment)
    ensures HistoryOk(s.history + [Minted(r)], s.minted + 1)
  {
    hide HistoryOk;
    MintKeepsOrder(s.history, s.minted, s.node.mem, r);
  }

  lemma DiagnosisKeeps(s: Sys, c: Controller, b: Registered, p: Diagnostic, at: int, f0: Fate, f1: Fate)
    requires Inv(s) && c.id in s.tasks && s.tasks[c.id] == Diagnosing
    requires c.id in s.node.mem && s.tick.Some?
    ensures Inv(Diagnosis(s, c, b, p, at, f0, f1))
  {
    hide NodeOk, DocCurrent, HistoryOk, Carries, TaskOk;
    var s2 := Diagnosis(s, c, b, p, at, f0, f1);
    if Mints(s, c, b, p, at) {
      var r := Request(c.id, s.minted, s.tick.value.revision.value);
      MintingKeeps(s, c, b, p, at, s2.node, r, f0, f1);
      MintIsRecorded(s, c, b, p, at, s2.node, r);
      MintedHistoryOk(s, r);
    } else {
      UpdateKeeps(s, c, b, p, at, s2.node, f0, f1);
      assert s.history + [] == s.history;
    }
    TasksAfterDiagnosis(s, c, b, p, at, f0, f1);
  }

  lemma MintIsRecorded(s: Sys, c: Controller, b: Registered, p: Diagnostic, at: int, n: Node, r: Request)
    requires c.id in s.node.mem && s.tick.Some? && Mints(s, c, b, p, at)
    requires NodeOk(s.known, s.history, s.node) && HistoryOk(s.history, s.minted)
    requires r == Request(c.id, s.minted, s.tick.value.revision.value)
    requires n.mem == s.node.mem[c.id := EntryAfter(s, c, b, p, at)]
    ensures Mint(s, c.id, n) == [Minted(r)]
  {
    if s.node.mem[c.id].enrollment.Some? {
      OlderThanMinted(s.history, s.minted, s.node.mem, c.id);
    }
  }

  lemma StepKeeps(s: Sys, step: Step)
    requires Inv(s) && Enabled(s, step)
    ensures Inv(Apply(s, step))
  {
    hide NodeOk, HistoryOk;
    match step
    case StartTick => TickKeeps(s, step);
    case UseInventory(_, _) => TickKeeps(s, step);
    case EndTick(_) => TickKeeps(s, step);
    case Begin(c, at) => BeginKeeps(s, c, at);
    case CommitGap(id, at, f) => CommitGapKeeps(s, id, at, f);
    case Observe(c, reply, projectedAt, at, f0, f1) => ObserveKeeps(s, c, reply, projectedAt, at, f0, f1);
    case ReadIntent(id) => ReadIntentKeeps(s, id);
    case Send(id) => SendKeeps(s, id);
    case Answer(id, configured, at, f) => AnswerKeeps(s, id, configured, at, f);
    case Events(id, body, at, fates) => EventsKeeps(s, id, body, at, fates);
    case Scrape(at) => ScrapeKeeps(s, at);
    case ProcessRestart(next) => ReloadKeeps(s, Killed(s.node), next);
    case PowerLoss(survivor, next) => ReloadKeeps(s, PoweredOff(s.node, survivor), next);
  }

  lemma {:induction false} RunKeepsInvariant(cfg: Config, steps: seq<Step>)
    ensures Inv(Run(cfg, steps))
  {
    hide Apply, Enabled;
    if steps != [] {
      var s := Run(cfg, steps[..|steps| - 1]);
      RunKeepsInvariant(cfg, steps[..|steps| - 1]);
      if Enabled(s, steps[|steps| - 1]) {
        StepKeeps(s, steps[|steps| - 1]);
      }
    }
  }
}
