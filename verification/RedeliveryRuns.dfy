/** Redelivery of a batch while the observer goes on working, fails and restarts. */
module RedeliveryRuns {
  import opened Sequences
  import opened BmcState
  import opened Durability
  import opened Regions
  import opened Machine
  import opened MachineSafety
  import opened Redelivery
  import MachineInvariant

  // ---------------------------------------------------------------- sections

  ghost predicate SameWindow(n: Node, id: Id, doc: Document) {
    id in n.mem && id in doc && WindowOf(doc[id]) == WindowOf(n.mem[id])
  }

  /** Memory keeps the controller's window, and so does every version of state.json that is new. */
  ghost predicate Steady(n: Node, n2: Node, id: Id) {
    && SameWindow(n, id, n2.mem)
    && |n2.disk.views| > 0
    && forall v | v in n2.disk.views :: v in n.disk.views || SameWindow(n, id, v)
  }

  lemma SteadyOn(n1: Node, n2: Node, n3: Node, id: Id)
    requires Steady(n1, n2, id) && Steady(n2, n3, id)
    ensures Steady(n1, n3, id)
  {
  }

  lemma CommitIsSteady(n: Node, id: Id, m: Document, r: Record, f: Fate)
    requires |n.disk.views| > 0 && SameWindow(n, id, m)
    ensures Steady(n, MachineInvariant.AfterCommit(n, m, r, f), id)
  {
  }

  lemma MemoryIsSteady(n: Node, id: Id, m: Document)
    requires |n.disk.views| > 0 && SameWindow(n, id, m)
    ensures Steady(n, n.(mem := m), id)
  {
  }

  lemma MemoryCommitIsSteady(n: Node, id: Id, m: Document, r: Record, f: Fate)
    requires |n.disk.views| > 0 && SameWindow(n, id, m)
    ensures Steady(n, CommitMemory(n.(mem := m), r, f), id)
  {
  }

  lemma OtherKeyIsSteady(n: Node, id: Id, other: Id, at: int, k: Key, f: Fate)
    requires |n.disk.views| > 0 && id in n.mem && other in n.mem && id != other
    ensures Steady(n, AcceptKey(n, other, at, k, f).0, id)
  {
    hide Steady;
    var c := n.mem[other];
    if k in c.seen {
      MemoryIsSteady(n, id, n.mem);
    } else if c.eventsTotal == COUNTER_MAX {
      MemoryIsSteady(n, id, n.mem[other := Slid(c, k)]);
    } else {
      CommitIsSteady(n, id, n.mem[other := Counted(c, k)], PushEvent(other, at, k), f);
    }
  }

  lemma {:induction false} OtherKeysAreSteady(n: Node, id: Id, other: Id, at: int, keys: seq<Key>, fates: seq<Fate>)
    requires |n.disk.views| > 0 && id in n.mem && other in n.mem && id != other && |fates| == |keys|
    ensures Steady(n, AcceptAll(n, other, at, keys, fates).0, id)
    decreases |keys|
  {
    hide AcceptKey;
    if keys == [] {
      MemoryIsSteady(n, id, n.mem);
    } else {
      var last := |keys| - 1;
      OtherKeysAreSteady(n, id, other, at, keys[..last], fates[..last]);
      var (n1, o) := AcceptAll(n, other, at, keys[..last], fates[..last]);
      if o == Accepted {
        OtherKeyIsSteady(n1, id, other, at, keys[last], fates[last]);
        SteadyOn(n, n1, AcceptKey(n1, other, at, keys[last], fates[last]).0, id);
      }
    }
  }

  lemma OtherReceiptIsSteady(n: Node, id: Id, other: Id, at: int, f: Fate)
    requires |n.disk.views| > 0 && id in n.mem && other in n.mem && id != other
    ensures Steady(n, Receipt(n, other, at, f).0, id)
  {
    hide Steady;
    CommitIsSteady(n, id, n.mem[other := n.mem[other].(pushAt := at)], PushReceipt(other, at), f);
  }

  lemma OtherPostIsSteady(cfg: Config, n: Node, id: Id, other: Id, body: Body, inventoryAt: int, at: int, fates: seq<Fate>)
    requires |n.disk.views| > 0 && id in n.mem && id != other && |fates| == MAX_BATCH + 1
    ensures Steady(n, Post(cfg, n, other, body, inventoryAt, at, fates).0, id)
  {
    hide AcceptAll, Receipt;
    if !PostAllowed(cfg, n.mem, other, body, inventoryAt, at) {
      MemoryIsSteady(n, id, n.mem);
    } else {
      var keys := ProjectEvents(body.events.value).value;
      var used := fates[..|keys| + 1][..|keys|];
      OtherKeysAreSteady(n, id, other, at, keys, used);
      var (n1, o) := AcceptAll(n, other, at, keys, used);
      if o == Accepted {
        OtherReceiptIsSteady(n1, id, other, at, fates[|keys|]);
        SteadyOn(n, n1, Receipt(n1, other, at, fates[|keys|]).0, id);
      }
    }
  }

  lemma DiagnosisIsSteady(s: Sys, id: Id, c: Controller, b: Registered, p: Diagnostic, at: int, f0: Fate, f1: Fate)
    requires |s.node.disk.views| > 0 && id in s.node.mem && c.id in s.node.mem && s.tick.Some?
    ensures Steady(s.node, Diagnosis(s, c, b, p, at, f0, f1).node, id)
  {
    hide Diagnosis, Steady;
    var e := EntryAfter(s, c, b, p, at);
    var m := s.node.mem[c.id := e];
    var n2 := Diagnosis(s, c, b, p, at, f0, f1).node;
    DiagnosisIsASection(s, c, b, p, at, f0, f1);
    var n1 := s.node.(mem := m);
    var n0 := CommitMemory(n1, Observation(c.id, at, p), f0);
    MemoryIsSteady(s.node, id, m);
    MemoryCommitIsSteady(s.node, id, m, Observation(c.id, at, p), f0);
    if n2 != n1 && n2 != n0 {
      assert n0.mem == m && |n0.disk.views| > 0;
      MemoryCommitIsSteady(n0, id, m, EnrollmentIntent(c.id, at, e.enrollment), f1);
      SteadyOn(s.node, n0, n2, id);
    }
  }

  lemma DiagnosisIsASection(s: Sys, c: Controller, b: Registered, p: Diagnostic, at: int, f0: Fate, f1: Fate)
    requires c.id in s.node.mem && s.tick.Some?
    ensures var e := EntryAfter(s, c, b, p, at);
      && WindowOf(e) == WindowOf(s.node.mem[c.id])
      && Section(s.node.(mem := s.node.mem[c.id := e]), Diagnosis(s, c, b, p, at, f0, f1).node,
                 Observation(c.id, at, p), f0, EnrollmentIntent(c.id, at, e.enrollment), f1)
  {
    DiagnoseIsASection(s, c, b, p, at, f0, f1);
  }

  predicate IsReload(step: Step) {
    step.ProcessRestart? || step.PowerLoss?
  }

  /** Only event posts for the controller and restarts touch its window. */
  lemma StepIsSteady(s: Sys, step: Step, id: Id)
    requires |s.node.disk.views| > 0 && id in s.node.mem
    requires Enabled(s, step) && !IsReload(step) && !(step.Events? && step.id == id)
    ensures Steady(s.node, Apply(s, step).node, id)
  {
    hide Steady, Post, Diagnosis, InventoryMatches, FindRegistered, Project, ValidConfig, CommitTo;
    var n := s.node;
    match step
    case Begin(c, at) =>
      MemoryIsSteady(n, id, MarkIdentity(n, c.id, InventoryMatches(c, s.tick.value, at, MaxAge(s.config))).mem);
    case CommitGap(other, at, f) => MemoryCommitIsSteady(n, id, n.mem, IdentityGap(other, at), f);
    case Observe(c, reply, projectedAt, at, f0, f1) =>
      if !Answers(reply, c) {
        MemoryCommitIsSteady(n, id, n.mem, CollectionGap(c.id, at), f0);
      } else {
        var b := FindRegistered(s.tick.value.controllers, c.id).value;
        DiagnosisIsSteady(Noted(s, Replied(c, b, s.config.enrollPush, reply, projectedAt, at)), id, c, b, Project(reply, projectedAt), at, f0, f1);
      }
    case Answer(other, configured, at, f) =>
      var e := n.mem[other].enrollment.value.(phase := if configured then Configured else Unknown, checkedAt := at);
      MemoryCommitIsSteady(n, id, n.mem[other := n.mem[other].(enrollment := Some(e))], EnrollmentResult(other, at, e), f);
    case Events(other, body, at, fates) => OtherPostIsSteady(s.config, n, id, other, body, s.inventoryAt, at, fates);
    case _ => MemoryIsSteady(n, id, n.mem);
  }

  // ---------------------------------------------------------------- runs

  lemma SteadyStaysMidway(w: Window, keys: seq<Key>, n: Node, n2: Node, id: Id)
    requires MidwayNode(w, keys, id, n) && Steady(n, n2, id)
    ensures MidwayNode(w, keys, id, n2)
  {
    hide Midway;
  }

  /** The events of the post, if it is well-formed, are the batch. */
  predicate Carries(body: Body, keys: seq<Key>) {
    body.events.Some? && ProjectEvents(body.events.value).Some? ==> ProjectEvents(body.events.value).value == keys
  }

  lemma PostStaysMidway(w: Window, keys: seq<Key>, cfg: Config, n: Node, id: Id, body: Body, inventoryAt: int, at: int, fates: seq<Fate>)
    requires Lasting(w, keys) && w.total + |keys| <= COUNTER_MAX
    requires MidwayNode(w, keys, id, n) && |fates| == MAX_BATCH + 1 && Carries(body, keys)
    ensures var (n2, o) := Post(cfg, n, id, body, inventoryAt, at, fates);
      && MidwayNode(w, keys, id, n2) && o != Exhausted
      && (o == Accepted ==> id in n2.mem && WindowOf(n2.mem[id]) == FeedAll(w, keys))
  {
    hide MidwayNode, Lasting, Deliver, FeedAll;
    if PostAllowed(cfg, n.mem, id, body, inventoryAt, at) {
      DeliveryStaysMidway(w, keys, n, id, at, fates[..|keys| + 1]);
    }
  }

  lemma StepStaysMidway(w: Window, keys: seq<Key>, s: Sys, step: Step, id: Id)
    requires Lasting(w, keys) && w.total + |keys| <= COUNTER_MAX
    requires MidwayNode(w, keys, id, s.node) && Enabled(s, step)
    requires step.Events? && step.id == id ==> Carries(step.body, keys)
    ensures MidwayNode(w, keys, id, Apply(s, step).node)
  {
    hide Midway, Lasting, Post, Steady, Diagnosis, Carries, InventoryMatches, ValidConfig;
    if step.Events? && step.id == id {
      PostStaysMidway(w, keys, s.config, s.node, id, step.body, s.inventoryAt, step.at, step.fates);
    } else if step.ProcessRestart? {
      assert s.node.disk.views[|s.node.disk.views| - 1] in s.node.disk.views;
    } else if step.PowerLoss? {
      assert s.node.disk.views[step.survivor] in s.node.disk.views;
    } else {
      StepIsSteady(s, step, id);
      SteadyStaysMidway(w, keys, s.node, Apply(s, step).node, id);
    }
  }

  /** Every post for the controller carries the batch, and is perhaps malformed. */
  predicate OnlyTheBatch(steps: seq<Step>, id: Id, keys: seq<Key>) {
    forall step | step in steps && step.Events? && step.id == id :: Carries(step.body, keys)
  }

  lemma {:induction false} RunStaysMidway(cfg: Config, steps: seq<Step>, more: seq<Step>, id: Id, w: Window, keys: seq<Key>)
    requires Lasting(w, keys) && w.total + |keys| <= COUNTER_MAX
    requires MidwayNode(w, keys, id, Run(cfg, steps).node) && OnlyTheBatch(more, id, keys)
    ensures MidwayNode(w, keys, id, Run(cfg, steps + more).node)
    decreases |more|
  {
    hide MidwayNode, Lasting, Apply, Enabled, Carries;
    if more == [] {
      assert steps + more == steps;
    } else {
      var (before, step) := (more[..|more| - 1], more[|more| - 1]);
      assert step in more && forall x | x in before :: x in more;
      RunStaysMidway(cfg, steps, before, id, w, keys);
      assert (steps + more)[..|steps + more| - 1] == steps + before;
      if Enabled(Run(cfg, steps + before), step) {
        StepStaysMidway(w, keys, Run(cfg, steps + before), step, id);
      }
    }
  }

  /** Redelivery converges. Start from any run whose recoverable versions agree with memory on the
      controller's window, and go on in any way in which the posts for the controller carry the same batch:
      failed commits, refusals, ticks, other controllers' posts, process restarts, power losses. A post that
      is accepted then leaves exactly the window and count of one uninterrupted delivery. */
  lemma RedeliveryConverges(cfg: Config, steps: seq<Step>, more: seq<Step>, id: Id, keys: seq<Key>, body: Body, at: int, fates: seq<Fate>)
    requires var n := Run(cfg, steps).node;
      && id in n.mem && |n.disk.views| > 0 && (forall v | v in n.disk.views :: SameWindow(n, id, v))
      && Lasting(WindowOf(n.mem[id]), keys) && n.mem[id].eventsTotal + |keys| <= COUNTER_MAX
    requires OnlyTheBatch(more, id, keys) && Carries(body, keys) && |fates| == MAX_BATCH + 1
    ensures var (s, s2) := (Run(cfg, steps), Run(cfg, steps + more));
      var (n2, o) := Post(s2.config, s2.node, id, body, s2.inventoryAt, at, fates);
      && o != Exhausted
      && (o == Accepted ==> id in n2.mem && WindowOf(n2.mem[id]) == FeedAll(WindowOf(s.node.mem[id]), keys))
  {
    hide Run, Lasting, Post, OnlyTheBatch, Carries;
    var w := WindowOf(Run(cfg, steps).node.mem[id]);
    AgreeingIsMidway(Run(cfg, steps).node, id, keys);
    RunStaysMidway(cfg, steps, more, id, w, keys);
    var s2 := Run(cfg, steps + more);
    PostStaysMidway(w, keys, s2.config, s2.node, id, body, s2.inventoryAt, at, fates);
  }

  lemma AgreeingIsMidway(n: Node, id: Id, keys: seq<Key>)
    requires id in n.mem && |n.disk.views| > 0 && forall v | v in n.disk.views :: SameWindow(n, id, v)
    ensures MidwayNode(WindowOf(n.mem[id]), keys, id, n)
  {
    var w := WindowOf(n.mem[id]);
    assert w == FeedAll(w, keys[..0]);
    assert Midway(w, keys, w);
  }
}
