/** What the journal says happened did happen: each record is explained by the history of the run. */
module Journal {
  import opened Sequences
  import opened BmcState
  import opened Durability
  import opened Regions
  import opened Machine
  import opened MachineInvariant
  import opened MachineSafety
  import opened Replay
  import opened Events

  /** The key is that of an event posted for the controller at the time. */
  ghost predicate WasPosted(x: Happening, id: Id, at: int, key: Key) {
    && x.Posted? && x.id == id && x.at == at && x.body.events.Some?
    && exists e :: e in x.body.events.value && IsKeyOf(key, e)
  }

  ghost predicate Tells(x: Happening, r: Record) {
    match r
    case PushEvent(id, at, key) => WasPosted(x, id, at, key)
    case PushReceipt(id, at) => x.Posted? && x.id == id && x.at == at
    case Observation(id, at, d) =>
      IsReply(x, id) && x.at == at && x.reply.reading == d.reading && (d.current <==> Prompt(x))
    case EnrollmentIntent(id, at, _) => IsReply(x, id) && x.at == at
    case EnrollmentResult(id, at, e) =>
      && x.Answered? && x.request.id == id && x.at == at && e.checkedAt == at
      && e.requestId == x.request.requestId && e.revision == x.request.revision
      && e.phase == if x.configured then Configured else Unknown
    case IdentityGap(_, _) => true
    case CollectionGap(_, _) => true
  }

  predicate IsGap(r: Record) {
    r.IdentityGap? || r.CollectionGap?
  }

  ghost predicate Explained(history: seq<Happening>, r: Record) {
    IsGap(r) || exists x :: x in history && Tells(x, r)
  }

  ghost predicate AllExplained(history: seq<Happening>, written: seq<Record>) {
    forall r | r in written :: Explained(history, r)
  }

  /** What a section adds to the journal satisfies p. */
  ghost predicate Adds(n: Node, n2: Node, x: Happening) {
    n.disk.written <= n2.disk.written
    && forall i | |n.disk.written| <= i < |n2.disk.written| :: IsGap(n2.disk.written[i]) || Tells(x, n2.disk.written[i])
  }

  lemma AddsOn(n1: Node, n2: Node, n3: Node, x: Happening)
    requires Adds(n1, n2, x) && Adds(n2, n3, x)
    ensures Adds(n1, n3, x)
  {
    hide Tells;
    forall i | |n1.disk.written| <= i < |n3.disk.written| ensures IsGap(n3.disk.written[i]) || Tells(x, n3.disk.written[i]) {
      if i < |n2.disk.written| { assert n3.disk.written[i] == n2.disk.written[i]; }
    }
  }

  lemma CommitAdds(n: Node, m: Document, r: Record, f: Fate, x: Happening)
    requires IsGap(r) || Tells(x, r)
    ensures Adds(n, AfterCommit(n, m, r, f), x) && Adds(n, CommitMemory(n, r, f), x)
  {
    hide Tells;
  }

  lemma KeyAdds(n: Node, id: Id, at: int, k: Key, f: Fate, x: Happening)
    requires id in n.mem && WasPosted(x, id, at, k)
    ensures Adds(n, AcceptKey(n, id, at, k, f).0, x)
  {
    hide WasPosted;
    var c := n.mem[id];
    CommitAdds(n, n.mem[id := Counted(c, k)], PushEvent(id, at, k), f, x);
  }

  lemma {:induction false} KeysAdd(n: Node, id: Id, at: int, keys: seq<Key>, fates: seq<Fate>, x: Happening)
    requires id in n.mem && |fates| == |keys| && forall k | k in keys :: WasPosted(x, id, at, k)
    ensures Adds(n, AcceptAll(n, id, at, keys, fates).0, x)
    decreases |keys|
  {
    hide AcceptKey, WasPosted, Tells;
    if keys != [] {
      var last := |keys| - 1;
      assert keys[last] in keys && forall k | k in keys[..last] :: k in keys;
      KeysAdd(n, id, at, keys[..last], fates[..last], x);
      var (n1, o) := AcceptAll(n, id, at, keys[..last], fates[..last]);
      if o == Accepted {
        KeyAdds(n1, id, at, keys[last], fates[last], x);
        AddsOn(n, n1, AcceptKey(n1, id, at, keys[last], fates[last]).0, x);
      }
    }
  }

  lemma ReceiptAdds(n: Node, id: Id, at: int, f: Fate, x: Happening)
    requires id in n.mem && x.Posted? && x.id == id && x.at == at
    ensures Adds(n, Receipt(n, id, at, f).0, x)
  {
    CommitAdds(n, n.mem[id := n.mem[id].(pushAt := at)], PushReceipt(id, at), f, x);
  }

  lemma PostAdds(cfg: Config, n: Node, id: Id, body: Body, inventoryAt: int, at: int, fates: seq<Fate>, x: Happening)
    requires |fates| == MAX_BATCH + 1 && x.Posted? && x.id == id && x.at == at && x.body == body
    ensures Adds(n, Post(cfg, n, id, body, inventoryAt, at, fates).0, x)
  {
    hide AcceptAll, Receipt, Adds, IsKeyOf;
    if !PostAllowed(cfg, n.mem, id, body, inventoryAt, at) {
      NothingAdds(n, x);
    } else {
      var es := body.events.value;
      var keys := ProjectEvents(es).value;
      ProjectionsAreKeys(es);
      forall k | k in keys ensures WasPosted(x, id, at, k) {
        var i :| 0 <= i < |keys| && keys[i] == k;
        assert es[i] in es;
      }
      var used := fates[..|keys| + 1][..|keys|];
      KeysAdd(n, id, at, keys, used, x);
      var (n1, o) := AcceptAll(n, id, at, keys, used);
      if o == Accepted {
        ReceiptAdds(n1, id, at, fates[|keys|], x);
        AddsOn(n, n1, Receipt(n1, id, at, fates[|keys|]).0, x);
      }
    }
  }

  lemma NothingAdds(n: Node, x: Happening)
    ensures Adds(n, n, x)
  {
  }

  lemma DiagnosisAdds(s: Sys, c: Controller, b: Registered, reply: Reply, projectedAt: int, at: int, f0: Fate, f1: Fate, x: Happening)
    requires c.id in s.node.mem && s.tick.Some? && reply.Reply?
    requires x == Replied(c, b, s.config.enrollPush, reply, projectedAt, at)
    ensures Adds(s.node, Diagnosis(s, c, b, Project(reply, projectedAt), at, f0, f1).node, x)
  {
    hide Diagnosis, CommitTo, Adds;
    var p := Project(reply, projectedAt);
    var e := EntryAfter(s, c, b, p, at);
    var n1 := s.node.(mem := s.node.mem[c.id := e]);
    var (r0, r1) := (Observation(c.id, at, p), EnrollmentIntent(c.id, at, e.enrollment));
    SectionOfDiagnosis(s, c, b, p, at, f0, f1);
    assert Tells(x, r0) && Tells(x, r1);
    NothingAdds(n1, x);
    CommitAdds(n1, n1.mem, r0, f0, x);
    CommitAdds(CommitMemory(n1, r0, f0), n1.mem, r1, f1, x);
    AddsOn(n1, CommitMemory(n1, r0, f0), CommitMemory(CommitMemory(n1, r0, f0), r1, f1), x);
    SameDiskAdds(s.node, n1, Diagnosis(s, c, b, p, at, f0, f1).node, x);
  }

  lemma SectionOfDiagnosis(s: Sys, c: Controller, b: Registered, p: Diagnostic, at: int, f0: Fate, f1: Fate)
    requires c.id in s.node.mem && s.tick.Some?
    ensures var e := EntryAfter(s, c, b, p, at);
      Section(s.node.(mem := s.node.mem[c.id := e]), Diagnosis(s, c, b, p, at, f0, f1).node,
              Observation(c.id, at, p), f0, EnrollmentIntent(c.id, at, e.enrollment), f1)
  {
    DiagnoseIsASection(s, c, b, p, at, f0, f1);
  }

  lemma SameDiskAdds(n: Node, n1: Node, n2: Node, x: Happening)
    requires n1.disk == n.disk && Adds(n1, n2, x)
    ensures Adds(n, n2, x)
  {
  }

  lemma AnswerAdds(s: Sys, id: Id, configured: bool, at: int, f: Fate)
    requires Inv(s) && Enabled(s, Answer(id, configured, at, f))
    ensures Adds(s.node, Apply(s, Answer(id, configured, at, f)).node, Answered(s.tasks[id].request, configured, at))
  {
    hide NodeOk, HistoryOk;
    assert TaskOk(s.tick, s.node, id, s.tasks[id]);
  }

  /** Each step journals only what it adds to the history. */
  lemma StepAdds(s: Sys, step: Step)
    requires Inv(s) && Enabled(s, step)
    ensures s.node.disk.written == Apply(s, step).node.disk.written
         || (exists x :: x in Apply(s, step).history && Adds(s.node, Apply(s, step).node, x))
         || OnlyGaps(s.node, Apply(s, step).node)
  {
    hide Inv, Post, Diagnosis, InventoryMatches, FindRegistered, Project, CommitTo, BeginStep, ValidConfig, Adds;
    var s2 := Apply(s, step);
    match step
    case CommitGap(id, at, f) => GapIsAll(s.node, IdentityGap(id, at), f);
    case Observe(c, reply, projectedAt, at, f0, f1) =>
      if Answers(reply, c) {
        var b := FindRegistered(s.tick.value.controllers, c.id).value;
        var x := Replied(c, b, s.config.enrollPush, reply, projectedAt, at);
        DiagnosisAdds(Noted(s, x), c, b, reply, projectedAt, at, f0, f1, x);
        ReplyIsRecorded(s, c, b, reply, projectedAt, at, f0, f1);
      } else {
        GapIsAll(s.node, CollectionGap(c.id, at), f0);
      }
    case Answer(id, configured, at, f) =>
      AnswerAdds(s, id, configured, at, f);
      assert s2.history[|s.history|] == Answered(s.tasks[id].request, configured, at);
    case Events(id, body, at, fates) =>
      var x := s2.history[|s.history|];
      PostAdds(s.config, s.node, id, body, s.inventoryAt, at, fates, x);
    case Begin(_, _) => BeginWritesNothing(s, step.c, step.at);
    case _ =>
  }

  lemma BeginWritesNothing(s: Sys, c: Controller, at: int)
    requires s.tick.Some?
    ensures BeginStep(s, c, at).node.disk == s.node.disk
  {
  }

  lemma ReplyIsRecorded(s: Sys, c: Controller, b: Registered, reply: Reply, projectedAt: int, at: int, f0: Fate, f1: Fate)
    requires c.id in s.node.mem && s.tick.Some? && reply.Reply?
    ensures var x := Replied(c, b, s.config.enrollPush, reply, projectedAt, at);
      x in Diagnosis(Noted(s, x), c, b, Project(reply, projectedAt), at, f0, f1).history
  {
    hide Diagnose;
    var x := Replied(c, b, s.config.enrollPush, reply, projectedAt, at);
    assert Diagnosis(Noted(s, x), c, b, Project(reply, projectedAt), at, f0, f1).history[|s.history|] == x;
  }

  ghost predicate OnlyGaps(n: Node, n2: Node) {
    n.disk.written <= n2.disk.written
    && forall i | |n.disk.written| <= i < |n2.disk.written| :: IsGap(n2.disk.written[i])
  }

  lemma GapIsAll(n: Node, r: Record, f: Fate)
    requires IsGap(r)
    ensures OnlyGaps(n, CommitMemory(n, r, f))
  {
  }

  lemma ExplanationsLast(history: seq<Happening>, h: seq<Happening>, written: seq<Record>)
    requires history <= h && AllExplained(history, written)
    ensures AllExplained(h, written)
  {
    hide Tells;
    forall r | r in written ensures Explained(h, r) {
      if x :| x in history && Tells(x, r) { assert x in h; }
    }
  }

  lemma StepExplains(s: Sys, step: Step)
    requires Inv(s) && Enabled(s, step) && AllExplained(s.history, s.node.disk.written)
    ensures AllExplained(Apply(s, step).history, Apply(s, step).node.disk.written)
  {
    var s2 := Apply(s, step);
    StepAdds(s, step);
    HistoryIsKept(s, step);
    hide Inv, Apply, Enabled, Tells;
    ExplanationsLast(s.history, s2.history, s.node.disk.written);
    forall r | r in s2.node.disk.written ensures Explained(s2.history, r) {
      var i :| 0 <= i < |s2.node.disk.written| && s2.node.disk.written[i] == r;
      if i < |s.node.disk.written| { assert s2.node.disk.written[i] == s.node.disk.written[i]; }
    }
  }

  lemma HistoryIsKept(s: Sys, step: Step)
    requires Enabled(s, step)
    ensures s.history <= Apply(s, step).history
  {
    hide Diagnose, MarkIdentity, Post, Killed, PoweredOff, FinishEnrollment, InventoryMatches, ValidConfig, FindRegistered;
  }

  lemma {:induction false} RunIsExplained(cfg: Config, steps: seq<Step>)
    ensures AllExplained(Run(cfg, steps).history, Run(cfg, steps).node.disk.written)
  {
    if steps != [] {
      hide AllExplained, Apply, Enabled, Inv;
      var before := steps[..|steps| - 1];
      RunIsExplained(cfg, before);
      RunKeepsInvariant(cfg, before);
      if Enabled(Run(cfg, before), steps[|steps| - 1]) { StepExplains(Run(cfg, before), steps[|steps| - 1]); }
    }
  }

  /** Every journal record but the gap notices is explained: a push event by a post that held an event with its
      id and texts, a receipt by a post, an observation by the reply it shows, an answer by the answer. */
  lemma JournalIsTruthful(cfg: Config, steps: seq<Step>, r: Record)
    requires r in Run(cfg, steps).node.disk.written && !IsGap(r)
    ensures exists x :: x in Run(cfg, steps).history && Tells(x, r)
  {
    RunIsExplained(cfg, steps);
  }

  lemma {:induction false} PushKeyIsWritten(written: seq<Record>, id: Id, k: Key)
    requires k in PushKeys(written, id)
    ensures exists at :: PushEvent(id, at, k) in written
  {
    var (front, last) := (written[..|written| - 1], written[|written| - 1]);
    if last.PushEvent? && last.id == id && last.key == k {
      assert PushEvent(id, last.at, k) in written;
    } else {
      PushKeyIsWritten(front, id, k);
      var at :| PushEvent(id, at, k) in front;
      assert PushEvent(id, at, k) in written;
    }
  }

  lemma {:induction false} SubsequenceIsWithin<T>(a: seq<T>, b: seq<T>, x: T)
    requires IsSubsequence(a, b) && x in a
    ensures x in b
    decreases |b|
  {
    if a[|a| - 1] == b[|b| - 1] && IsSubsequence(a[..|a| - 1], b[..|b| - 1]) {
      if x != a[|a| - 1] { SubsequenceIsWithin(a[..|a| - 1], b[..|b| - 1], x); }
    } else {
      SubsequenceIsWithin(a, b[..|b| - 1], x);
    }
  }

  /** Whatever memory or a recoverable document counts was posted for that controller, with this id and
      these texts. */
  lemma CountedEventsWerePosted(cfg: Config, steps: seq<Step>, doc: Document, id: Id, k: Key)
    requires var s := Run(cfg, steps); doc == s.node.mem || doc in s.node.disk.views
    requires id in doc && k in doc[id].accepted
    ensures exists x, at :: x in Run(cfg, steps).history && WasPosted(x, id, at, k)
  {
    RunKeepsInvariant(cfg, steps);
    hide WasPosted, Run, DocCurrent, StateOk;
    var written := Run(cfg, steps).node.disk.written;
    SubsequenceIsWithin(doc[id].accepted, PushKeys(written, id), k);
    PushKeyIsWritten(written, id, k);
    var at :| PushEvent(id, at, k) in written;
    JournalIsTruthful(cfg, steps, PushEvent(id, at, k));
    var x :| x in Run(cfg, steps).history && Tells(x, PushEvent(id, at, k));
    assert WasPosted(x, id, at, k);
  }
}
