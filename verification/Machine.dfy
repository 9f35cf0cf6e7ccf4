/** The running observer as a state machine: ticks, observers in flight, event posts, scrapes, process
    restarts and power losses, interleaved wherever the store lock is free. */
module Machine {
  import opened Sequences
  import opened BmcState
  import opened Durability
  import opened Regions
  import Metrics

  /** A subscribe request; its id also serves as change id. */
  datatype Request = Request(id: Id, requestId: nat, revision: string)

  /** Where an observer of one controller stands while it does not hold the lock. */
  datatype Task =
    | Gap                         // identity did not match, commit of identity_gap outstanding
    | Diagnosing                  // waiting for the diagnostics reply
    | Enrolling                   // intent committed, about to read it back
    | Sending(request: Request)   // read back, about to be sent
    | Awaiting(request: Request)  // sent, waiting for the answer

  datatype Happening =
    | Withdrawn                // a tick begins, its inventory is refused, or it fails
    | Adopted(inventory: Inventory, adoptedAt: int, maxAge: int)
    | Checked(controller: Controller, inventory: Inventory, checkedAt: int, maxAge: int, valid: bool)
    | Replied(controller: Controller, row: Registered, enrollPush: bool, reply: Reply, projectedAt: int, at: int)
    | Minted(request: Request)
    | Sent(request: Request)
    | Answered(request: Request, configured: bool, at: int)
    | Posted(id: Id, body: Body, at: int, outcome: Outcome)
    | Scraped(config: Config, doc: Document, inventoryAt: int, at: int)
    | Reloaded(doc: Document)

  /** The sample lines of a scrape. */
  function Shown(x: Happening): seq<Metrics.Sample>
    requires x.Scraped?
  {
    Metrics.Body(x.config, x.doc, x.inventoryAt, x.at)
  }

  /** known: every controller that ever was configured. tick: the inventory the running tick works from.
      minted: how many request ids exist. history: what happened so far, across restarts. */
  datatype Sys = Sys(
    config: Config, known: set<Id>, node: Node, inventoryAt: int, tick: Option<Inventory>, tasks: map<Id, Task>,
    minted: nat, history: seq<Happening>)

  /** inventoryCurrent says the reply's `inventory_stale` member is exactly `false`; a member that is missing
      or no text reads as empty. */
  datatype Reply =
    | NoReply
    | Reply(controllerId: string, protocol: string, inventoryCurrent: bool, reading: Reading)

  predicate Answers(reply: Reply, c: Controller) {
    reply.Reply? && reply.controllerId == c.id && reply.protocol == c.protocol
  }

  const PROJECTION_AGE: int := 120000

  function Project(reply: Reply, at: int): Diagnostic
    requires reply.Reply?
  {
    Diagnostic(reply.inventoryCurrent && Fresh(reply.reading.observedAt, at, PROJECTION_AGE), reply.reading)
  }

  /** A restart may come with another configuration. */
  datatype Step =
    | StartTick
    | UseInventory(inventory: Inventory, at: int)
    | EndTick(failed: bool)
    | Begin(c: Controller, at: int)
    | CommitGap(id: Id, at: int, f0: Fate)
    | Observe(c: Controller, reply: Reply, projectedAt: int, at: int, f0: Fate, f1: Fate)
    | ReadIntent(id: Id)
    | Send(id: Id)
    | Answer(id: Id, configured: bool, at: int, f0: Fate)
    | Events(id: Id, body: Body, at: int, fates: seq<Fate>)
    | Scrape(at: int)
    | ProcessRestart(next: Config)
    | PowerLoss(survivor: nat, next: Config)

  function Boot(cfg: Config): Sys {
    Sys(cfg, Ids(cfg.controllers), Node(map[], Disk([map[]], [])), 0, None, map[], 0, [])
  }

  /** A step can be taken. What the source unwraps without a check is part of it. */
  predicate Enabled(s: Sys, step: Step) {
    match step
    case StartTick => s.tick.None? && s.tasks == map[]
    case UseInventory(_, _) => s.tick.None? && s.tasks == map[]
    case EndTick(_) => s.tasks == map[]
    case Begin(c, _) => s.tick.Some? && c in s.config.controllers && c.id !in s.tasks
    case CommitGap(id, _, _) => id in s.tasks && s.tasks[id] == Gap
    case Observe(c, _, _, _, _, _) =>
      && c in s.config.controllers && c.id in s.tasks && s.tasks[c.id] == Diagnosing
      && s.tick.Some? && FindRegistered(s.tick.value.controllers, c.id).Some? && c.id in s.node.mem
    case ReadIntent(id) =>
      id in s.tasks && s.tasks[id] == Enrolling && id in s.node.mem && s.node.mem[id].enrollment.Some?
    case Send(id) => id in s.tasks && s.tasks[id].Sending?
    case Answer(id, _, _, _) =>
      id in s.tasks && s.tasks[id].Awaiting? && id in s.node.mem && s.node.mem[id].enrollment.Some?
    case Events(_, _, _, fates) => |fates| == MAX_BATCH + 1
    case Scrape(_) => true
    case ProcessRestart(next) => ValidConfig(next) && |s.node.disk.views| > 0
    case PowerLoss(survivor, next) => ValidConfig(next) && survivor < |s.node.disk.views|
  }

  /** What a section on one controller adds to the history. Request ids are fresh (the number of ids
      minted before), so one was minted exactly when the controller has another enrollment. */
  function Mint(s: Sys, id: Id, n: Node): seq<Happening>
    requires id in s.node.mem && id in n.mem
  {
    var e := n.mem[id].enrollment;
    if e == s.node.mem[id].enrollment || e.None? then []
    else [Minted(Request(id, e.value.requestId, e.value.revision))]
  }

  function Noted(s: Sys, x: Happening): Sys {
    s.(history := s.history + [x])
  }

  function ObserveStep(s: Sys, c: Controller, reply: Reply, projectedAt: int, at: int, f0: Fate, f1: Fate): Sys
    requires c.id in s.node.mem && s.tick.Some? && FindRegistered(s.tick.value.controllers, c.id).Some?
  {
    if !Answers(reply, c) then
      s.(node := CommitMemory(s.node, CollectionGap(c.id, at), f0), tasks := s.tasks - {c.id})
    else
      var b := FindRegistered(s.tick.value.controllers, c.id).value;
      Diagnosis(Noted(s, Replied(c, b, s.config.enrollPush, reply, projectedAt, at)), c, b,
                Project(reply, projectedAt), at, f0, f1)
  }

  function Diagnosis(s: Sys, c: Controller, b: Registered, p: Diagnostic, at: int, f0: Fate, f1: Fate): Sys
    requires c.id in s.node.mem && s.tick.Some?
  {
    var (n, next) := Diagnose(s.config, s.node, c, b, s.tick.value.revision, p, at, s.minted, f0, f1);
    var mint := Mint(s, c.id, n);
    s.(node := n, tasks := if next == Enroll then s.tasks[c.id := Enrolling] else s.tasks - {c.id},
       minted := s.minted + |mint|, history := s.history + mint)
  }

  function MaxAge(cfg: Config): int {
    cfg.inventoryMaxAgeSeconds * 1000
  }

  function BeginStep(s: Sys, c: Controller, at: int): Sys
    requires s.tick.Some?
  {
    var valid := InventoryMatches(c, s.tick.value, at, MaxAge(s.config));
    s.(node := MarkIdentity(s.node, c.id, valid), tasks := s.tasks[c.id := if valid then Diagnosing else Gap],
       history := s.history + [Checked(c, s.tick.value, at, MaxAge(s.config), valid)])
  }

  function Reload(s: Sys, n: Node, next: Config): Sys {
    s.(config := next, known := s.known + Ids(next.controllers), node := n, inventoryAt := 0, tick := None,
       tasks := map[], history := s.history + [Reloaded(n.mem)])
  }

  function Apply(s: Sys, step: Step): Sys
    requires Enabled(s, step)
  {
    match step
    case StartTick => s.(inventoryAt := 0, history := s.history + [Withdrawn])
    case UseInventory(inv, at) =>
      if inv.knownCurrent && Fresh(inv.generatedAt, at, MaxAge(s.config))
      then s.(inventoryAt := inv.generatedAt, tick := Some(inv),
              history := s.history + [Adopted(inv, at, MaxAge(s.config))])
      else s.(inventoryAt := 0, history := s.history + [Withdrawn])
    case EndTick(failed) =>
      if failed then s.(tick := None, inventoryAt := 0, history := s.history + [Withdrawn]) else s.(tick := None)
    case Begin(c, at) => BeginStep(s, c, at)
    case CommitGap(id, at, f) =>
      s.(node := CommitMemory(s.node, IdentityGap(id, at), f), tasks := s.tasks - {id})
    case Observe(c, reply, projectedAt, at, f0, f1) => ObserveStep(s, c, reply, projectedAt, at, f0, f1)
    case ReadIntent(id) =>
      var e := s.node.mem[id].enrollment.value;
      s.(tasks := s.tasks[id := Sending(Request(id, e.requestId, e.revision))])
    case Send(id) =>
      var r := s.tasks[id].request;
      s.(tasks := s.tasks[id := Awaiting(r)], history := s.history + [Sent(r)])
    case Answer(id, configured, at, f) =>
      s.(node := FinishEnrollment(s.node, id, configured, at, f), tasks := s.tasks - {id},
         history := s.history + [Answered(s.tasks[id].request, configured, at)])
    case Events(id, body, at, fates) =>
      var (n, outcome) := Post(s.config, s.node, id, body, s.inventoryAt, at, fates);
      s.(node := n, history := s.history + [Posted(id, body, at, outcome)])
    case Scrape(at) => s.(history := s.history + [Scraped(s.config, s.node.mem, s.inventoryAt, at)])
    case ProcessRestart(next) => Reload(s, Killed(s.node), next)
    case PowerLoss(survivor, next) => Reload(s, PoweredOff(s.node, survivor), next)
  }

  /** A run of the observer first started with the given configuration. A step that is not enabled
      leaves everything as it is. */
  function Run(cfg: Config, steps: seq<Step>): Sys {
    if steps == [] then Boot(cfg)
    else
      var s := Run(cfg, steps[..|steps| - 1]);
      var step := steps[|steps| - 1];
      if Enabled(s, step) then Apply(s, step) else s
  }
}
