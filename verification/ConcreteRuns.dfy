/** Runs that exist: the enrollment protocol reaches its send, and each promise the code does not meet is
    broken by a run given here. */
module ConcreteRuns {
  import opened Sequences
  import opened BmcState
  import opened Durability
  import opened Regions
  import opened Machine
  import opened Counters
  import Metrics

  const HOST := Controller("b", "redfish", "https://bmc", ["h"], true)
  const SITE := Config([HOST], true, 180, 86400)
  const REGISTERED := Registered("b", "https://bmc", "redfish", ["h"], true)
  const KNOWN := Inventory(true, 1000, Some("r1"), [REGISTERED], [Device("h", "b")])
  const SEEN := NO_READING.(observedAt := 1000)

  // ---------------------------------------------------------------- building blocks

  lemma Adopting(cfg: Config, steps: seq<Step>, inv: Inventory, at: int) returns (more: seq<Step>)
    requires var s := Run(cfg, steps);
      s.tick.None? && s.tasks == map[] && inv.knownCurrent && Fresh(inv.generatedAt, at, MaxAge(s.config))
    ensures var s := Run(cfg, steps);
      Run(cfg, more) == s.(inventoryAt := inv.generatedAt, tick := Some(inv),
                               history := s.history + [Adopted(inv, at, MaxAge(s.config))])
  {
    hide Run;
    more := steps + [UseInventory(inv, at)];
    RunOn(cfg, steps, UseInventory(inv, at));
  }

  /** The state between a check and what follows it. */
  lemma Checking(cfg: Config, steps: seq<Step>, c: Controller, at: int) returns (more: seq<Step>)
    requires var s := Run(cfg, steps); s.tick.Some? && s.tasks == map[] && c in s.config.controllers
    ensures var s := Run(cfg, steps);
      var valid := InventoryMatches(c, s.tick.value, at, MaxAge(s.config));
      && Run(cfg, more).node == MarkIdentity(s.node, c.id, valid)
      && Run(cfg, more).tasks == map[c.id := if valid then Diagnosing else Gap]
      && Run(cfg, more).(node := s.node, tasks := s.tasks, history := s.history) == s
      && Run(cfg, more).history == s.history + [Checked(c, s.tick.value, at, MaxAge(s.config), valid)]
  {
    hide Run, InventoryMatches, MarkIdentity;
    more := steps + [Begin(c, at)];
    RunOn(cfg, steps, Begin(c, at));
  }

  /** A controller that does not match: its entry is marked and committed. */
  lemma Mismatching(cfg: Config, steps: seq<Step>, c: Controller, at: int) returns (more: seq<Step>)
    requires var s := Run(cfg, steps);
      && s.tick.Some? && s.tasks == map[] && c in s.config.controllers
      && !InventoryMatches(c, s.tick.value, at, MaxAge(s.config))
    ensures var (s, s2) := (Run(cfg, steps), Run(cfg, more));
      && s2.config == s.config && s2.tick == s.tick && s2.tasks == map[]
      && s2.node.mem.Keys == s.node.mem.Keys + {c.id} && s2.node.disk.views == [s2.node.mem]
  {
    hide Run, InventoryMatches;
    var m1 := Checking(cfg, steps, c, at);
    more := m1 + [CommitGap(c.id, at, Committed)];
    RunOn(cfg, m1, CommitGap(c.id, at, Committed));
    assert Run(cfg, more).tasks == map[];
  }

  /** A controller that matches, with a prompt reply that offers no event push. */
  lemma Observing(cfg: Config, steps: seq<Step>, c: Controller, p: Reading, at: int) returns (more: seq<Step>)
    requires var s := Run(cfg, steps);
      && s.tick.Some? && s.tasks == map[] && c in s.config.controllers
      && InventoryMatches(c, s.tick.value, at, MaxAge(s.config))
    requires !p.pushSupported && 0 < p.observedAt <= at <= p.observedAt + 120000
    ensures var (s, s2) := (Run(cfg, steps), Run(cfg, more));
      && s2.config == s.config && s2.tick == s.tick && s2.tasks == map[] && s2.inventoryAt == s.inventoryAt
      && c.id in s2.node.mem
      && s2.node.mem[c.id] == Entry(s.node.mem, c.id).(identityValid := true, available := true, pollAt := at,
                                                       diagnostic := Diagnostic(true, p))
      && s2.node.mem == s.node.mem[c.id := s2.node.mem[c.id]] && s2.node.disk.views == [s2.node.mem]
  {
    hide Run, InventoryMatches;
    var m1 := Checking(cfg, steps, c, at);
    var reply := Reply(c.id, c.protocol, true, p);
    ObservingEnabled(Run(cfg, steps), Run(cfg, m1), c, reply, at);
    more := m1 + [Observe(c, reply, at, at, Committed, Committed)];
    RunOn(cfg, m1, Observe(c, reply, at, at, Committed, Committed));
    QuietDiagnosis(Run(cfg, m1), c, reply, at);
  }

  lemma ObservingEnabled(s: Sys, s1: Sys, c: Controller, reply: Reply, at: int)
    requires s.tick.Some? && InventoryMatches(c, s.tick.value, at, MaxAge(s.config))
    requires s1.tick == s.tick && s1.config == s.config && c in s.config.controllers
    requires s1.node == MarkIdentity(s.node, c.id, true) && s1.tasks == map[c.id := Diagnosing]
    ensures Enabled(s1, Observe(c, reply, at, at, Committed, Committed))
  {
  }

  lemma QuietDiagnosis(s: Sys, c: Controller, reply: Reply, at: int)
    requires Enabled(s, Observe(c, reply, at, at, Committed, Committed)) && s.tasks == map[c.id := Diagnosing]
    requires reply.Reply? && reply == Reply(c.id, c.protocol, true, reply.reading)
    requires !reply.reading.pushSupported && 0 < reply.reading.observedAt <= at <= reply.reading.observedAt + 120000
    ensures var s2 := Apply(s, Observe(c, reply, at, at, Committed, Committed));
      && s2.config == s.config && s2.tick == s.tick && s2.tasks == map[] && s2.inventoryAt == s.inventoryAt
      && s2.node.mem == s.node.mem[c.id := s.node.mem[c.id].(available := true, pollAt := at,
                                             diagnostic := Diagnostic(true, reply.reading))]
      && s2.node.disk.views == [s2.node.mem]
  {
  }

  lemma HostMatches(at: int)
    requires 1000 <= at <= 86400000
    ensures InventoryMatches(HOST, KNOWN, at, MaxAge(SITE)) && ValidConfig(SITE)
  {
    assert KNOWN.controllers[0] == REGISTERED;
  }

  /** The only controller of SITE has been adopted, checked and observed. */
  lemma Observed() returns (steps: seq<Step>)
    ensures var s := Run(SITE, steps);
      && s.config == SITE && s.tick == Some(KNOWN) && s.tasks == map[] && s.inventoryAt == 1000
      && "b" in s.node.mem && s.node.disk.views == [s.node.mem]
      && s.node.mem["b"] == DEFAULT_STATE.(identityValid := true, available := true, pollAt := 1000,
                                           diagnostic := Diagnostic(true, SEEN))
  {
    HostMatches(1000);
    assert HOST in SITE.controllers;
    assert Run(SITE, []) == Boot(SITE);
    hide Run, InventoryMatches;
    steps := Adopting(SITE, [], KNOWN, 1000);
    steps := Observing(SITE, steps, HOST, SEEN, 1000);
  }

  // ---------------------------------------------------------------- requests are sent

  function Offered(at: int): Reply {
    Reply("b", "redfish", true, SEEN.(observedAt := at, pushSupported := true))
  }

  function Offer(at: int): Step {
    Observe(HOST, Offered(at), at, at, Committed, Committed)
  }

  lemma Enrolls(s: Sys, at: int)
    requires s.config == SITE && s.tick == Some(KNOWN) && s.tasks == map["b" := Diagnosing] && at >= 1000
    requires "b" in s.node.mem && NeedsMint(s.node.mem["b"].enrollment, at)
    ensures Enabled(s, Offer(at))
    ensures var s2 := Apply(s, Offer(at));
      && s2.config == SITE && s2.tasks == map["b" := Enrolling] && s2.minted == s.minted + 1
      && s2.history == s.history + [Replied(HOST, REGISTERED, true, Offered(at), at, at)]
                                 + [Minted(Request("b", s.minted, "r1"))]
      && "b" in s2.node.mem && s2.node.mem["b"].enrollment == Some(Enrollment(s.minted, "r1", Intent, 0))
  {
    assert KNOWN.controllers[0] == REGISTERED;
    assert HOST in SITE.controllers;
  }

  /** What follows a committed intent: it is read back, sent and confirmed, and the tick ends. */
  lemma Requests(steps: seq<Step>, m: nat, at: int) returns (more: seq<Step>)
    requires var s := Run(SITE, steps);
      && s.config == SITE && s.tasks == map["b" := Enrolling]
      && "b" in s.node.mem && s.node.mem["b"].enrollment == Some(Enrollment(m, "r1", Intent, 0))
    ensures var (s, s2) := (Run(SITE, steps), Run(SITE, more));
      && Resting(s2) && s2.minted == s.minted
      && s2.history == s.history + [Sent(Request("b", m, "r1"))] + [Answered(Request("b", m, "r1"), true, at)]
      && Entry(s2.node.mem, "b").enrollment == Some(Enrollment(m, "r1", Configured, at))
  {
    hide Run;
    RunOn(SITE, steps, ReadIntent("b"));
    var p1 := steps + [ReadIntent("b")];
    RunOn(SITE, p1, Send("b"));
    var p2 := p1 + [Send("b")];
    RunOn(SITE, p2, Answer("b", true, at, Committed));
    var p3 := p2 + [Answer("b", true, at, Committed)];
    assert Run(SITE, p3).tasks == map[];
    RunOn(SITE, p3, EndTick(false));
    more := p3 + [EndTick(false)];
  }

  predicate Resting(s: Sys) {
    s.config == SITE && s.tick.None? && s.tasks == map[]
  }

  /** One tick in which a request is due: it is minted, sent and confirmed. */
  lemma SendingInATick(steps: seq<Step>, at: int) returns (more: seq<Step>)
    requires Resting(Run(SITE, steps)) && 1000 <= at <= 86400000
    requires NeedsMint(Entry(Run(SITE, steps).node.mem, "b").enrollment, at)
    ensures var (s, s2) := (Run(SITE, steps), Run(SITE, more));
      var q := Request("b", s.minted, "r1");
      && Resting(s2) && s2.minted == s.minted + 1
      && Entry(s2.node.mem, "b").enrollment == Some(Enrollment(s.minted, "r1", Configured, at))
      && s.history <= s2.history && Sent(q) in s2.history[|s.history|..] && Answered(q, true, at) in s2.history
  {
    HostMatches(at);
    assert HOST in SITE.controllers;
    hide Run, InventoryMatches, Apply, Enabled;
    var h := Run(SITE, steps).history;
    var p1 := Adopting(SITE, steps, KNOWN, at);
    var p2 := Checking(SITE, p1, HOST, at);
    Enrolls(Run(SITE, p2), at);
    RunOn(SITE, p2, Offer(at));
    more := Requests(p2 + [Offer(at)], Run(SITE, steps).minted, at);
    AreAtTheEnd(h, Run(SITE, more).history, Sent(Request("b", Run(SITE, steps).minted, "r1")));
  }

  lemma AreAtTheEnd<T>(h: seq<T>, more: seq<T>, x: T)
    requires h <= more && |more| >= |h| + 2 && more[|more| - 2] == x
    ensures x in more[|h|..]
  {
    assert more[|h|..][|more| - 2 - |h|] == x;
  }

  lemma OneAfterTheOther<T>(h1: seq<T>, h2: seq<T>, x: T, y: T) returns (i: nat, j: nat)
    requires h1 <= h2 && x in h1 && y in h2[|h1|..]
    ensures i < j < |h2| && h2[i] == x && h2[j] == y
  {
    i :| 0 <= i < |h1| && h1[i] == x;
    var k :| 0 <= k < |h2[|h1|..]| && h2[|h1|..][k] == y;
    j := |h1| + k;
  }

  /** Two ticks fifteen minutes apart with working commits and confirming answers: two different requests are
      sent, one after the other. */
  lemma TwoRequestsAreSent()
    ensures exists steps, i, j :: var h := Run(SITE, steps).history;
      0 <= i < j < |h| && h[i] == Sent(Request("b", 0, "r1")) && h[j] == Sent(Request("b", 1, "r1"))
  {
    assert Run(SITE, []) == Boot(SITE);
    hide Run;
    var p1 := SendingInATick([], 1000);
    var p2 := SendingInATick(p1, 901000);
    var (h1, h2) := (Run(SITE, p1).history, Run(SITE, p2).history);
    var i, j := OneAfterTheOther(h1, h2, Sent(Request("b", 0, "r1")), Sent(Request("b", 1, "r1")));
  }

  // ---------------------------------------------------------------- a counter goes back

  const EVENT := RawEvent(Text("1"), Missing, Missing, Missing, Missing)
  const POST := Body(Text(CONTEXT_PREFIX + "b"), Some([EVENT]))
  const UNSYNCED: seq<Fate> := seq(MAX_BATCH + 1, _ => Renamed)

  /** An accepted event whose commit gets as far as the rename. */
  lemma PostIsUnsynced(s: Sys)
    requires s.config == SITE && s.inventoryAt == 1000 && "b" in s.node.mem && s.node.disk.views == [s.node.mem]
    requires s.node.mem["b"].identityValid && s.node.mem["b"].pollAt == 1000
    requires s.node.mem["b"].eventsTotal == 0 && s.node.mem["b"].seen == []
    ensures var n := Apply(s, Events("b", POST, 1000, UNSYNCED)).node;
      n.mem == s.node.mem && |n.disk.views| == 2 && n.disk.views[0] == n.mem && Total(n.disk.views[1], "b") == 1
  {
    OneEvent();
    PostIsAllowed(s.node.mem, 1000, 1000);
    hide PostAllowed, ProjectEvents, AcceptAll, AcceptKey;
    assert UNSYNCED[..2][..1] == [Renamed];
    OneKey(s.node, "b", 1000, ProjectEvent(EVENT), Renamed);
    KeyIsUnsynced(s.node, "b", 1000, ProjectEvent(EVENT));
  }

  lemma OneEvent()
    ensures ProjectEvents([EVENT]) == Some([ProjectEvent(EVENT)])
  {
    assert [EVENT][..0] == [];
    assert [] + [ProjectEvent(EVENT)] == [ProjectEvent(EVENT)];
  }

  lemma PostIsAllowed(m: Document, inventoryAt: int, at: int)
    requires "b" in m && m["b"].identityValid && 0 < m["b"].pollAt <= at <= m["b"].pollAt + 1000
    requires 0 < inventoryAt <= at <= inventoryAt + 1000
    ensures PostAllowed(SITE, m, "b", POST, inventoryAt, at)
  {
    OneEvent();
    assert HOST in SITE.controllers;
  }

  lemma KeyIsUnsynced(n: Node, id: Id, at: int, k: Key)
    requires id in n.mem && n.mem[id].eventsTotal == 0 && n.mem[id].seen == [] && n.disk.views == [n.mem]
    ensures var (n2, o) := AcceptKey(n, id, at, k, Renamed);
      && o == NotDurable && n2.mem == n.mem
      && |n2.disk.views| == 2 && n2.disk.views[0] == n.mem && Total(n2.disk.views[1], id) == 1
  {
  }

  lemma OneKey(n: Node, id: Id, at: int, k: Key, f: Fate)
    requires id in n.mem
    ensures AcceptAll(n, id, at, [k], [f]) == AcceptKey(n, id, at, k, f)
  {
    assert [k][..0] == [] && [f][..0] == [];
    assert AcceptAll(n, id, at, [], []) == (n, Accepted);
  }

  /** A push commit stopped between the rename and the directory sync, then a process restart. */
  lemma RestartedUnsynced() returns (steps: seq<Step>)
    ensures Run(SITE, steps).config == SITE && Loose(Metrics.AsDouble, SITE, steps, "b")
  {
    HostMatches(1000);
    hide Run, InventoryMatches, ValidConfig;
    var p1 := Observed();
    var post := Events("b", POST, 1000, UNSYNCED);
    PostIsUnsynced(Run(SITE, p1));
    RunOn(SITE, p1, post);
    var p2 := p1 + [post];
    RunOn(SITE, p2, ProcessRestart(SITE));
    steps := p2 + [ProcessRestart(SITE)];
    var n := Run(SITE, p2).node;
    Metrics.RoundingIsMonotone(0, 1);
    RestartLoosens(SITE, p2, SITE, "b", n.disk.views[0]);
  }

  /** After it a scrape, a power loss and another scrape, which shows the smaller counter. */
  lemma ACounterGoesBack()
    ensures exists steps :: ShownFalls(Run(SITE, steps).history, "b")
  {
    HostMatches(1000);
    assert HOST in SITE.controllers;
    hide Run, ShownFalls, Interrupted, ValidConfig, Loose;
    var steps := RestartedUnsynced();
    PowerLossTurnsBackIff(SITE, steps, SITE, "b");
  }

  lemma RestartLoosens(cfg: Config, steps: seq<Step>, next: Config, id: Id, v: Document)
    requires ValidConfig(next)
    ensures var views := Run(cfg, steps).node.disk.views;
      v in views && Behind(Metrics.AsDouble, v, Newest(views), id)
      ==> Loose(Metrics.AsDouble, cfg, steps + [ProcessRestart(next)], id)
  {
    hide Run, Behind;
    assert (steps + [ProcessRestart(next)])[..|steps|] == steps;
  }

  // ---------------------------------------------------------------- start-up refuses

  /** Controllers with pairwise different ids. */
  function Numbered(i: nat): Controller {
    Controller(seq(i + 1, _ => 'a'), "redfish", "https://bmc", ["h"], false)
  }

  const FLEET := Config(seq(MAX_CONTROLLERS, i requires 0 <= i => Numbered(i)), false, 180, 86400)
  const LATER := Config([Numbered(MAX_CONTROLLERS)], false, 180, 86400)
  const NOBODY := Inventory(true, 1000, None, [], [])

  lemma FleetIsValid()
    ensures ValidConfig(FLEET) && ValidConfig(LATER)
  {
    assert forall i | 0 <= i <= MAX_CONTROLLERS :: |Numbered(i).id| == i + 1;
  }

  lemma {:induction false} MarkingFleet(k: nat) returns (steps: seq<Step>)
    requires k <= MAX_CONTROLLERS
    ensures var s := Run(FLEET, steps);
      && s.config == FLEET && s.tick == Some(NOBODY) && s.tasks == map[]
      && |s.node.mem| == k && (forall id | id in s.node.mem :: |id| <= k)
      && |s.node.disk.views| > 0 && (k > 0 ==> s.node.disk.views == [s.node.mem])
  {
    if k == 0 {
      assert Run(FLEET, []) == Boot(FLEET);
      hide Run;
      steps := Adopting(FLEET, [], NOBODY, 1000);
    } else {
      hide Run;
      steps := MarkingFleet(k - 1);
      var before := Run(FLEET, steps).node.mem;
      var c := Numbered(k - 1);
      assert FLEET.controllers[k - 1] == c && |c.id| == k;
      steps := Mismatching(FLEET, steps, c, 1000);
      OneMore(before, Run(FLEET, steps).node.mem, c.id);
    }
  }

  lemma OneMore(a: Document, b: Document, id: Id)
    requires b.Keys == a.Keys + {id} && id !in a
    ensures |b| == |a| + 1
  {
    assert |b| == |b.Keys| && |a| == |a.Keys|;
  }

  /** Entries of former controllers are never removed: thirty-two controllers, then another one, and
      start-up refuses the only version of state.json for good. */
  lemma FormerControllersRefuseStart(size: Document -> nat)
    ensures ValidConfig(FLEET) && ValidConfig(LATER)
    ensures exists steps :: var s := Run(FLEET, steps);
      s.node.disk.views == [s.node.mem] && |s.node.mem| == MAX_CONTROLLERS + 1 && !OpenOk(size, s.node.mem)
  {
    FleetIsValid();
    hide Run, ValidConfig;
    var p1 := MarkingFleet(MAX_CONTROLLERS);
    RunOn(FLEET, p1, ProcessRestart(LATER));
    var before := Run(FLEET, p1).node.mem;
    var p3 := Adopting(FLEET, p1 + [ProcessRestart(LATER)], NOBODY, 1000);
    var c := Numbered(MAX_CONTROLLERS);
    assert LATER.controllers[0] == c && |c.id| == MAX_CONTROLLERS + 1;
    var p4 := Mismatching(FLEET, p3, c, 1000);
    OneMore(before, Run(FLEET, p4).node.mem, c.id);
  }

  /** The characters of the system names kept for a controller. */
  function NameLength(xs: seq<System>): nat {
    if xs == [] then 0 else NameLength(xs[..|xs| - 1]) + |xs[|xs| - 1].id|
  }

  /** A serialized document is at least as long as the names in any three of its entries. */
  ghost predicate CountsNames(size: Document -> nat) {
    forall doc: Document, a: Id, b: Id, c: Id | a in doc && b in doc && c in doc && a != b && b != c && a != c ::
      size(doc) >= NameLength(doc[a].diagnostic.reading.systems) + NameLength(doc[b].diagnostic.reading.systems)
                 + NameLength(doc[c].diagnostic.reading.systems)
  }

  const LONG := 1500000
  const VERBOSE := SEEN.(systems := [System(seq(LONG, _ => 'n'), true, true, "")])
  const TRIO := Config([Numbered(0), Numbered(1), Numbered(2)], false, 180, 86400)

  function Entered(i: nat): Registered {
    Registered(Numbered(i).id, "https://bmc", "redfish", ["h"], false)
  }

  const THREE := Inventory(true, 1000, None, [Entered(0), Entered(1), Entered(2)],
                            [Device("h", Numbered(0).id), Device("h", Numbered(1).id), Device("h", Numbered(2).id)])

  lemma TrioMatches(i: nat)
    requires i < 3
    ensures InventoryMatches(Numbered(i), THREE, 1000, MaxAge(TRIO)) && Numbered(i) in TRIO.controllers
    ensures |Numbered(i).id| == i + 1
  {
    assert forall j: nat :: |Entered(j).id| == j + 1;
    assert TRIO.controllers[i] == Numbered(i) && THREE.controllers[i] == Entered(i);
    assert THREE.controllers[1..] == [Entered(1), Entered(2)] && THREE.controllers[1..][1..] == [Entered(2)];
    assert FindRegistered(THREE.controllers, Numbered(i).id) == Some(Entered(i));
    assert THREE.devices[i] == Device("h", Numbered(i).id);
  }

  lemma TrioIsValid()
    ensures ValidConfig(TRIO)
  {
    assert forall i | 0 <= i < 3 :: |TRIO.controllers[i].id| == i + 1;
  }

  lemma VerboseLength()
    ensures NameLength(VERBOSE.systems) == LONG
  {
    assert VERBOSE.systems[..0] == [];
  }

  lemma Verbosely() returns (steps: seq<Step>)
    ensures var (s, a, b, c) := (Run(TRIO, steps), Numbered(0).id, Numbered(1).id, Numbered(2).id);
      && s.node.disk.views == [s.node.mem] && s.node.mem.Keys == {a, b, c} && a != b && b != c && a != c
      && s.node.mem[a].diagnostic.reading.systems == s.node.mem[b].diagnostic.reading.systems
      == s.node.mem[c].diagnostic.reading.systems == VERBOSE.systems
  {
    var (a, b, c) := (Numbered(0), Numbered(1), Numbered(2));
    TrioMatches(0);
    TrioMatches(1);
    TrioMatches(2);
    assert Run(TRIO, []) == Boot(TRIO);
    hide Run, InventoryMatches, Numbered;
    steps := Adopting(TRIO, [], THREE, 1000);
    steps := Observing(TRIO, steps, a, VERBOSE, 1000);
    steps := Observing(TRIO, steps, b, VERBOSE, 1000);
    var m := Run(TRIO, steps).node.mem;
    steps := Observing(TRIO, steps, c, VERBOSE, 1000);
    assert m.Keys == {a.id, b.id};
  }

  lemma ThreeAreTooMany(size: Document -> nat, m: Document, a: Id, b: Id, c: Id)
    requires CountsNames(size) && m.Keys == {a, b, c} && a != b && b != c && a != c
    requires NameLength(m[a].diagnostic.reading.systems) == NameLength(m[b].diagnostic.reading.systems) == LONG
    requires NameLength(m[c].diagnostic.reading.systems) == LONG
    ensures size(m) > STATE_LIMIT && !OpenOk(size, m)
  {
    hide NameLength, IdOk;
    assert a in m.Keys && b in m.Keys && c in m.Keys;
  }

  lemma ThreeKeys(m: Document, a: Id, b: Id, c: Id)
    requires m.Keys == {a, b, c} && a != b && b != c && a != c
    ensures |m| == 3
  {
    assert |m| == |m.Keys|;
  }

  /** Nothing bounds what is committed: three replies with slot names of 1.5 million characters, each
      within the reply limit, leave only a state.json that start-up refuses. */
  lemma LongNamesRefuseStart(size: Document -> nat)
    requires CountsNames(size)
    ensures ValidConfig(TRIO)
    ensures exists steps :: var s := Run(TRIO, steps);
      s.node.disk.views == [s.node.mem] && |s.node.mem| == 3 && size(s.node.mem) > STATE_LIMIT && !OpenOk(size, s.node.mem)
  {
    TrioIsValid();
    hide Run, CountsNames, OpenOk, NameLength, ValidConfig;
    VerboseLength();
    var p := Verbosely();
    ThreeAreTooMany(size, Run(TRIO, p).node.mem, Numbered(0).id, Numbered(1).id, Numbered(2).id);
    ThreeKeys(Run(TRIO, p).node.mem, Numbered(0).id, Numbered(1).id, Numbered(2).id);
  }

  // ---------------------------------------------------------------- an inventory nobody was checked against

  const MOVED := Inventory(true, 2000, Some("r2"), [REGISTERED.(endpoint := "https://other")], [Device("h", "b")])

  lemma MovedDoesNotMatch(at: int)
    ensures !InventoryMatches(HOST, MOVED, at, MaxAge(SITE))
  {
    assert MOVED.controllers[0].endpoint == "https://other";
  }

  lemma HostIsShown(m: Document)
    requires "b" in m && m["b"] == DEFAULT_STATE.(identityValid := true, available := true, pollAt := 1000,
                                                  diagnostic := Diagnostic(true, SEEN))
    ensures HostLine("b") in Metrics.Body(SITE, m, 2000, 2000)
  {
    assert HOST in SITE.controllers;
    Metrics.FreshIsShown(SITE, SITE.controllers, m, 2000, 2000, HOST);
    assert "h" in HOST.manages;
  }

  function HostLine(id: Id): Metrics.Sample {
    Metrics.Sample(Metrics.ManagedHostInfo, id, [("host", "h")], 1.0)
  }

  /** Between the adoption of an inventory and the check of a controller, the old verdict counts: a host is
      shown and events are accepted although the controller does not match the inventory in use. */
  lemma AnUncheckedInventoryCounts()
    ensures exists steps :: var s := Run(SITE, steps);
      && s.tick == Some(MOVED) && !InventoryMatches(HOST, MOVED, 2000, MaxAge(s.config))
      && PostAllowed(s.config, s.node.mem, "b", POST, s.inventoryAt, 2000)
      && |s.history| > 0 && s.history[|s.history| - 1].Scraped? && HostLine("b") in Shown(s.history[|s.history| - 1])
  {
    MovedDoesNotMatch(2000);
    hide Run, InventoryMatches, PostAllowed, Metrics.Body, HostLine;
    var p1 := Observed();
    RunOn(SITE, p1, EndTick(false));
    var p3 := Adopting(SITE, p1 + [EndTick(false)], MOVED, 2000);
    RunOn(SITE, p3, Scrape(2000));
    HostIsShown(Run(SITE, p3).node.mem);
    PostIsAllowed(Run(SITE, p3).node.mem, 2000, 2000);
    assert Run(SITE, p3 + [Scrape(2000)]).tick == Some(MOVED);
  }
}
