/** The critical sections of the observer: what each does to memory and disk while it holds the
    store lock. Every commit inside a section takes its fate from outside. */
module Regions {
  import opened Sequences
  import opened BmcState
  import opened Durability

  // ---------------------------------------------------------------- event delivery (lib.rs)

  datatype Field = Missing | NotText | Text(text: string)
  datatype RawEvent = RawEvent(eventId: Field, timestamp: Field, kind: Field, severity: Field, messageId: Field)

  /** events is None when `Events` is not an array. */
  datatype Body = Body(context: Field, events: Option<seq<RawEvent>>)

  datatype Outcome = Accepted | Rejected | Exhausted | NotDurable

  const MAX_BATCH: nat := 32
  const CONTEXT_PREFIX := "continuum-bmc/"

  function Short(f: Field): string {
    if f.Text? then (if |f.text| <= 128 then f.text else f.text[..128]) else ""
  }

  predicate EventOk(e: RawEvent) {
    && e.eventId.Text? && 0 < |e.eventId.text| <= 256
    && (e.timestamp.Missing? || (e.timestamp.Text? && |e.timestamp.text| <= 128))
  }

  function ProjectEvent(e: RawEvent): Key
    requires EventOk(e)
  {
    Key(e.eventId.text, Short(e.timestamp), Short(e.kind), Short(e.severity), Short(e.messageId))
  }

  function ProjectEvents(es: seq<RawEvent>): (r: Option<seq<Key>>)
    ensures r.Some? <==> forall e | e in es :: EventOk(e)
    ensures r.Some? ==> |r.value| == |es|
  {
    if es == [] then Some([])
    else if !EventOk(es[|es| - 1]) then None
    else
      var rest := ProjectEvents(es[..|es| - 1]);
      if rest.None? then None else Some(rest.value + [ProjectEvent(es[|es| - 1])])
  }

  predicate PostAllowed(cfg: Config, mem: Document, id: Id, body: Body, inventoryAt: int, at: int) {
    && id in Ids(cfg.controllers)
    && id in mem
    && mem[id].identityValid
    && Fresh(inventoryAt, at, cfg.inventoryMaxAgeSeconds * 1000)
    && Fresh(mem[id].pollAt, at, cfg.staleSeconds * 1000)
    && body.context == Text(CONTEXT_PREFIX + id)
    && body.events.Some?
    && 0 < |body.events.value| <= MAX_BATCH
    && ProjectEvents(body.events.value).Some?
  }

  function Slide(seen: seq<Key>, k: Key): seq<Key> {
    var pushed := seen + [k];
    if |pushed| > WINDOW then pushed[1..] else pushed
  }

  /** The key enters the window. */
  function Slid(c: ControllerState, k: Key): ControllerState {
    c.(seen := Slide(c.seen, k))
  }

  /** The key enters the window and is counted. */
  function Counted(c: ControllerState, k: Key): ControllerState {
    Slid(c, k).(eventsTotal := c.eventsTotal + 1, accepted := c.accepted + [k])
  }

  /** One turn of the loop over the batch. */
  function AcceptKey(n: Node, id: Id, at: int, k: Key, f: Fate): (r: (Node, Outcome))
    requires id in n.mem
    ensures id in r.0.mem
  {
    var c := n.mem[id];
    if k in c.seen then (n, Accepted)
    else if c.eventsTotal == COUNTER_MAX then
      (n.(mem := n.mem[id := Slid(c, k)]), Exhausted)
    else
      var m := n.mem[id := Counted(c, k)];
      var d := CommitTo(n.disk, m, PushEvent(id, at, k), f);
      if f.Committed? then (Node(m, d), Accepted) else (Node(n.mem, d), NotDurable)
  }

  function Receipt(n: Node, id: Id, at: int, f: Fate): (r: (Node, Outcome))
    requires id in n.mem
    ensures id in r.0.mem
  {
    var m := n.mem[id := n.mem[id].(pushAt := at)];
    var d := CommitTo(n.disk, m, PushReceipt(id, at), f);
    if f.Committed? then (Node(m, d), Accepted) else (Node(n.mem, d), NotDurable)
  }

  /** The loop over the batch: it ends at the first event that is not accepted. */
  function AcceptAll(n: Node, id: Id, at: int, keys: seq<Key>, fates: seq<Fate>): (r: (Node, Outcome))
    requires id in n.mem && |fates| == |keys|
    ensures id in r.0.mem
    decreases |keys|
  {
    if keys == [] then (n, Accepted)
    else
      var last := |keys| - 1;
      var (n1, o) := AcceptAll(n, id, at, keys[..last], fates[..last]);
      if o != Accepted then (n1, o) else AcceptKey(n1, id, at, keys[last], fates[last])
  }

  lemma AcceptAllStep(n: Node, id: Id, at: int, keys: seq<Key>, fates: seq<Fate>, i: nat, fate: Fate)
    requires id in n.mem && i < |keys| && |fates| == i
    requires AcceptAll(n, id, at, keys[..i], fates).1 == Accepted
    ensures AcceptAll(n, id, at, keys[..i + 1], fates + [fate])
         == AcceptKey(AcceptAll(n, id, at, keys[..i], fates).0, id, at, keys[i], fate)
  {
    assert keys[..i + 1][..i] == keys[..i] && (fates + [fate])[..i] == fates;
  }

  lemma {:induction false} AcceptAllStops(n: Node, id: Id, at: int, keys: seq<Key>, fates: seq<Fate>, i: nat)
    requires id in n.mem && |fates| == |keys| && i <= |keys|
    requires AcceptAll(n, id, at, keys[..i], fates[..i]).1 != Accepted
    ensures AcceptAll(n, id, at, keys, fates) == AcceptAll(n, id, at, keys[..i], fates[..i])
    decreases |keys|
  {
    if i < |keys| {
      var last := |keys| - 1;
      assert keys[..last][..i] == keys[..i] && fates[..last][..i] == fates[..i];
      AcceptAllStops(n, id, at, keys[..last], fates[..last], i);
    } else {
      assert keys[..i] == keys && fates[..i] == fates;
    }
  }

  lemma {:induction false} AcceptAllNeverRejects(n: Node, id: Id, at: int, keys: seq<Key>, fates: seq<Fate>)
    requires id in n.mem && |fates| == |keys|
    ensures AcceptAll(n, id, at, keys, fates).1 != Rejected
    decreases |keys|
  {
    if keys != [] { AcceptAllNeverRejects(n, id, at, keys[..|keys| - 1], fates[..|keys| - 1]); }
  }

  /** The batch, then the receipt; fates[i] belongs to keys[i], the last one to the receipt. */
  function Deliver(n: Node, id: Id, at: int, keys: seq<Key>, fates: seq<Fate>): (r: (Node, Outcome))
    requires id in n.mem && |fates| == |keys| + 1
    ensures id in r.0.mem
  {
    var (n1, o) := AcceptAll(n, id, at, keys, fates[..|keys|]);
    if o != Accepted then (n1, o) else Receipt(n1, id, at, fates[|keys|])
  }

  function Post(cfg: Config, n: Node, id: Id, body: Body, inventoryAt: int, at: int, fates: seq<Fate>): (Node, Outcome)
    requires |fates| == MAX_BATCH + 1
  {
    if !PostAllowed(cfg, n.mem, id, body, inventoryAt, at) then (n, Rejected)
    else
      var keys := ProjectEvents(body.events.value).value;
      Deliver(n, id, at, keys, fates[..|keys| + 1])
  }

  // ---------------------------------------------------------------- observation (main.rs)

  function MarkIdentity(n: Node, id: Id, valid: bool): Node {
    var c := if id in n.mem then n.mem[id] else DEFAULT_STATE;
    n.(mem := n.mem[id := c.(identityValid := valid, available := false)])
  }

  function CommitMemory(n: Node, r: Record, f: Fate): Node {
    n.(disk := CommitTo(n.disk, n.mem, r, f))
  }

  datatype Next = Done | Failed | Enroll

  predicate WantsPush(cfg: Config, c: Controller, b: Registered, p: Diagnostic) {
    cfg.enrollPush && b.pushEnabled && p.reading.pushSupported && c.eventToken
  }

  predicate NeedsMint(e: Option<Enrollment>, at: int) {
    e.None? || (e.value.phase == Configured && at - e.value.checkedAt >= RECHECK_MS)
  }

  predicate Pending(e: Option<Enrollment>) {
    e.Some? && e.value.phase in {Intent, Unknown}
  }

  /** The controller's entry after a diagnostics reply, before any commit; None when a request had to
      be minted but the inventory names no revision. */
  function Diagnosed(cfg: Config, s: ControllerState, c: Controller, b: Registered, revision: Option<string>,
                     p: Diagnostic, at: int, requestId: nat): Option<ControllerState>
  {
    var s0 := s.(available := p.current, pollAt := at, diagnostic := p);
    if !(WantsPush(cfg, c, b, p) && NeedsMint(s.enrollment, at)) then Some(s0)
    else if revision.None? then None
    else Some(s0.(enrollment := Some(Enrollment(requestId, revision.value, Intent, 0))))
  }

  function Diagnose(cfg: Config, n: Node, c: Controller, b: Registered, revision: Option<string>, p: Diagnostic,
                    at: int, requestId: nat, f0: Fate, f1: Fate): (r: (Node, Next))
    requires c.id in n.mem
    ensures c.id in r.0.mem
  {
    var s := n.mem[c.id];
    var s1 := Diagnosed(cfg, s, c, b, revision, p, at, requestId);
    if s1.None? then (n.(mem := n.mem[c.id := s.(available := p.current, pollAt := at, diagnostic := p)]), Failed)
    else
      var n1 := n.(mem := n.mem[c.id := s1.value]);
      var n2 := CommitMemory(n1, Observation(c.id, at, p), f0);
      if !f0.Committed? then (n2, Failed)
      else if !(WantsPush(cfg, c, b, p) && Pending(s1.value.enrollment)) then (n2, Done)
      else
        var n3 := CommitMemory(n2, EnrollmentIntent(c.id, at, s1.value.enrollment), f1);
        (n3, if f1.Committed? then Enroll else Failed)
  }

  function FinishEnrollment(n: Node, id: Id, configured: bool, at: int, f: Fate): Node
    requires id in n.mem && n.mem[id].enrollment.Some?
  {
    var e := n.mem[id].enrollment.value.(phase := if configured then Configured else Unknown, checkedAt := at);
    CommitMemory(n.(mem := n.mem[id := n.mem[id].(enrollment := Some(e))]), EnrollmentResult(id, at, e), f)
  }

  // ---------------------------------------------------------------- restart

  /** The process ends and starts again: memory is reloaded from what state.json shows. Start-up syncs
      nothing, so a power loss may still bring back the older versions. */
  function Killed(n: Node): Node
    requires |n.disk.views| > 0
  {
    n.(mem := n.disk.views[|n.disk.views| - 1])
  }

  /** Power is lost: one version of state.json survives, and memory is reloaded from it. */
  function PoweredOff(n: Node, survivor: nat): Node
    requires survivor < |n.disk.views|
  {
    Node(n.disk.views[survivor], n.disk.(views := [n.disk.views[survivor]]))
  }

  const STATE_LIMIT: nat := 4 * 1024 * 1024

  /** What start-up demands of state.json; size is the length of the serialized document. */
  predicate OpenOk(size: Document -> nat, doc: Document) {
    && size(doc) <= STATE_LIMIT
    && |doc| <= MAX_CONTROLLERS
    && forall id | id in doc :: IdOk(id) && |doc[id].seen| <= WINDOW
  }
}
