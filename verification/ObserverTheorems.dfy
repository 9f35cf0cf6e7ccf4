/** The observer's promises, for every run with any interleaving, failed commits and restarts. */
module ObserverTheorems {
  import opened Sequences
  import opened BmcState
  import opened Durability
  import opened Regions
  import opened Machine
  import opened MachineInvariant
  import opened MachineSafety

  /** Memory, or any version of state.json a power loss could bring back. */
  ghost predicate Live(s: Sys, doc: Document) {
    doc == s.node.mem || doc in s.node.disk.views
  }

  // ---------------------------------------------------------------- enrollment

  /** A subscribe request is sent only while every recoverable document names its id and revision as a
      request still to be confirmed. */
  lemma SendsAreDurable(cfg: Config, steps: seq<Step>, id: Id)
    requires Enabled(Run(cfg, steps), Send(id))
    ensures var s := Run(cfg, steps);
      && s.tasks[id].request.id == id
      && |s.node.disk.views| > 0
      && forall v | v in s.node.disk.views :: Wanted(v, s.tasks[id].request)
  {
    RunKeepsInvariant(cfg, steps);
    var s := Run(cfg, steps);
    assert TaskOk(s.tick, s.node, id, s.tasks[id]);
  }

  /** Every send repeats a request minted earlier; a later send of the same controller is never for an
      older request, and it is the same request unless its own was minted in between. */
  lemma SendsFollowMints(cfg: Config, steps: seq<Step>, i: nat, j: nat)
    requires var h := Run(cfg, steps).history;
      i < j < |h| && h[i].Sent? && h[j].Sent? && h[i].request.id == h[j].request.id
    ensures var h := Run(cfg, steps).history;
      && Minted(h[i].request) in h[..i] && Minted(h[j].request) in h[..j]
      && h[i].request.requestId <= h[j].request.requestId
      && (h[i].request == h[j].request || Between(h, i, j, Minted(h[j].request)))
  {
    RunKeepsInvariant(cfg, steps);
    assert SendsAgree(Run(cfg, steps).history, i, j);
  }

  /** A request once sent is given up for a new one only after an answer has confirmed it, across lost
      answers, failed commits and restarts. */
  lemma MintsFollowConfirmations(cfg: Config, steps: seq<Step>, i: nat, j: nat)
    requires var h := Run(cfg, steps).history;
      i < j < |h| && h[i].Sent? && h[j].Minted? && h[i].request.id == h[j].request.id
    ensures var h := Run(cfg, steps).history; ConfirmedBetween(h, i, j, h[i].request)
  {
    RunKeepsInvariant(cfg, steps);
  }

  /** Two different requests sent for one controller: first the earlier one was confirmed, then the later
      one was minted, then it was sent. */
  lemma DifferentSendsAreConfirmed(cfg: Config, steps: seq<Step>, i: nat, j: nat)
    requires var h := Run(cfg, steps).history;
      && i < j < |h| && h[i].Sent? && h[j].Sent? && h[i].request.id == h[j].request.id
      && h[i].request != h[j].request
    ensures var h := Run(cfg, steps).history;
      exists k, m :: i < k < m < j && Confirms(h[k], h[i].request) && h[m] == Minted(h[j].request)
  {
    hide Run;
    var h := Run(cfg, steps).history;
    SendsFollowMints(cfg, steps, i, j);
    var m :| i < m < j && h[m] == Minted(h[j].request);
    MintsFollowConfirmations(cfg, steps, i, m);
    var k :| i < k < m && Confirms(h[k], h[i].request);
  }

  // ---------------------------------------------------------------- deduplication

  /** In memory and in every recoverable document: the counter is the length of the accepted history,
      no key recurs within 513 acceptances, and below the counter's limit the window is exactly
      the last 512 accepted keys. */
  lemma WindowIsTheRecentPast(cfg: Config, steps: seq<Step>, doc: Document, id: Id)
    requires Live(Run(cfg, steps), doc) && id in doc
    ensures doc[id].eventsTotal == |doc[id].accepted|
    ensures var h := doc[id].accepted; forall i, j | 0 <= i < j < |h| && j - i <= 512 :: h[i] != h[j]
    ensures doc[id].eventsTotal < 0xFFFF_FFFF_FFFF_FFFF ==> doc[id].seen == Last(doc[id].accepted, 512)
  {
    RunKeepsInvariant(cfg, steps);
  }

  /** Accepting one key keeps the window exact if and only if the key is a duplicate or the counter
      has room: at the limit the key is pushed, then the request fails without rolling it back. */
  lemma WindowKeptIffCounterHasRoom(n: Node, id: Id, at: int, k: Key, f: Fate)
    requires id in n.mem && StateOk(n.mem[id]) && n.mem[id].seen == Last(n.mem[id].accepted, WINDOW)
    ensures var c := AcceptKey(n, id, at, k, f).0.mem[id];
      c.seen == Last(c.accepted, WINDOW) <==> k in n.mem[id].seen || n.mem[id].eventsTotal < 0xFFFF_FFFF_FFFF_FFFF
  {
    var c := n.mem[id];
    if k !in c.seen && c.eventsTotal < COUNTER_MAX {
      CountedStateOk(c, k);
      SlideIsLast(c, k);
    } else if k !in c.seen {
      assert |c.seen| == WINDOW;
      assert Slide(c.seen, k)[WINDOW - 1] == k;
    }
  }

  function Numbered(i: nat): Key {
    Key(seq(i, _ => 'e'), "", "", "", "")
  }

  /** The failing case: COUNTER_MAX distinct events were counted, then one more arrives. */
  lemma ExhaustedCounterCorruptsWindow(d: Disk, id: Id, at: int, f: Fate)
    ensures var history := seq(COUNTER_MAX, i requires 0 <= i => Numbered(i));
      var c := DEFAULT_STATE.(eventsTotal := COUNTER_MAX, seen := Last(history, WINDOW), accepted := history);
      var (n, o) := AcceptKey(Node(map[id := c], d), id, at, Numbered(COUNTER_MAX), f);
      StateOk(c) && o == Exhausted && n.mem[id].seen != Last(n.mem[id].accepted, WINDOW)
  {
    var history := seq(COUNTER_MAX, i requires 0 <= i => Numbered(i));
    var c := DEFAULT_STATE.(eventsTotal := COUNTER_MAX, seen := Last(history, WINDOW), accepted := history);
    assert forall i | 0 <= i < COUNTER_MAX :: |history[i].eventId| == i;
    assert forall i | 0 <= i < WINDOW :: |c.seen[i].eventId| == COUNTER_MAX - WINDOW + i;
    WindowKeptIffCounterHasRoom(Node(map[id := c], d), id, at, Numbered(COUNTER_MAX), f);
  }

  lemma SlideIsLast(c: ControllerState, k: Key)
    requires c.seen == Last(c.accepted, WINDOW)
    ensures Slide(c.seen, k) == Last(c.accepted + [k], WINDOW)
  {
  }

  /** Write-ahead: what a recoverable document counts is in the journal's full history, in order. */
  lemma CountedEventsAreJournaled(cfg: Config, steps: seq<Step>, doc: Document, id: Id)
    requires Live(Run(cfg, steps), doc) && id in doc
    ensures var keys := PushKeys(Run(cfg, steps).node.disk.written, id);
      IsSubsequence(doc[id].accepted, keys) && doc[id].eventsTotal <= |keys|
  {
    RunKeepsInvariant(cfg, steps);
    SubsequenceIsShorter(doc[id].accepted, PushKeys(Run(cfg, steps).node.disk.written, id));
  }

  // ---------------------------------------------------------------- restarts

  lemma {:induction false} KnownIdsAreOk(cfg: Config, steps: seq<Step>)
    requires ValidConfig(cfg)
    ensures forall id | id in Run(cfg, steps).known :: IdOk(id)
  {
    hide IdOk;
    if steps != [] {
      var (s, step) := (Run(cfg, steps[..|steps| - 1]), steps[|steps| - 1]);
      KnownIdsAreOk(cfg, steps[..|steps| - 1]);
      if Enabled(s, step) { KnownGrows(s, step); }
    }
  }

  lemma KnownGrows(s: Sys, step: Step)
    requires Enabled(s, step)
    ensures Apply(s, step).known <= s.known + if step.ProcessRestart? || step.PowerLoss? then Ids(step.next.controllers) else {}
  {
    hide Diagnose, MarkIdentity, Post, Killed, PoweredOff, FinishEnrollment, InventoryMatches;
  }

  /** Start-up accepts what a run can leave exactly while the file is within 4 MiB and names at most 32
      controllers; the number of names can only be exceeded when more than 32 were ever configured. */
  lemma StartUpAcceptsIff(cfg: Config, steps: seq<Step>, size: Document -> nat, doc: Document)
    requires ValidConfig(cfg) && Live(Run(cfg, steps), doc)
    ensures OpenOk(size, doc) <==> size(doc) <= 4 * 1024 * 1024 && |doc| <= 32
    ensures |Run(cfg, steps).known| <= 32 ==> (OpenOk(size, doc) <==> size(doc) <= 4 * 1024 * 1024)
  {
    hide Run, IdOk, DocCurrent, LocallyDistinct, Journaled, HistoryOk, TasksOk;
    RunKeepsInvariant(cfg, steps);
    KnownIdsAreOk(cfg, steps);
    SubsetIsSmaller(doc.Keys, Run(cfg, steps).known);
    assert |doc| == |doc.Keys|;
  }

  predicate SameControllers(cfg: Config, steps: seq<Step>) {
    forall step | step in steps && (step.ProcessRestart? || step.PowerLoss?) :: step.next.controllers == cfg.controllers
  }

  lemma {:induction false} KnownStay(cfg: Config, steps: seq<Step>)
    requires SameControllers(cfg, steps)
    ensures Run(cfg, steps).known <= Ids(cfg.controllers)
  {
    hide Ids;
    if steps != [] {
      var (s, step) := (Run(cfg, steps[..|steps| - 1]), steps[|steps| - 1]);
      assert step in steps && forall x | x in steps[..|steps| - 1] :: x in steps;
      KnownStay(cfg, steps[..|steps| - 1]);
      if Enabled(s, step) { KnownGrows(s, step); }
    }
  }

  /** With the same controllers at every restart, the length of the file is the only obstacle. */
  lemma SameControllersStart(cfg: Config, steps: seq<Step>, size: Document -> nat, doc: Document)
    requires ValidConfig(cfg) && SameControllers(cfg, steps) && Live(Run(cfg, steps), doc)
    ensures OpenOk(size, doc) <==> size(doc) <= 4 * 1024 * 1024
  {
    hide Run, OpenOk, Live;
    KnownStay(cfg, steps);
    IdsAreFew(cfg.controllers);
    SubsetIsSmaller(Run(cfg, steps).known, Ids(cfg.controllers));
    StartUpAcceptsIff(cfg, steps, size, doc);
  }

  lemma SubsetIsSmaller<T>(a: set<T>, b: set<T>)
    requires a <= b
    ensures |a| <= |b|
  {
    assert b == a + (b - a);
  }

  /** Nothing an observer in flight unwraps is ever missing. */
  lemma UnwrapsNeverFail(cfg: Config, steps: seq<Step>, id: Id)
    requires id in Run(cfg, steps).tasks
    ensures var s := Run(cfg, steps);
      match s.tasks[id]
      case Gap => true
      case Diagnosing => s.tick.Some? && FindRegistered(s.tick.value.controllers, id).Some? && id in s.node.mem
      case _ => id in s.node.mem && s.node.mem[id].enrollment.Some?
  {
    RunKeepsInvariant(cfg, steps);
    var s := Run(cfg, steps);
    assert TaskOk(s.tick, s.node, id, s.tasks[id]);
  }
}
