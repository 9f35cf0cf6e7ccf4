/** What the stored identity flag of a controller is worth: it is the outcome of its last check, which may
    be of an inventory older than the one in use. */
module Identity {
  import opened Sequences
  import opened BmcState
  import opened Durability
  import opened Regions
  import opened Machine
  import opened Replay
  import InventoryCheck
  import Metrics

  /** The outcome of the controller's last check, or the flag that came with a reloaded document. */
  ghost function LastFlag(history: seq<Happening>, id: Id): bool {
    if history == [] then false
    else
      var x := history[|history| - 1];
      if x.Checked? && x.controller.id == id then x.valid
      else if x.Reloaded? then Entry(x.doc, id).identityValid
      else LastFlag(history[..|history| - 1], id)
  }

  /** The controller was checked after the last inventory was adopted, in the same process. */
  ghost predicate CheckedSince(history: seq<Happening>, id: Id) {
    && history != []
    && var x := history[|history| - 1];
       (|| (x.Checked? && x.controller.id == id)
        || (!x.Adopted? && !x.Reloaded? && CheckedSince(history[..|history| - 1], id)))
  }

  /** The controller agrees with the inventory: it is in time, its first row with the id names the endpoint,
      protocol and hosts, and each host has a device row that names the controller. */
  ghost predicate Agrees(c: Controller, inv: Inventory, at: int, maxAge: int) {
    InventoryCheck.InTime(inv, at, maxAge) && InventoryCheck.RowAgrees(c, inv) && InventoryCheck.HostsAgree(c, inv)
  }

  /** The j-th happening is the controller's last check, and no adoption or restart came after it. */
  ghost predicate IsLastCheck(history: seq<Happening>, id: Id, j: int) {
    && 0 <= j < |history| && history[j].Checked? && history[j].controller.id == id
    && forall k | j < k < |history| :: !history[k].Adopted? && !history[k].Reloaded?
         && !(history[k].Checked? && history[k].controller.id == id)
  }

  /** That check was of a controller of the list, against the inventory adopted last, and came out as the
      flag says. */
  ghost predicate CurrentCheck(history: seq<Happening>, cs: seq<Controller>, id: Id, flag: bool) {
    exists j :: IsLastCheck(history, id, j) && history[j].controller in cs
      && LastAdopted(history) == Some(history[j].inventory)
      && (flag <==> Agrees(history[j].controller, history[j].inventory, history[j].checkedAt, history[j].maxAge))
  }

  lemma {:induction false} FlagIsReplayed(history: seq<Happening>, id: Id)
    ensures LastFlag(history, id) == Replayed(history, id).identityValid
  {
    if history != [] { FlagIsReplayed(history[..|history| - 1], id); }
  }

  lemma {:induction false} LastCheckOf(history: seq<Happening>, id: Id) returns (j: nat)
    requires CheckedSince(history, id)
    ensures IsLastCheck(history, id, j) && LastFlag(history, id) == history[j].valid
    ensures LastAdopted(history) == LastAdopted(history[..j])
    decreases |history|
  {
    var last := |history| - 1;
    assert history[..last] == history[..|history| - 1];
    if history[last].Checked? && history[last].controller.id == id {
      j := last;
    } else {
      j := LastCheckOf(history[..last], id);
      assert history[..last][..j] == history[..j];
      assert forall k | 0 <= k < last :: history[..last][k] == history[k];
    }
  }

  /** A check since the adoption makes the flag good. */
  lemma CheckedSinceIsCurrent(history: seq<Happening>, cs: seq<Controller>, id: Id)
    requires AllWitnessed(history) && Configured(history, cs) && CheckedSince(history, id)
    ensures CurrentCheck(history, cs, id, LastFlag(history, id))
  {
    hide LastFlag, CheckedSince, LastAdopted, InventoryMatches;
    var j := LastCheckOf(history, id);
    assert Witnessed(history, j);
    var x := history[j];
    InventoryCheck.MatchesIff(x.controller, x.inventory, x.checkedAt, x.maxAge);
  }

  /** A check sets the flag exactly if the controller agrees with the inventory of the tick, withdraws
      availability, and goes on to the diagnosis or to the notice of a gap. */
  lemma ChecksDecide(s: Sys, c: Controller, at: int)
    requires Enabled(s, Begin(c, at))
    ensures var s2 := Apply(s, Begin(c, at));
      var valid := Agrees(c, s.tick.value, at, s.config.inventoryMaxAgeSeconds * 1000);
      && s2.node.disk == s.node.disk && s2.tick == s.tick && s2.inventoryAt == s.inventoryAt
      && s2.node.mem == s.node.mem[c.id := Entry(s.node.mem, c.id).(identityValid := valid, available := false)]
      && s2.tasks == s.tasks[c.id := if valid then Diagnosing else Gap]
  {
    hide InventoryMatches;
    InventoryCheck.MatchesIff(c, s.tick.value, at, s.config.inventoryMaxAgeSeconds * 1000);
  }

  // ---------------------------------------------------------------- the configuration in force

  /** Checks since the last restart were of controllers of this list. */
  ghost predicate Configured(history: seq<Happening>, cs: seq<Controller>) {
    forall j | 0 <= j < |history| && history[j].Checked? && (forall k | j < k < |history| :: !history[k].Reloaded?) ::
      history[j].controller in cs
  }

  /** And so they were at every scrape. */
  ghost predicate ScrapesConfigured(history: seq<Happening>) {
    forall i | 0 <= i < |history| && history[i].Scraped? :: Configured(history[..i], history[i].config.controllers)
  }

  lemma OneMoreConfigured(history: seq<Happening>, x: Happening, cs: seq<Controller>)
    requires Configured(history, cs) || x.Reloaded?
    requires x.Checked? ==> x.controller in cs
    ensures Configured(history + [x], cs)
  {
    var h := history + [x];
    forall j | 0 <= j < |h| && h[j].Checked? && (forall k | j < k < |h| :: !h[k].Reloaded?) ensures h[j].controller in cs {
      if j < |history| {
        assert !h[|history|].Reloaded?;
        assert forall k | j < k < |history| :: h[k] == history[k];
      }
    }
  }

  lemma OneMoreScrape(history: seq<Happening>, x: Happening)
    requires ScrapesConfigured(history) && (x.Scraped? ==> Configured(history, x.config.controllers))
    ensures ScrapesConfigured(history + [x])
  {
    hide Configured;
    var h := history + [x];
    forall i | 0 <= i < |h| && h[i].Scraped? ensures Configured(h[..i], h[i].config.controllers) {
      assert h[..i] == history[..i];
      if i == |history| { assert history[..i] == history; }
    }
  }

  lemma StepConfigures(s: Sys, step: Step)
    requires Enabled(s, step) && Configured(s.history, s.config.controllers) && ScrapesConfigured(s.history)
    ensures var s2 := Apply(s, step); Configured(s2.history, s2.config.controllers) && ScrapesConfigured(s2.history)
  {
    hide Configured, ScrapesConfigured, Diagnose, MarkIdentity, Post, FinishEnrollment, CommitMemory, CommitTo,
      FindRegistered, Project, InventoryMatches, ValidConfig;
    var s2 := Apply(s, step);
    var more := s2.history[|s.history|..];
    assert s2.history == s.history + more && |more| <= 2;
    if |more| >= 1 {
      OneMoreConfigured(s.history, more[0], s2.config.controllers);
      OneMoreScrape(s.history, more[0]);
      assert |more| == 1 ==> more == [more[0]];
      if |more| == 2 {
        OneMoreConfigured(s.history + [more[0]], more[1], s2.config.controllers);
        OneMoreScrape(s.history + [more[0]], more[1]);
        assert s.history + more == s.history + [more[0]] + [more[1]];
      }
    }
  }

  lemma {:induction false} RunConfigures(cfg: Config, steps: seq<Step>)
    ensures var s := Run(cfg, steps); Configured(s.history, s.config.controllers) && ScrapesConfigured(s.history)
  {
    if steps != [] {
      hide Configured, ScrapesConfigured, Apply, Enabled;
      RunConfigures(cfg, steps[..|steps| - 1]);
      var s := Run(cfg, steps[..|steps| - 1]);
      if Enabled(s, steps[|steps| - 1]) { StepConfigures(s, steps[|steps| - 1]); }
    }
  }

  // ---------------------------------------------------------------- what the flag is worth

  /** In every run the flag in memory is the outcome of the controller's last check, or came with the
      document a restart loaded. A controller checked since the last adoption has its flag from a check
      against that inventory, and the flag says whether it agreed. */
  lemma FlagIsLastCheck(cfg: Config, steps: seq<Step>, id: Id)
    ensures var s := Run(cfg, steps);
      && Entry(s.node.mem, id).identityValid == LastFlag(s.history, id)
      && (CheckedSince(s.history, id) ==> CurrentCheck(s.history, s.config.controllers, id, Entry(s.node.mem, id).identityValid))
  {
    RunIsTold(cfg, steps);
    RunConfigures(cfg, steps);
    hide Run, Configured, LastFlag, CheckedSince, CurrentCheck, AllWitnessed, Replayed;
    var s := Run(cfg, steps);
    FlagIsReplayed(s.history, id);
    if CheckedSince(s.history, id) { CheckedSinceIsCurrent(s.history, s.config.controllers, id); }
  }

  /** An inventory was adopted or the process restarted, and the controller was not checked since. */
  ghost predicate Outdated(history: seq<Happening>, id: Id) {
    exists k :: 0 <= k < |history| && (history[k].Adopted? || history[k].Reloaded?)
      && forall j | k < j < |history| :: !(history[j].Checked? && history[j].controller.id == id)
  }

  /** A true flag is of the inventory in use or outdated, and never both. */
  lemma {:induction false} CurrentOrOutdated(history: seq<Happening>, id: Id)
    requires LastFlag(history, id)
    ensures CheckedSince(history, id) <==> !Outdated(history, id)
  {
    var before := history[..|history| - 1];
    var x := history[|history| - 1];
    if x.Adopted? || x.Reloaded? {
      assert Outdated(history, id);
    } else if !(x.Checked? && x.controller.id == id) {
      CurrentOrOutdated(before, id);
      if Outdated(before, id) {
        var k :| 0 <= k < |before| && (before[k].Adopted? || before[k].Reloaded?)
          && forall j | k < j < |before| :: !(before[j].Checked? && before[j].controller.id == id);
        assert history[k] == before[k];
        forall j | k < j < |history| ensures !(history[j].Checked? && history[j].controller.id == id) {
          assert j < |before| ==> history[j] == before[j];
        }
      }
      if Outdated(history, id) {
        var k :| 0 <= k < |history| && (history[k].Adopted? || history[k].Reloaded?)
          && forall j | k < j < |history| :: !(history[j].Checked? && history[j].controller.id == id);
        assert before[k] == history[k];
        forall j | k < j < |before| ensures !(before[j].Checked? && before[j].controller.id == id) {
          assert before[j] == history[j];
        }
      }
    }
  }

  /** The controller counts as identified: by a check against the inventory in use, with which it agreed, or
      by one that an adoption or a restart has outdated. */
  ghost predicate CountsAsIdentified(history: seq<Happening>, cs: seq<Controller>, id: Id) {
    && LastFlag(history, id)
    && (CheckedSince(history, id) ==> CurrentCheck(history, cs, id, true))
    && (CheckedSince(history, id) <==> !Outdated(history, id))
  }

  lemma TrueFlagCounts(history: seq<Happening>, cs: seq<Controller>, id: Id)
    requires AllWitnessed(history) && Configured(history, cs) && Replayed(history, id).identityValid
    ensures CountsAsIdentified(history, cs, id)
  {
    hide Configured, LastFlag, CheckedSince, CurrentCheck, Outdated, AllWitnessed, Replayed;
    FlagIsReplayed(history, id);
    CurrentOrOutdated(history, id);
    if CheckedSince(history, id) { CheckedSinceIsCurrent(history, cs, id); }
  }

  /** Host and hardware lines are shown only for such a controller. */
  lemma ShownHostsWereChecked(cfg: Config, steps: seq<Step>, i: nat, x: Metrics.Sample)
    requires var h := Run(cfg, steps).history;
      i < |h| && h[i].Scraped? && x in Shown(h[i]) && Metrics.IsDetail(x.name)
    ensures var h := Run(cfg, steps).history; CountsAsIdentified(h[..i], h[i].config.controllers, x.controller)
  {
    RunIsTold(cfg, steps);
    RunConfigures(cfg, steps);
    hide Run, Configured, CountsAsIdentified, Replayed, LastPost, InventoryTime, LastAdopted, Past;
    var h := Run(cfg, steps).history;
    var g := h[i];
    assert Witnessed(h, i);
    BeginningIsWitnessed(h, i);
    Metrics.DetailMeansFresh(g.config, g.config.controllers, g.doc, g.inventoryAt, g.at, x);
    assert FactsOf(Entry(g.doc, x.controller)) == Replayed(h[..i], x.controller);
    TrueFlagCounts(h[..i], g.config.controllers, x.controller);
  }

  /** And event posts are let in only for such a controller. */
  lemma AllowedPostsWereChecked(cfg: Config, steps: seq<Step>, id: Id, body: Body, at: int)
    requires var s := Run(cfg, steps); PostAllowed(s.config, s.node.mem, id, body, s.inventoryAt, at)
    ensures CountsAsIdentified(Run(cfg, steps).history, Run(cfg, steps).config.controllers, id)
  {
    RunIsTold(cfg, steps);
    RunConfigures(cfg, steps);
    hide Run, Configured, CountsAsIdentified, Replayed, LastPost, InventoryTime, LastAdopted, Past;
    var s := Run(cfg, steps);
    assert FactsOf(Entry(s.node.mem, id)) == Replayed(s.history, id);
    TrueFlagCounts(s.history, s.config.controllers, id);
  }

  /** Adopting the inventory leaves a true flag for a controller with which it does not agree. */
  ghost predicate Outdates(s: Sys, inv: Inventory, at: int, id: Id) {
    && Enabled(s, UseInventory(inv, at))
    && var s2 := Apply(s, UseInventory(inv, at));
       && s2.tick == Some(inv) && Entry(s2.node.mem, id).identityValid && !CheckedSince(s2.history, id)
       && forall c: Controller | c.id == id :: !InventoryCheck.RowAgrees(c, inv)
  }

  /** The gap opens exactly so: between ticks of any run, some inventory that is accepted as current leaves
      a true flag for a controller with no row in it if and only if the flag is true now. */
  lemma AdoptionOutdatesIff(cfg: Config, steps: seq<Step>, id: Id, at: int)
    requires ValidConfig(cfg) && at > 0 && Run(cfg, steps).tick.None? && Run(cfg, steps).tasks == map[]
    ensures (exists inv :: Outdates(Run(cfg, steps), inv, at, id)) <==> Entry(Run(cfg, steps).node.mem, id).identityValid
  {
    ConfigStaysValid(cfg, steps);
    hide Run, ControllerOk;
    var s := Run(cfg, steps);
    if Entry(s.node.mem, id).identityValid {
      var inv := Inventory(true, at, None, [], []);
      EmptyOutdates(s, at, id);
      assert Outdates(s, inv, at, id);
    }
  }

  lemma EmptyOutdates(s: Sys, at: int, id: Id)
    requires MaxAge(s.config) >= 0 && at > 0 && s.tick.None? && s.tasks == map[] && Entry(s.node.mem, id).identityValid
    ensures Outdates(s, Inventory(true, at, None, [], []), at, id)
  {
  }

  lemma {:induction false} ConfigStaysValid(cfg: Config, steps: seq<Step>)
    requires ValidConfig(cfg)
    ensures ValidConfig(Run(cfg, steps).config)
  {
    hide ValidConfig;
    if steps != [] {
      var (s, step) := (Run(cfg, steps[..|steps| - 1]), steps[|steps| - 1]);
      ConfigStaysValid(cfg, steps[..|steps| - 1]);
      if Enabled(s, step) { ConfigComesFromRestart(s, step); }
    }
  }

  lemma ConfigComesFromRestart(s: Sys, step: Step)
    requires Enabled(s, step) && ValidConfig(s.config)
    ensures ValidConfig(Apply(s, step).config)
  {
    hide ControllerOk, Diagnose, MarkIdentity, Post, Killed, PoweredOff, FinishEnrollment, InventoryMatches;
  }
}
