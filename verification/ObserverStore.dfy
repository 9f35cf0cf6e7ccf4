/** The observer's `Store` as an object over its memory and its state directory. */
module ObserverStore {
  import opened Sequences
  import opened BmcState
  import opened Durability
  import opened Regions
  import opened Events

  const ROTATE_AT: nat := 16 * 1024 * 1024

  /** Slot 0 is observations.jsonl, slot i is observations.jsonl.i. */
  type Slots = map<nat, seq<Record>>

  /** Which filesystem step of a commit fails: the one after `after` successful steps, if the commit
      has that many. lineSurvives tells whether a journal line whose sync failed is kept. */
  datatype Fault = Fault(after: nat, lineSurvives: bool)

  function Slot(slots: Slots, i: nat): seq<Record> {
    if i in slots then slots[i] else []
  }

  function Retained(slots: Slots): seq<Record> {
    Slot(slots, 3) + Slot(slots, 2) + Slot(slots, 1) + Slot(slots, 0)
  }

  function Size(rs: seq<Record>, bytes: Record -> nat): nat {
    if rs == [] then 0 else Size(rs[..|rs| - 1], bytes) + bytes(rs[|rs| - 1])
  }

  /** A file grows only while it is within the rotation limit. */
  ghost predicate Fits(rs: seq<Record>, bytes: Record -> nat) {
    rs == [] || Size(rs[..|rs| - 1], bytes) <= ROTATE_AT
  }

  ghost predicate JournalOk(slots: Slots, written: seq<Record>, bytes: Record -> nat) {
    && (forall i | i in slots :: i <= 3)
    && IsSuffix(Retained(slots), written)
    && (forall i | i in slots :: Fits(slots[i], bytes))
  }

  function SlotSizes(slots: Slots, bytes: Record -> nat): nat {
    Size(Slot(slots, 3), bytes) + Size(Slot(slots, 2), bytes) + Size(Slot(slots, 1), bytes) + Size(Slot(slots, 0), bytes)
  }

  /** The rotating journal is bounded: at most four files, each over the limit by at most one line. */
  lemma JournalIsBounded(slots: Slots, written: seq<Record>, bytes: Record -> nat, line: nat)
    requires JournalOk(slots, written, bytes)
    requires forall r | r in written :: bytes(r) <= line
    ensures |slots| <= 4
    ensures SlotSizes(slots, bytes) <= 4 * (16 * 1024 * 1024 + line)
  {
    NatsBelow(slots.Keys, 4);
    FileIsBounded(slots, 0, written, bytes, line);
    FileIsBounded(slots, 1, written, bytes, line);
    FileIsBounded(slots, 2, written, bytes, line);
    FileIsBounded(slots, 3, written, bytes, line);
  }

  lemma FileIsBounded(slots: Slots, i: nat, written: seq<Record>, bytes: Record -> nat, line: nat)
    requires JournalOk(slots, written, bytes) && i <= 3
    requires forall r | r in written :: bytes(r) <= line
    ensures Size(Slot(slots, i), bytes) <= ROTATE_AT + line
  {
    var rs := Slot(slots, i);
    if rs != [] {
      assert rs[|rs| - 1] in Retained(slots);
      assert rs[|rs| - 1] in written;
    }
  }

  lemma NatsBelow(a: set<nat>, n: nat)
    requires forall x | x in a :: x < n
    ensures |a| <= n
  {
    if n > 0 {
      NatsBelow(a - {n - 1}, n - 1);
      assert |a| <= |a - {n - 1}| + 1;
    } else {
      assert a == {};
    }
  }

  function Shift(slots: Slots, i: nat): Slots
    requires i in slots
  {
    (slots - {i})[i + 1 := slots[i]]
  }

  /** Moving a file one slot up into a free slot keeps the order of the retained records. */
  lemma ShiftKeepsOrder(slots: Slots, i: nat)
    requires i <= 2 && i in slots && i + 1 !in slots
    ensures Retained(Shift(slots, i)) == Retained(slots)
  {
    EmptySlotMoves(Slot(slots, 3), Slot(slots, 2), Slot(slots, 1), Slot(slots, 0));
    var shifted := Shift(slots, i);
    assert Slot(shifted, i) == Slot(slots, i + 1) && Slot(shifted, i + 1) == Slot(slots, i);
    assert forall j: nat | j != i && j != i + 1 :: Slot(shifted, j) == Slot(slots, j);
    if i == 2 {
    } else if i == 1 {
    } else {
    }
  }

  lemma EmptySlotMoves<T>(d: seq<T>, c: seq<T>, b: seq<T>, a: seq<T>)
    ensures [] + c + b + a == c + [] + b + a
    ensures d + [] + b + a == d + b + [] + a
    ensures d + c + [] + a == d + c + a + []
  {
  }

  lemma ShiftKeepsJournal(slots: Slots, i: nat, written: seq<Record>, bytes: Record -> nat)
    requires JournalOk(slots, written, bytes)
    requires i <= 2 && i in slots && i + 1 !in slots
    ensures JournalOk(Shift(slots, i), written, bytes)
  {
    ShiftKeepsOrder(slots, i);
  }

  lemma DropOldestKeepsJournal(slots: Slots, written: seq<Record>, bytes: Record -> nat)
    requires JournalOk(slots, written, bytes) && 3 in slots
    ensures JournalOk(slots - {3}, written, bytes)
  {
    Regroup(Slot(slots, 3), Slot(slots, 2), Slot(slots, 1), Slot(slots, 0), written);
    var rest := slots - {3};
    assert Slot(rest, 3) == [] && Slot(rest, 2) == Slot(slots, 2);
    assert Slot(rest, 1) == Slot(slots, 1) && Slot(rest, 0) == Slot(slots, 0);
  }

  lemma Regroup<T>(a: seq<T>, b: seq<T>, c: seq<T>, d: seq<T>, whole: seq<T>)
    requires IsSuffix(a + b + c + d, whole)
    ensures IsSuffix([] + b + c + d, whole)
  {
  }

  lemma AppendKeepsJournal(slots: Slots, written: seq<Record>, bytes: Record -> nat, line: seq<Record>)
    requires JournalOk(slots, written, bytes)
    requires |line| <= 1 && Size(Slot(slots, 0), bytes) <= ROTATE_AT
    ensures JournalOk(slots[0 := Slot(slots, 0) + line], written + line, bytes)
  {
    hide Fits, IsSuffix;
    OneLineFits(slots, bytes, line);
    SuffixGrows(Slot(slots, 3) + Slot(slots, 2) + Slot(slots, 1), Slot(slots, 0), written, line);
  }

  lemma OneLineFits(slots: Slots, bytes: Record -> nat, line: seq<Record>)
    requires |line| <= 1 && Size(Slot(slots, 0), bytes) <= ROTATE_AT
    ensures Fits(Slot(slots, 0) + line, bytes)
  {
    var current := Slot(slots, 0);
    if |line| == 1 {
      assert (current + line)[..|current|] == current;
    } else {
      assert current + line == current;
    }
  }

  lemma SuffixGrows<T>(a: seq<T>, b: seq<T>, whole: seq<T>, c: seq<T>)
    requires IsSuffix(a + b, whole)
    ensures IsSuffix(a + (b + c), whole + c)
  {
  }

  /** Fates of commits that were never reached are immaterial. */
  ghost function PadFates(n: Node, id: Id, at: int, keys: seq<Key>, fates: seq<Fate>, i: nat): (r: seq<Fate>)
    requires id in n.mem && i <= |keys| && |fates| == i
    requires AcceptAll(n, id, at, keys[..i], fates).1 != Accepted
    ensures |r| == |keys| + 1 && forall f | f in r :: f in fates || f == Committed
    ensures Deliver(n, id, at, keys, r) == AcceptAll(n, id, at, keys[..i], fates)
  {
    var r := fates + seq(|keys| + 1 - i, _ => Committed);
    assert r[..|keys|][..i] == fates;
    AcceptAllStops(n, id, at, keys, r[..|keys|], i);
    r
  }

  /** Nothing but the oldest file has gone, and `line` has come at the end. */
  ghost predicate Keeps(before: Slots, after: Slots, line: seq<Record>) {
    || Retained(after) == Retained(before) + line
    || Slot(before, 3) + Retained(after) == Retained(before) + line
  }

  lemma NothingHappenedKeeps(slots: Slots)
    ensures Keeps(slots, slots, [])
  {
    assert Retained(slots) + [] == Retained(slots);
  }

  lemma DroppingOldestKeeps(slots: Slots)
    requires 3 in slots
    ensures Keeps(slots, slots - {3}, [])
  {
    var rest := slots - {3};
    var (d, c, b, a) := (Slot(slots, 3), Slot(slots, 2), Slot(slots, 1), Slot(slots, 0));
    assert Slot(rest, 3) == [] && Slot(rest, 2) == c && Slot(rest, 1) == b && Slot(rest, 0) == a;
    assert d + ([] + c + b + a) == d + c + b + a + [];
  }

  lemma AppendingKeeps(before: Slots, slots: Slots, line: seq<Record>)
    requires Keeps(before, slots, [])
    ensures Keeps(before, slots[0 := Slot(slots, 0) + line], line)
    ensures Retained(slots) == Retained(before) ==>
      Retained(slots[0 := Slot(slots, 0) + line]) == Retained(before) + line
  {
    AppendExtends(slots, line);
    hide Retained;
    assert Retained(before) + [] == Retained(before);
    assert Slot(before, 3) + (Retained(slots) + line) == Slot(before, 3) + Retained(slots) + line;
  }

  lemma AppendExtends(slots: Slots, line: seq<Record>)
    ensures Retained(slots[0 := Slot(slots, 0) + line]) == Retained(slots) + line
  {
    var older, current := Slot(slots, 3) + Slot(slots, 2) + Slot(slots, 1), Slot(slots, 0);
    var grown := slots[0 := current + line];
    assert Slot(grown, 3) + Slot(grown, 2) + Slot(grown, 1) == older;
    assert older + (current + line) == older + current + line;
  }

  /** The line is at the end of the live file; or it begins a new one, and every file has moved up one place. */
  ghost predicate IsAppended(before: Slots, after: Slots, bytes: Record -> nat, line: Record) {
    if Size(Slot(before, 0), bytes) <= 16 * 1024 * 1024 then after == before[0 := Slot(before, 0) + [line]]
    else Slot(after, 0) == [line] && forall i | 1 <= i <= 3 :: Slot(after, i) == Slot(before, i - 1)
  }

  /** A commit needs no more filesystem steps than this. */
  const MAX_STEPS: nat := 10

  class Store {
    var controllers: Document
    var slots: Slots
    var views: seq<Document>
    ghost var written: seq<Record>
    const bytes: Record -> nat

    ghost predicate Valid()
      reads this
    {
      |views| > 0 && JournalOk(slots, written, bytes)
    }

    ghost function View(): Node
      reads this
    {
      Node(controllers, Disk(views, written))
    }

    /** A state directory without state.json reads as the empty document. */
    constructor (bytes: Record -> nat)
      ensures Valid() && this.bytes == bytes
      ensures View() == Node(map[], Disk([map[]], []))
    {
      controllers, slots, views, written := map[], map[], [map[]], [];
      this.bytes := bytes;
    }

    /** Every rename of the rotation goes to a free name. */
    method Rename(from: nat, to: nat)
      requires from in slots && to !in slots
      modifies this`slots
      ensures slots == (old(slots) - {from})[to := old(slots)[from]]
    {
      slots := (slots - {from})[to := slots[from]];
    }

    /** Makes room in the journal: .3 is dropped, .2, .1 and the live file move up one place. The
        filesystem may fail at any step; what is left then is a journal a later commit can resume. */
    method Rotate(steps: nat) returns (ok: bool, left: nat)
      requires Valid() && 0 in slots
      modifies this`slots
      ensures Valid() && Keeps(old(slots), slots, [])
      ensures ok ==> 0 !in slots && forall i | 1 <= i <= 3 ::
        Slot(slots, i) == Slot(old(slots), i - 1) && (i in slots <==> i - 1 in old(slots))
      ensures steps >= 4 ==> ok && left >= steps - 4
    {
      hide Retained, IsSuffix, Fits;
      left := steps;
      NothingHappenedKeeps(slots);
      var i := 3;
      while i >= 1
        invariant 0 <= i <= 3 && 0 in slots && i + 1 !in slots
        invariant Valid() && slots[0] == old(slots)[0] && left + 3 - i >= steps
        invariant (i == 3 ==> slots == old(slots)) && Keeps(old(slots), slots, [])
        invariant forall j | 0 <= j <= i :: Slot(slots, j) == Slot(old(slots), j) && (j in slots <==> j in old(slots))
        invariant forall j | i + 2 <= j <= 3 :: Slot(slots, j) == Slot(old(slots), j - 1) && (j in slots <==> j - 1 in old(slots))
      {
        if i in slots {
          if left == 0 { return false, 0; }
          left := left - 1;
          if i == 3 {
            DropOldestKeepsJournal(slots, written, bytes);
            DroppingOldestKeeps(slots);
            slots := slots - {3};
          } else {
            ShiftKeepsJournal(slots, i, written, bytes);
            ShiftKeepsOrder(slots, i);
            Rename(i, i + 1);
          }
        }
        i := i - 1;
      }
      if left == 0 { return false, 0; }
      left := left - 1;
      ShiftKeepsJournal(slots, 0, written, bytes);
      ShiftKeepsOrder(slots, 0);
      Rename(0, 1);
      ok := true;
    }

    method Commit(record: Record, fault: Fault) returns (ok: bool, ghost fate: Fate)
      requires Valid()
      modifies this`slots, this`views, this`written
      ensures Valid()
      ensures ok <==> fate.Committed?
      ensures fault.after >= MAX_STEPS ==> ok
      ensures View() == Node(controllers, CommitTo(old(View().disk), controllers, record, fate))
      ensures Keeps(old(slots), slots, written[|old(written)|..])
      ensures Size(Slot(old(slots), 0), bytes) <= 16 * 1024 * 1024 ==>
        Retained(slots) == Retained(old(slots)) + written[|old(written)|..]
    {
      var synced, left;
      ghost var journaled;
      synced, left, journaled := Append(record, fault);
      assert written[|old(written)|..] == if journaled then [record] else [];
      if !synced || left < 3 { return false, Lost(journaled); }  // temporary file created, written, renamed
      views := views + [controllers];
      if left == 3 { return false, Renamed; }
      views := [controllers];
      return true, Committed;
    }

    /** Rotates if the live file is over the limit, then appends one line and syncs it. */
    method Append(record: Record, fault: Fault) returns (synced: bool, left: nat, ghost journaled: bool)
      requires Valid()
      modifies this`slots, this`written
      ensures Valid()
      ensures var line := if journaled then [record] else [];
        && written == old(written) + line
        && Keeps(old(slots), slots, line)
        && (Size(Slot(old(slots), 0), bytes) <= 16 * 1024 * 1024 ==> Retained(slots) == Retained(old(slots)) + line)
      ensures synced ==> journaled
      ensures journaled ==> IsAppended(old(slots), slots, bytes, record)
      ensures fault.after >= 6 ==> synced && left >= fault.after - 6
    {
      hide Retained, IsSuffix, Fits;
      left := fault.after;
      NothingHappenedKeeps(slots);
      assert Retained(slots) == Retained(slots) + [] && written == written + [];
      if 0 in slots && Size(slots[0], bytes) > ROTATE_AT {
        var rotated;
        rotated, left := Rotate(left);
        if !rotated { return false, 0, false; }
      }
      if left == 0 { return false, 0, false; }
      var kept := if left == 1 && !fault.lineSurvives then [] else [record];
      AppendKeepsJournal(slots, written, bytes, kept);
      AppendingKeeps(old(slots), slots, kept);
      slots := slots[0 := Slot(slots, 0) + kept];
      written := written + kept;
      journaled := kept != [];
      if left == 1 { return false, 0, journaled; }
      synced, left := true, left - 2;
    }

    /** The checks in their order, the loop that validates and projects, then the deliveries. */
    method AcceptEvents(cfg: Config, id: Id, body: Body, inventoryAt: int, at: int, faults: nat -> Fault)
      returns (outcome: Outcome, ghost fates: seq<Fate>)
      requires Valid()
      modifies this`controllers, this`slots, this`views, this`written
      ensures Valid()
      ensures |fates| == MAX_BATCH + 1
      ensures (View(), outcome) == Post(cfg, old(View()), id, body, inventoryAt, at, fates)
      ensures (forall i: nat :: faults(i).after >= MAX_STEPS) ==> forall f | f in fates :: f == Committed
      ensures outcome != Rejected <==>
        && (exists c :: c in cfg.controllers && c.id == id) && id in old(controllers)
        && old(controllers)[id].identityValid
        && 0 < inventoryAt <= at && at - inventoryAt <= cfg.inventoryMaxAgeSeconds * 1000
        && 0 < old(controllers)[id].pollAt <= at && at - old(controllers)[id].pollAt <= cfg.staleSeconds * 1000
        && body.context == Text("continuum-bmc/" + id)
        && body.events.Some? && 0 < |body.events.value| <= 32
        && forall e | e in body.events.value :: IsWellFormed(e)
      ensures outcome == Rejected ==> unchanged(this)
    {
      hide Deliver, JournalOk;
      fates := seq(MAX_BATCH + 1, _ => Committed);
      if !(exists c :: c in cfg.controllers && c.id == id) { return Rejected, fates; }
      if id !in controllers { return Rejected, fates; }
      var s := controllers[id];
      if !(&& s.identityValid && Fresh(inventoryAt, at, cfg.inventoryMaxAgeSeconds * 1000)
           && Fresh(s.pollAt, at, cfg.staleSeconds * 1000)) {
        return Rejected, fates;
      }
      if body.context != Text(CONTEXT_PREFIX + id) { return Rejected, fates; }
      if body.events.None? { return Rejected, fates; }
      var events := body.events.value;
      if events == [] || |events| > MAX_BATCH { return Rejected, fates; }
      var keys := [];
      for i := 0 to |events|
        invariant ProjectEvents(events[..i]) == Some(keys)
      {
        assert events[..i + 1][..i] == events[..i];
        if !EventOk(events[i]) { return Rejected, fates; }
        keys := keys + [ProjectEvent(events[i])];
      }
      assert events[..|events|] == events;
      assert PostAllowed(cfg, controllers, id, body, inventoryAt, at);
      ghost var used;
      outcome, used := DeliverBatch(id, at, keys, faults);
      fates := used + seq(MAX_BATCH - |keys|, _ => Committed);
      assert fates[..|keys| + 1] == used;
    }

    method DeliverBatch(id: Id, at: int, keys: seq<Key>, faults: nat -> Fault)
      returns (outcome: Outcome, ghost fates: seq<Fate>)
      requires Valid() && id in controllers
      modifies this`controllers, this`slots, this`views, this`written
      ensures Valid()
      ensures |fates| == |keys| + 1
      ensures (View(), outcome) == Deliver(old(View()), id, at, keys, fates)
      ensures outcome != Rejected
      ensures (forall i: nat :: faults(i).after >= MAX_STEPS) ==> forall f | f in fates :: f == Committed
    {
      hide JournalOk, AcceptKey, Receipt;
      fates := [];
      for i := 0 to |keys|
        invariant Valid() && id in controllers && |fates| == i
        invariant AcceptAll(old(View()), id, at, keys[..i], fates) == (View(), Accepted)
        invariant (forall i: nat :: faults(i).after >= MAX_STEPS) ==> forall f | f in fates :: f == Committed
      {
        ghost var fate;
        outcome, fate := AcceptOne(id, at, keys[i], faults(i));
        AcceptAllStep(old(View()), id, at, keys, fates, i, fate);
        fates := fates + [fate];
        if outcome != Accepted {
          AcceptAllNeverRejects(old(View()), id, at, keys[..i + 1], fates);
          fates := PadFates(old(View()), id, at, keys, fates, i + 1);
          return;
        }
      }
      assert keys[..|keys|] == keys;
      ghost var fate;
      outcome, fate := AcceptReceipt(id, at, faults(|keys|));
      assert (fates + [fate])[..|keys|] == fates;
      fates := fates + [fate];
    }

    method AcceptReceipt(id: Id, at: int, fault: Fault) returns (outcome: Outcome, ghost fate: Fate)
      requires Valid() && id in controllers
      modifies this`controllers, this`slots, this`views, this`written
      ensures Valid()
      ensures (View(), outcome) == Receipt(old(View()), id, at, fate)
      ensures outcome != Rejected
      ensures fault.after >= MAX_STEPS ==> fate == Committed
    {
      var previous := controllers[id].pushAt;
      controllers := controllers[id := controllers[id].(pushAt := at)];
      var ok;
      ok, fate := Commit(PushReceipt(id, at), fault);
      outcome := if ok then Accepted else NotDurable;
      if !ok {
        controllers := controllers[id := controllers[id].(pushAt := previous)];
        assert controllers == old(controllers);
      }
    }

    method AcceptOne(id: Id, at: int, k: Key, fault: Fault) returns (outcome: Outcome, ghost fate: Fate)
      requires Valid() && id in controllers
      modifies this`controllers, this`slots, this`views, this`written
      ensures Valid()
      ensures (View(), outcome) == AcceptKey(old(View()), id, at, k, fate)
      ensures fault.after >= MAX_STEPS ==> fate == Committed
    {
      var previous := controllers[id];
      if k in previous.seen { return Accepted, Committed; }
      var s := Slid(previous, k);
      controllers := controllers[id := s];
      if previous.eventsTotal == COUNTER_MAX { return Exhausted, Committed; }
      s := Counted(previous, k);
      controllers := controllers[id := s];
      assert controllers == old(controllers)[id := s];
      var ok;
      ok, fate := Commit(PushEvent(id, at, k), fault);
      if !ok {
        controllers := controllers[id := previous];
        assert controllers == old(controllers);
        return NotDurable, fate;
      }
      return Accepted, fate;
    }

    method SetIdentity(id: Id, valid: bool)
      requires Valid()
      modifies this`controllers
      ensures Valid()
      ensures View() == MarkIdentity(old(View()), id, valid)
    {
      if id !in controllers { controllers := controllers[id := DEFAULT_STATE]; }
      controllers := controllers[id := controllers[id].(identityValid := valid)];
      controllers := controllers[id := controllers[id].(available := false)];
      assert controllers == MarkIdentity(old(View()), id, valid).mem;
    }

    /** The section after a diagnostics reply: memory first, then one or two commits. */
    method RecordDiagnostic(cfg: Config, c: Controller, b: Registered, revision: Option<string>, p: Diagnostic,
                            at: int, requestId: nat, faults: nat -> Fault)
      returns (next: Next, ghost f0: Fate, ghost f1: Fate)
      requires Valid() && c.id in controllers
      modifies this`controllers, this`slots, this`views, this`written
      ensures Valid()
      ensures (View(), next) == Diagnose(cfg, old(View()), c, b, revision, p, at, requestId, f0, f1)
      ensures (faults(0).after >= MAX_STEPS ==> f0 == Committed) && (faults(1).after >= MAX_STEPS ==> f1 == Committed)
    {
      f0, f1 := Committed, Committed;
      var s := controllers[c.id].(available := p.current, pollAt := at, diagnostic := p);
      controllers := controllers[c.id := s];
      var enroll := false;
      if WantsPush(cfg, c, b, p) {
        if NeedsMint(s.enrollment, at) {
          if revision.None? { return Failed, f0, f1; }
          s := s.(enrollment := Some(Enrollment(requestId, revision.value, Intent, 0)));
          controllers := controllers[c.id := s];
        }
        enroll := Pending(s.enrollment);
      }
      assert controllers == old(controllers)[c.id := s];
      var ok;
      ok, f0 := Commit(Observation(c.id, at, p), faults(0));
      if !ok { return Failed, f0, f1; }
      if !enroll { return Done, f0, f1; }
      ok, f1 := Commit(EnrollmentIntent(c.id, at, s.enrollment), faults(1));
      next := if ok then Enroll else Failed;
    }

    method RecordEnrollment(id: Id, configured: bool, at: int, fault: Fault) returns (ok: bool, ghost fate: Fate)
      requires Valid() && id in controllers && controllers[id].enrollment.Some?
      modifies this`controllers, this`slots, this`views, this`written
      ensures Valid()
      ensures View() == FinishEnrollment(old(View()), id, configured, at, fate) && (ok <==> fate.Committed?)
      ensures fault.after >= MAX_STEPS ==> ok
    {
      var e := controllers[id].enrollment.value;
      e := e.(phase := if configured then Configured else Unknown);
      e := e.(checkedAt := at);
      controllers := controllers[id := controllers[id].(enrollment := Some(e))];
      ok, fate := Commit(EnrollmentResult(id, at, e), fault);
    }
  }
}
