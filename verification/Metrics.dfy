/** The scrape body (`metrics` in nmc_bmc_observer/src/lib.rs): which samples it holds for which state. */
module Metrics {
  import opened Sequences
  import opened BmcState
  import opened Durability

  /** Metric names, without their common prefix. */
  datatype Name =
    | InventoryFresh | Available | IdentityValid | LastObservationTimestampSeconds | EventPushSupported | EventPushCapabilityKnown
    | EventPushConfigured | EventDeliveryObserved | LastPushTimestampSeconds | PushEventsTotal
    | LogCollectionAvailable | PollingRequired | LogCapacityAvailable
    | LogUsedPercent | ManagedHostInfo | SystemStateKnown | PowerOn | HealthFault | FirmwareInfo
    | ChassisFault | SensorValue | SensorHealthy

  /** One sample line; labels are given before escaping, without the protocol label. The line that belongs
      to no controller has an empty id. */
  datatype Sample = Sample(name: Name, controller: Id, labels: seq<(string, string)>, value: real)

  /** Names of the lines that describe hosts and hardware rather than the observation itself. */
  predicate IsDetail(n: Name) {
    match n
    case LogUsedPercent | ManagedHostInfo | SystemStateKnown | PowerOn | HealthFault => true
    case FirmwareInfo | ChassisFault | SensorValue | SensorHealthy => true
    case _ => false
  }

  /** The spacing of the doubles around n. */
  function Ulp(n: nat): (u: nat)
    ensures u > 0
  {
    if n < EXACT then 1 else 2 * Ulp(n / 2)
  }

  const EXACT: nat := 0x20_0000_0000_0000

  /** The double nearest to n, of two equally near ones the even one (section 4.3.1 of IEEE 754-2008). */
  function AsDouble(n: nat): nat {
    var u := Ulp(n);
    var below := n / u;
    if 2 * (n % u) < u || (2 * (n % u) == u && below % 2 == 0) then below * u else (below + 1) * u
  }

  /** Text is shown up to 128 characters (`text`). */
  function Cut(s: string): (t: string)
    ensures |t| <= 128 && t <= s && (|t| < 128 ==> t == s)
  {
    if |s| <= 128 then s else s[..128]
  }

  function Flag(b: bool): real { if b then 1.0 else 0.0 }

  predicate IsFresh(cfg: Config, s: ControllerState, inventoryAt: int, at: int) {
    && Fresh(inventoryAt, at, cfg.inventoryMaxAgeSeconds * 1000)
    && s.identityValid && s.available
    && Fresh(s.diagnostic.reading.observedAt, at, cfg.staleSeconds * 1000)
  }

  function Summary(cfg: Config, b: Controller, s: ControllerState, inventoryAt: int, at: int): seq<Sample> {
    var p := s.diagnostic.reading;
    var live := IsFresh(cfg, s, inventoryAt, at);
    [ Sample(Available, b.id, [], Flag(live)),
      Sample(IdentityValid, b.id, [], Flag(Fresh(inventoryAt, at, cfg.inventoryMaxAgeSeconds * 1000) && s.identityValid)),
      Sample(LastObservationTimestampSeconds, b.id, [], p.observedAt as real / 1000.0),
      Sample(EventPushSupported, b.id, [], Flag(live && p.pushSupported)),
      Sample(EventPushCapabilityKnown, b.id, [], Flag(live && p.pushKnown)),
      Sample(EventPushConfigured, b.id, [], Flag(s.enrollment.Some? && s.enrollment.value.phase == Configured)),
      Sample(EventDeliveryObserved, b.id, [], Flag(s.pushAt > 0)),
      Sample(LastPushTimestampSeconds, b.id, [], s.pushAt as real / 1000.0),
      Sample(PushEventsTotal, b.id, [], AsDouble(s.eventsTotal) as real),
      Sample(LogCollectionAvailable, b.id, [], Flag(live && p.logsAvailable)),
      Sample(PollingRequired, b.id, [], 1.0),
      Sample(LogCapacityAvailable, b.id, [], Flag(live && p.logUsedPercent.Some?)) ]
  }

  function Hosts(b: Controller, hosts: seq<Id>): seq<Sample> {
    if hosts == [] then []
    else [Sample(ManagedHostInfo, b.id, [("host", hosts[0])], 1.0)] + Hosts(b, hosts[1..])
  }

  function Health(b: Controller, id: string, health: string): seq<Sample> {
    if health == "" then [] else [Sample(HealthFault, b.id, [("resource", Cut(id))], Flag(Cut(health) != "OK"))]
  }

  function SystemLines(b: Controller, x: System): seq<Sample> {
    [Sample(SystemStateKnown, b.id, [("system", Cut(x.id))], Flag(x.available))]
    + (if x.available then [Sample(PowerOn, b.id, [("system", Cut(x.id))], Flag(x.on))] else [])
    + Health(b, x.id, x.health)
  }

  function Systems(b: Controller, xs: seq<System>): seq<Sample> {
    if xs == [] then [] else SystemLines(b, xs[0]) + Systems(b, xs[1..])
  }

  function FirmwareLines(b: Controller, x: Firmware): seq<Sample> {
    [Sample(FirmwareInfo, b.id, [("manager", Cut(x.id)), ("version", Cut(x.version))], 1.0)] + Health(b, x.id, x.health)
  }

  function Firmwares(b: Controller, xs: seq<Firmware>): seq<Sample> {
    if xs == [] then [] else FirmwareLines(b, xs[0]) + Firmwares(b, xs[1..])
  }

  function Faults(b: Controller, xs: seq<(string, bool)>): seq<Sample> {
    if xs == [] then []
    else [Sample(ChassisFault, b.id, [("fault", xs[0].0)], Flag(xs[0].1))] + Faults(b, xs[1..])
  }

  function SensorLines(b: Controller, x: Sensor): seq<Sample> {
    [ Sample(SensorValue, b.id, [("sensor", Cut(x.id)), ("unit", Cut(x.unit))], x.value),
      Sample(SensorHealthy, b.id, [("sensor", Cut(x.id))], Flag(x.healthy)) ]
  }

  function Sensors(b: Controller, xs: seq<Sensor>): seq<Sample> {
    if xs == [] then [] else SensorLines(b, xs[0]) + Sensors(b, xs[1..])
  }

  function Details(b: Controller, p: Reading): seq<Sample> {
    (if p.logUsedPercent.Some? then [Sample(LogUsedPercent, b.id, [], p.logUsedPercent.value as real)] else [])
    + Hosts(b, b.manages) + Systems(b, p.systems) + Firmwares(b, p.firmware) + Faults(b, p.faults) + Sensors(b, p.sensors)
  }

  function ControllerSamples(cfg: Config, b: Controller, s: ControllerState, inventoryAt: int, at: int): seq<Sample> {
    Summary(cfg, b, s, inventoryAt, at)
    + (if IsFresh(cfg, s, inventoryAt, at) then Details(b, s.diagnostic.reading) else [])
  }

  function Scrape(cfg: Config, bs: seq<Controller>, doc: Document, inventoryAt: int, at: int): seq<Sample> {
    if bs == [] then []
    else ControllerSamples(cfg, bs[0], Entry(doc, bs[0].id), inventoryAt, at) + Scrape(cfg, bs[1..], doc, inventoryAt, at)
  }

  /** The whole body: the inventory line, then the controllers. */
  function Body(cfg: Config, doc: Document, inventoryAt: int, at: int): seq<Sample> {
    [Sample(InventoryFresh, "", [], Flag(Fresh(inventoryAt, at, cfg.inventoryMaxAgeSeconds * 1000)))]
    + Scrape(cfg, cfg.controllers, doc, inventoryAt, at)
  }

  // ---------------------------------------------------------------- what a scrape shows

  lemma SummaryIsNoDetail(cfg: Config, b: Controller, s: ControllerState, inventoryAt: int, at: int, x: Sample)
    requires x in Summary(cfg, b, s, inventoryAt, at)
    ensures !IsDetail(x.name) && x.controller == b.id
  {
    hide AsDouble, IsFresh, Fresh, Flag;
    var xs := Summary(cfg, b, s, inventoryAt, at);
    assert forall i | 0 <= i < 12 :: !IsDetail(xs[i].name) && xs[i].controller == b.id;
  }

  // ---------------------------------------------------------------- details, as entries of the reading

  /** t is what is shown of s. */
  predicate Abbreviates(t: string, s: string) {
    |t| <= 128 && t <= s && (|t| < 128 ==> t == s)
  }

  lemma CutAbbreviates(t: string, s: string)
    ensures t == Cut(s) <==> Abbreviates(t, s)
  {
  }

  predicate HasLabel(x: Sample, tag: string, text: string) {
    |x.labels| == 1 && x.labels[0].0 == tag && Abbreviates(x.labels[0].1, text)
  }

  predicate HasLabels(x: Sample, a: string, s: string, b: string, t: string) {
    && |x.labels| == 2 && x.labels[0].0 == a && Abbreviates(x.labels[0].1, s)
    && x.labels[1].0 == b && Abbreviates(x.labels[1].1, t)
  }

  predicate Says(x: Sample, yes: bool) {
    x.value == if yes then 1.0 else 0.0
  }

  predicate OfHealth(x: Sample, id: string, health: string) {
    x.name == HealthFault && health != "" && HasLabel(x, "resource", id) && Says(x, health != "OK")
  }

  predicate OfSystem(x: Sample, s: System) {
    || (x.name == SystemStateKnown && HasLabel(x, "system", s.id) && Says(x, s.available))
    || (x.name == PowerOn && s.available && HasLabel(x, "system", s.id) && Says(x, s.on))
    || OfHealth(x, s.id, s.health)
  }

  predicate OfFirmware(x: Sample, f: Firmware) {
    || (x.name == FirmwareInfo && HasLabels(x, "manager", f.id, "version", f.version) && x.value == 1.0)
    || OfHealth(x, f.id, f.health)
  }

  predicate OfSensor(x: Sample, s: Sensor) {
    || (x.name == SensorValue && HasLabels(x, "sensor", s.id, "unit", s.unit) && x.value == s.value)
    || (x.name == SensorHealthy && HasLabel(x, "sensor", s.id) && Says(x, s.healthy))
  }

  /** The line tells an entry of the reading, or a host of the configuration. */
  ghost predicate Describes(b: Controller, p: Reading, x: Sample) {
    && x.controller == b.id
    && (|| (x.name == LogUsedPercent && x.labels == [] && p.logUsedPercent.Some? && x.value == p.logUsedPercent.value as real)
        || (exists h :: h in b.manages && x.name == ManagedHostInfo && x.labels == [("host", h)] && x.value == 1.0)
        || (exists s :: s in p.systems && OfSystem(x, s))
        || (exists f :: f in p.firmware && OfFirmware(x, f))
        || (exists f :: f in p.faults && x.name == ChassisFault && x.labels == [("fault", f.0)] && Says(x, f.1))
        || (exists s :: s in p.sensors && OfSensor(x, s)))
  }

  lemma HealthIs(b: Controller, id: string, health: string, x: Sample)
    ensures x in Health(b, id, health) <==> x.controller == b.id && OfHealth(x, id, health)
  {
    if x.controller == b.id && OfHealth(x, id, health) {
      CutAbbreviates(x.labels[0].1, id);
      assert x == Sample(HealthFault, b.id, [("resource", Cut(id))], Flag(health != "OK"));
      assert Cut(health) != "OK" <==> health != "OK";
    }
  }

  lemma SystemLinesAre(b: Controller, s: System, x: Sample)
    ensures x in SystemLines(b, s) <==> x.controller == b.id && OfSystem(x, s)
  {
    hide OfHealth, Health, Abbreviates;
    HealthIs(b, s.id, s.health, x);
    if |x.labels| == 1 { CutAbbreviates(x.labels[0].1, s.id); }
    var labels := [("system", Cut(s.id))];
    CutAbbreviates(Cut(s.id), s.id);
    assert x.controller == b.id && x.name == SystemStateKnown && HasLabel(x, "system", s.id) && Says(x, s.available)
      <==> x == Sample(SystemStateKnown, b.id, labels, Flag(s.available));
    assert x.controller == b.id && x.name == PowerOn && HasLabel(x, "system", s.id) && Says(x, s.on)
      <==> x == Sample(PowerOn, b.id, labels, Flag(s.on));
  }

  lemma FirmwareLinesAre(b: Controller, f: Firmware, x: Sample)
    ensures x in FirmwareLines(b, f) <==> x.controller == b.id && OfFirmware(x, f)
  {
    hide OfHealth, Health, Abbreviates;
    HealthIs(b, f.id, f.health, x);
    CutAbbreviates(Cut(f.id), f.id);
    CutAbbreviates(Cut(f.version), f.version);
    if |x.labels| == 2 {
      CutAbbreviates(x.labels[0].1, f.id);
      CutAbbreviates(x.labels[1].1, f.version);
      assert x.labels == [x.labels[0], x.labels[1]];
    }
  }

  lemma SensorLinesAre(b: Controller, s: Sensor, x: Sample)
    ensures x in SensorLines(b, s) <==> x.controller == b.id && OfSensor(x, s)
  {
    hide Abbreviates;
    CutAbbreviates(Cut(s.id), s.id);
    CutAbbreviates(Cut(s.unit), s.unit);
    if |x.labels| == 2 {
      CutAbbreviates(x.labels[0].1, s.id);
      CutAbbreviates(x.labels[1].1, s.unit);
      assert x.labels == [x.labels[0], x.labels[1]];
    }
    if |x.labels| == 1 {
      CutAbbreviates(x.labels[0].1, s.id);
      assert x.labels == [x.labels[0]];
    }
  }

  lemma {:induction false} HostsAre(b: Controller, hosts: seq<Id>, x: Sample)
    ensures x in Hosts(b, hosts) <==>
      x.controller == b.id && exists h :: h in hosts && x.name == ManagedHostInfo && x.labels == [("host", h)] && x.value == 1.0
  {
    if hosts != [] {
      HostsAre(b, hosts[1..], x);
      assert forall h :: h in hosts <==> h == hosts[0] || h in hosts[1..];
    }
  }

  lemma {:induction false} SystemsAre(b: Controller, xs: seq<System>, x: Sample)
    ensures x in Systems(b, xs) <==> x.controller == b.id && exists s :: s in xs && OfSystem(x, s)
  {
    hide SystemLines, OfSystem;
    if xs != [] {
      SystemLinesAre(b, xs[0], x);
      SystemsAre(b, xs[1..], x);
      assert forall s :: s in xs <==> s == xs[0] || s in xs[1..];
    }
  }

  lemma {:induction false} FirmwaresAre(b: Controller, xs: seq<Firmware>, x: Sample)
    ensures x in Firmwares(b, xs) <==> x.controller == b.id && exists f :: f in xs && OfFirmware(x, f)
  {
    hide FirmwareLines, OfFirmware;
    if xs != [] {
      FirmwareLinesAre(b, xs[0], x);
      FirmwaresAre(b, xs[1..], x);
      assert forall f :: f in xs <==> f == xs[0] || f in xs[1..];
    }
  }

  lemma {:induction false} FaultsAre(b: Controller, xs: seq<(string, bool)>, x: Sample)
    ensures x in Faults(b, xs) <==>
      x.controller == b.id && exists f :: f in xs && x.name == ChassisFault && x.labels == [("fault", f.0)] && Says(x, f.1)
  {
    if xs != [] {
      FaultsAre(b, xs[1..], x);
      assert forall f :: f in xs <==> f == xs[0] || f in xs[1..];
    }
  }

  lemma {:induction false} SensorsAre(b: Controller, xs: seq<Sensor>, x: Sample)
    ensures x in Sensors(b, xs) <==> x.controller == b.id && exists s :: s in xs && OfSensor(x, s)
  {
    hide SensorLines, OfSensor;
    if xs != [] {
      SensorLinesAre(b, xs[0], x);
      SensorsAre(b, xs[1..], x);
      assert forall s :: s in xs <==> s == xs[0] || s in xs[1..];
    }
  }

  /** The detail lines are exactly the entries of the reading and the hosts, under their own labels. */
  lemma DetailsAre(b: Controller, p: Reading, x: Sample)
    ensures x in Details(b, p) <==> Describes(b, p, x)
  {
    hide Hosts, Systems, Firmwares, Faults, Sensors, OfSystem, OfFirmware, OfSensor, Says;
    HostsAre(b, b.manages, x);
    SystemsAre(b, p.systems, x);
    FirmwaresAre(b, p.firmware, x);
    FaultsAre(b, p.faults, x);
    SensorsAre(b, p.sensors, x);
  }

  lemma DetailsAreOwn(b: Controller, p: Reading, x: Sample)
    requires x in Details(b, p)
    ensures x.controller == b.id && IsDetail(x.name)
  {
    hide Details, Abbreviates;
    DetailsAre(b, p, x);
  }

  // ---------------------------------------------------------------- who is shown

  /** A host, system, firmware, fault or sensor line names a controller whose state is fresh throughout. */
  lemma {:induction false} DetailMeansFresh(cfg: Config, bs: seq<Controller>, doc: Document, inventoryAt: int, at: int, x: Sample)
    requires x in Scrape(cfg, bs, doc, inventoryAt, at) && IsDetail(x.name)
    ensures IsFresh(cfg, Entry(doc, x.controller), inventoryAt, at)
    ensures exists b :: b in bs && b.id == x.controller
  {
    hide Summary, Details;
    var s := Entry(doc, bs[0].id);
    if x in Scrape(cfg, bs[1..], doc, inventoryAt, at) {
      DetailMeansFresh(cfg, bs[1..], doc, inventoryAt, at, x);
    } else if x in Summary(cfg, bs[0], s, inventoryAt, at) {
      SummaryIsNoDetail(cfg, bs[0], s, inventoryAt, at, x);
    } else {
      DetailsAreOwn(bs[0], s.diagnostic.reading, x);
      assert bs[0] in bs;
    }
  }

  lemma {:induction false} ControllerIsShown(cfg: Config, bs: seq<Controller>, doc: Document, inventoryAt: int, at: int, b: Controller)
    requires b in bs
    ensures forall x | x in ControllerSamples(cfg, b, Entry(doc, b.id), inventoryAt, at) :: x in Scrape(cfg, bs, doc, inventoryAt, at)
  {
    hide ControllerSamples;
    if bs[0] != b { ControllerIsShown(cfg, bs[1..], doc, inventoryAt, at, b); }
  }

  lemma {:induction false} SampleIsOfController(cfg: Config, bs: seq<Controller>, doc: Document, inventoryAt: int, at: int, x: Sample)
    requires x in Scrape(cfg, bs, doc, inventoryAt, at)
    ensures exists b :: b in bs && x in ControllerSamples(cfg, b, Entry(doc, b.id), inventoryAt, at)
  {
    hide ControllerSamples;
    if x in Scrape(cfg, bs[1..], doc, inventoryAt, at) {
      SampleIsOfController(cfg, bs[1..], doc, inventoryAt, at, x);
    } else {
      assert bs[0] in bs;
    }
  }

  /** A scrape shows a detail line exactly when it describes a configured controller that is fresh. */
  lemma DetailsShownIff(cfg: Config, bs: seq<Controller>, doc: Document, inventoryAt: int, at: int, x: Sample)
    requires IsDetail(x.name)
    ensures x in Scrape(cfg, bs, doc, inventoryAt, at) <==>
      exists b :: b in bs && IsFresh(cfg, Entry(doc, b.id), inventoryAt, at)
                  && Describes(b, Entry(doc, b.id).diagnostic.reading, x)
  {
    hide Summary, Details, Describes, Scrape, IsDetail, IsFresh;
    if x in Scrape(cfg, bs, doc, inventoryAt, at) {
      SampleIsOfController(cfg, bs, doc, inventoryAt, at, x);
      var b :| b in bs && x in ControllerSamples(cfg, b, Entry(doc, b.id), inventoryAt, at);
      var s := Entry(doc, b.id);
      if x in Summary(cfg, b, s, inventoryAt, at) { SummaryIsNoDetail(cfg, b, s, inventoryAt, at, x); }
      DetailsAre(b, s.diagnostic.reading, x);
    }
    if b :| b in bs && IsFresh(cfg, Entry(doc, b.id), inventoryAt, at)
            && Describes(b, Entry(doc, b.id).diagnostic.reading, x) {
      DetailsAre(b, Entry(doc, b.id).diagnostic.reading, x);
      ControllerIsShown(cfg, bs, doc, inventoryAt, at, b);
    }
  }

  /** While a controller is fresh each of its hosts is shown; its event counter is shown always. */
  lemma FreshIsShown(cfg: Config, bs: seq<Controller>, doc: Document, inventoryAt: int, at: int, b: Controller)
    requires b in bs
    ensures IsFresh(cfg, Entry(doc, b.id), inventoryAt, at) ==> forall h | h in b.manages ::
      Sample(ManagedHostInfo, b.id, [("host", h)], 1.0) in Scrape(cfg, bs, doc, inventoryAt, at)
    ensures Sample(PushEventsTotal, b.id, [], AsDouble(Total(doc, b.id)) as real) in Scrape(cfg, bs, doc, inventoryAt, at)
  {
    ControllerIsShown(cfg, bs, doc, inventoryAt, at, b);
    hide Scrape, Describes;
    var s := Entry(doc, b.id);
    CounterIsInSummary(cfg, b, s, inventoryAt, at);
    hide Summary, Details, AsDouble, IsFresh;
    forall h | h in b.manages && IsFresh(cfg, s, inventoryAt, at)
      ensures Sample(ManagedHostInfo, b.id, [("host", h)], 1.0) in ControllerSamples(cfg, b, s, inventoryAt, at)
    {
      HostIsDescribed(b, s.diagnostic.reading, h);
      DetailsAre(b, s.diagnostic.reading, Sample(ManagedHostInfo, b.id, [("host", h)], 1.0));
    }
  }

  lemma HostIsDescribed(b: Controller, p: Reading, h: Id)
    requires h in b.manages
    ensures Describes(b, p, Sample(ManagedHostInfo, b.id, [("host", h)], 1.0))
  {
  }

  lemma CounterIsInSummary(cfg: Config, b: Controller, s: ControllerState, inventoryAt: int, at: int)
    ensures Sample(PushEventsTotal, b.id, [], AsDouble(s.eventsTotal) as real) in Summary(cfg, b, s, inventoryAt, at)
  {
    hide AsDouble;
    assert Summary(cfg, b, s, inventoryAt, at)[8] == Sample(PushEventsTotal, b.id, [], AsDouble(s.eventsTotal) as real);
  }

  lemma SummaryValues(cfg: Config, b: Controller, s: ControllerState, inventoryAt: int, at: int, x: Sample)
    requires x in Summary(cfg, b, s, inventoryAt, at)
    ensures x.controller == b.id && x.labels == []
    ensures var (live, p) := (IsFresh(cfg, s, inventoryAt, at), s.diagnostic.reading);
      match x.name
      case Available => x.value == Flag(live)
      case IdentityValid =>
        x.value == Flag(s.identityValid && Fresh(inventoryAt, at, cfg.inventoryMaxAgeSeconds * 1000))
      case LastObservationTimestampSeconds => x.value == p.observedAt as real / 1000.0
      case EventPushSupported => x.value == Flag(live && p.pushSupported)
      case EventPushCapabilityKnown => x.value == Flag(live && p.pushKnown)
      case EventPushConfigured => x.value == Flag(s.enrollment.Some? && s.enrollment.value.phase == Configured)
      case EventDeliveryObserved => x.value == Flag(s.pushAt > 0)
      case LastPushTimestampSeconds => x.value == s.pushAt as real / 1000.0
      case PushEventsTotal => x.value == AsDouble(s.eventsTotal) as real
      case LogCollectionAvailable => x.value == Flag(live && p.logsAvailable)
      case PollingRequired => x.value == 1.0
      case LogCapacityAvailable => x.value == Flag(live && p.logUsedPercent.Some?)
      case _ => false
  {
    hide IsFresh, AsDouble, Fresh, Flag;
    var xs := Summary(cfg, b, s, inventoryAt, at);
    var k :| 0 <= k < 12 && xs[k] == x;
    if k < 6 {
    } else {
    }
  }

  /** Any other line is of the summary of a configured controller, and all of these are shown. */
  lemma SummariesAreShown(cfg: Config, bs: seq<Controller>, doc: Document, inventoryAt: int, at: int, x: Sample)
    ensures x in Scrape(cfg, bs, doc, inventoryAt, at) && !IsDetail(x.name) <==>
      exists b :: b in bs && x in Summary(cfg, b, Entry(doc, b.id), inventoryAt, at)
  {
    hide Summary, Details, Scrape, IsDetail, IsFresh;
    if x in Scrape(cfg, bs, doc, inventoryAt, at) && !IsDetail(x.name) {
      SampleIsOfController(cfg, bs, doc, inventoryAt, at, x);
      var b :| b in bs && x in ControllerSamples(cfg, b, Entry(doc, b.id), inventoryAt, at);
      if x in Details(b, Entry(doc, b.id).diagnostic.reading) { DetailsAreOwn(b, Entry(doc, b.id).diagnostic.reading, x); }
    }
    if b :| b in bs && x in Summary(cfg, b, Entry(doc, b.id), inventoryAt, at) {
      SummaryIsNoDetail(cfg, b, Entry(doc, b.id), inventoryAt, at, x);
      ControllerIsShown(cfg, bs, doc, inventoryAt, at, b);
    }
  }

  /** Whatever counter line a scrape holds, its controller is configured and its value is the double
      nearest to the stored counter. */
  lemma {:induction false} CounterShownIsStored(cfg: Config, bs: seq<Controller>, doc: Document, inventoryAt: int, at: int, x: Sample)
    requires x in Scrape(cfg, bs, doc, inventoryAt, at) && x.name == PushEventsTotal
    ensures x.value == AsDouble(Total(doc, x.controller)) as real
    ensures exists b :: b in bs && b.id == x.controller
  {
    hide Summary, Details;
    var s := Entry(doc, bs[0].id);
    if x in Scrape(cfg, bs[1..], doc, inventoryAt, at) {
      CounterShownIsStored(cfg, bs[1..], doc, inventoryAt, at, x);
    } else if x in Summary(cfg, bs[0], s, inventoryAt, at) {
      SummaryCounter(cfg, bs[0], s, inventoryAt, at, x);
      assert bs[0] in bs;
    } else {
      DetailsAreOwn(bs[0], s.diagnostic.reading, x);
    }
  }

  lemma SummaryCounter(cfg: Config, b: Controller, s: ControllerState, inventoryAt: int, at: int, x: Sample)
    requires x in Summary(cfg, b, s, inventoryAt, at) && x.name == PushEventsTotal
    ensures x.value == AsDouble(s.eventsTotal) as real && x.controller == b.id
  {
  }

  // ---------------------------------------------------------------- rounding

  /** Two doubles u apart with n between them, and u is small against n unless n is exact. */
  lemma {:induction false} UlpFits(n: nat)
    ensures n < EXACT * Ulp(n)
    ensures Ulp(n) > 1 ==> EXACT * Ulp(n) <= 2 * n
  {
    if n >= EXACT { UlpFits(n / 2); }
  }

  lemma {:induction false} UlpGrows(m: nat, n: nat)
    requires m <= n
    ensures Ulp(m) == Ulp(n) || 2 * Ulp(m) <= Ulp(n)
  {
    if m >= EXACT { UlpGrows(m / 2, n / 2); } else { UlpFits(n); }
  }

  lemma RoundsNearby(n: nat)
    ensures var u := Ulp(n); n / u * u <= AsDouble(n) <= (n / u + 1) * u
  {
  }

  /** Rounding to doubles keeps the order, and changes nothing below 2^53. */
  lemma RoundingIsMonotone(m: nat, n: nat)
    requires m <= n
    ensures AsDouble(m) <= AsDouble(n)
    ensures n < EXACT ==> AsDouble(n) == n
  {
    var (u, w) := (Ulp(m), Ulp(n));
    UlpGrows(m, n);
    if u == w {
      SameUlpMonotone(m, n, u);
    } else {
      UlpFits(m);
      UlpFits(n);
      BelowMultiple(m, u, EXACT);
      AboveMultiple(n, w, EXACT / 2);
      RoundsNearby(m);
      RoundsNearby(n);
      assert (m / u + 1) * u <= EXACT * u;
      assert EXACT / 2 * w <= n / w * w;
      assert EXACT * (2 * u) <= EXACT * w;
    }
  }

  lemma SameUlpMonotone(m: nat, n: nat, u: nat)
    requires m <= n && Ulp(m) == Ulp(n) == u
    ensures AsDouble(m) <= AsDouble(n)
  {
    hide Ulp;
    QuotientsOrdered(m, n, u);
    if m / u < n / u {
      ProductsOrdered(m / u + 1, n / u, u);
      RoundsNearby(m);
      RoundsNearby(n);
    } else {
      SameQuotientMonotone(m, n, u, m / u, m % u, n % u);
    }
  }

  lemma SameQuotientMonotone(m: nat, n: nat, u: nat, q: nat, a: nat, b: nat)
    requires Ulp(m) == Ulp(n) == u && m / u == n / u == q && m % u == a <= n % u == b
    ensures AsDouble(m) <= AsDouble(n)
  {
    hide Ulp;
    assert AsDouble(m) == if 2 * a < u || (2 * a == u && q % 2 == 0) then q * u else (q + 1) * u;
    assert AsDouble(n) == if 2 * b < u || (2 * b == u && q % 2 == 0) then q * u else (q + 1) * u;
    ProductsOrdered(q, q + 1, u);
  }

  lemma ProductsOrdered(a: nat, b: nat, u: nat)
    requires a <= b
    ensures a * u <= b * u
  {
  }

  lemma QuotientsOrdered(m: nat, n: nat, u: nat)
    requires m <= n && u > 0
    ensures m / u <= n / u
    ensures m / u == n / u ==> m % u <= n % u
  {
    DivMod(m, u);
    DivMod(n, u);
    var (p, q, a, b) := (m / u, n / u, m % u, n % u);
    assert (q + 1) * u == q * u + u;
    ProductsOrdered(q + 1, if p > q then p else q + 1, u);
  }

  lemma DivMod(n: nat, u: nat)
    requires u > 0
    ensures n == n / u * u + n % u && n % u < u
  {
  }

  lemma BelowMultiple(m: nat, u: nat, k: nat)
    requires u > 0 && m < k * u
    ensures (m / u + 1) * u <= k * u
  {
    DivMod(m, u);
    ProductsOrdered(k, if m / u >= k then m / u else k, u);
    ProductsOrdered(m / u + 1, k, u);
  }

  lemma AboveMultiple(n: nat, u: nat, k: nat)
    requires u > 0 && k * u <= n
    ensures k * u <= n / u * u
  {
    DivMod(n, u);
    assert (n / u + 1) * u == n / u * u + u;
    ProductsOrdered(if n / u < k then n / u + 1 else k, k, u);
    ProductsOrdered(k, n / u, u);
  }

  function Pow2(e: nat): nat {
    if e == 0 then 1 else 2 * Pow2(e - 1)
  }

  /** The natural numbers a double can hold exactly: 53 binary digits and a power of two. */
  ghost predicate IsDouble(d: int) {
    exists k: nat, e: nat :: IsScaled(d, k, e)
  }

  predicate IsScaled(d: int, k: nat, e: nat) {
    k < 0x20_0000_0000_0000 && d == k * Pow2(e)
  }

  lemma {:induction false} UlpIsPower(n: nat) returns (j: nat)
    ensures Ulp(n) == Pow2(j)
  {
    if n < EXACT { j := 0; } else { j := UlpIsPower(n / 2); j := j + 1; }
  }

  lemma {:induction false} PowersDivide(a: nat, b: nat)
    requires a <= b
    ensures Pow2(b) == Pow2(b - a) * Pow2(a) && Pow2(b - a) > 0
    decreases b - a
  {
    if a < b {
      PowersDivide(a, b - 1);
      assert Pow2(b) == 2 * Pow2(b - 1);
      assert 2 * (Pow2(b - 1 - a) * Pow2(a)) == 2 * Pow2(b - 1 - a) * Pow2(a);
    }
  }

  lemma {:induction false} PowIsPositive(e: nat)
    ensures Pow2(e) > 0
  {
    if e > 0 { PowIsPositive(e - 1); }
  }

  /** A double at or above the middle of the range of a spacing is a multiple of it. */
  lemma LargeDoubleIsMultiple(k: nat, e: nat, j: nat)
    requires k < EXACT && k * Pow2(e) >= EXACT / 2 * Pow2(j)
    ensures e >= j && k * Pow2(e) == k * Pow2(e - j) * Pow2(j)
  {
    PowIsPositive(e);
    if e < j {
      PowersDivide(e, j);
      PowersDivide(1, j - e);
      assert Pow2(1) == 2;
      ScaledUp(k, Pow2(e), Pow2(j - e - 1));
    } else {
      PowersDivide(j, e);
      assert k * (Pow2(e - j) * Pow2(j)) == k * Pow2(e - j) * Pow2(j);
    }
  }

  lemma ScaledUp(k: nat, p: nat, q: nat)
    requires k < EXACT && p > 0 && q > 0
    ensures k * p < EXACT / 2 * (q * 2 * p)
  {
    assert EXACT / 2 * (q * 2 * p) == EXACT * (q * p);
    ProductsOrdered(1, q, p);
    ProductsOrdered(EXACT, EXACT, q * p);
    assert k * p < EXACT * p;
    assert EXACT * p <= EXACT * (q * p);
  }

  /** Between two neighbouring multiples of a spacing lies no double, if they are large for it. */
  lemma NoDoubleBetween(q: nat, u: nat, j: nat, d: int)
    requires IsDouble(d) && u == Pow2(j) && (u > 1 ==> EXACT / 2 * u <= q * u)
    ensures d <= q * u || d >= (q + 1) * u
  {
    hide Pow2;
    if u == 1 {
      assert q * u == q && (q + 1) * u == q + 1;
    } else if d > q * u {
      var k: nat, e: nat :| IsScaled(d, k, e);
      PowIsPositive(j);
      LargeDoubleIsMultiple(k, e, j);
      NoMultipleBetween(q, k * Pow2(e - j), u);
    }
  }

  lemma NoMultipleBetween(q: nat, m: nat, u: nat)
    ensures m * u <= q * u || m * u >= (q + 1) * u
  {
    if m <= q { ProductsOrdered(m, q, u); } else { ProductsOrdered(q + 1, m, u); }
  }

  lemma MultiplesAreDoubles(q: nat, u: nat, j: nat)
    requires u == Pow2(j) && q < EXACT
    ensures IsDouble(q * u) && IsDouble((q + 1) * u)
  {
    assert IsScaled(q * u, q, j);
    if q + 1 < EXACT {
      assert IsScaled((q + 1) * u, q + 1, j);
    } else {
      assert Pow2(j + 1) == 2 * u;
      assert IsScaled((q + 1) * u, EXACT / 2, j + 1);
    }
  }

  lemma SmallQuotient(q: nat, u: nat)
    requires (q + 1) * u <= EXACT * u && u > 0
    ensures q < EXACT
  {
    ProductsOrdered(EXACT + 1, if q >= EXACT then q + 1 else EXACT + 1, u);
    assert (EXACT + 1) * u == EXACT * u + u;
  }

  function Distance(a: int, b: int): nat {
    if a <= b then b - a else a - b
  }

  /** A counter is shown as the double nearest to it; if another one is equally near, as the one whose last
      binary digit is even. */
  lemma CounterIsRoundedToNearest(n: nat, d: int)
    requires IsDouble(d)
    ensures IsDouble(AsDouble(n))
    ensures Distance(n, AsDouble(n)) <= Distance(n, d)
    ensures Distance(n, AsDouble(n)) == Distance(n, d) && d != AsDouble(n) ==> AsDouble(n) / Ulp(n) % 2 == 0
  {
    hide Ulp, AsDouble, IsDouble;
    var (u, q, r) := (Ulp(n), n / Ulp(n), n % Ulp(n));
    Neighbours(n, d, u, q);
    DivMod(n, u);
    RoundedIs(n, u, q, r);
    MultipleDivides(q, u);
    MultipleDivides(q + 1, u);
    assert (q + 1) * u == q * u + u;
    Nearer(n, q * u, (q + 1) * u, u, r, d, AsDouble(n));
    EvenIfTied(q, u, r, AsDouble(n));
  }

  lemma Neighbours(n: nat, d: int, u: nat, q: nat)
    requires IsDouble(d) && u == Ulp(n) && q == n / u
    ensures IsDouble(q * u) && IsDouble((q + 1) * u)
    ensures d <= q * u || d >= (q + 1) * u
  {
    hide IsDouble, Pow2;
    var j := UlpIsPower(n);
    UlpFits(n);
    hide Ulp;
    BelowMultiple(n, u, EXACT);
    SmallQuotient(q, u);
    if u > 1 { AboveMultiple(n, u, EXACT / 2); }
    MultiplesAreDoubles(q, u, j);
    NoDoubleBetween(q, u, j, d);
  }

  lemma RoundedIs(n: nat, u: nat, q: nat, r: nat)
    requires u == Ulp(n) && q == n / u && r == n % u
    ensures AsDouble(n) == if 2 * r < u || (2 * r == u && q % 2 == 0) then q * u else (q + 1) * u
  {
    hide Ulp;
  }

  lemma Nearer(n: int, low: int, high: int, u: int, r: int, d: int, a: int)
    requires low + u == high && n == low + r && 0 <= r < u && (d <= low || d >= high)
    requires (2 * r < u && a == low) || (2 * r > u && a == high) || (2 * r == u && (a == low || a == high))
    ensures Distance(n, a) <= Distance(n, d)
    ensures Distance(n, a) == Distance(n, d) && d != a ==> 2 * r == u
  {
  }

  lemma EvenIfTied(q: int, u: int, r: int, a: int)
    requires u > 0 && q * u / u == q && (q + 1) * u / u == q + 1
    requires a == if 2 * r < u || (2 * r == u && q % 2 == 0) then q * u else (q + 1) * u
    ensures 2 * r == u ==> a / u % 2 == 0
  {
  }

  lemma MultipleDivides(q: nat, u: nat)
    requires u > 0
    ensures q * u / u == q
  {
    DivMod(q * u, u);
    var r := q * u / u;
    NoMultipleBetween(r, q, u);
    NoMultipleBetween(q, r, u);
    assert (r + 1) * u == r * u + u && (q + 1) * u == q * u + u;
  }
}
