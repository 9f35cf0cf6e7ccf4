/** The values the BMC observer keeps, configures and reads (nmc_bmc_observer/src/lib.rs). */
module BmcState {
  import opened Sequences

  type Id = string

  const WINDOW: nat := 512
  const COUNTER_MAX: nat := 0xFFFF_FFFF_FFFF_FFFF
  const MAX_CONTROLLERS: nat := 32
  const RECHECK_MS: int := 900000

  /** An event as it is projected before hashing. SHA-256 is taken as injective, so the
      projected event stands for its own key. */
  datatype Key = Key(eventId: string, time: string, kind: string, severity: string, messageId: string)

  datatype Phase = Intent | Unknown | Configured

  datatype Enrollment = Enrollment(requestId: nat, revision: string, phase: Phase, checkedAt: int)

  datatype System = System(id: string, available: bool, on: bool, health: string)
  datatype Firmware = Firmware(id: string, version: string, health: string)
  datatype Sensor = Sensor(id: string, value: real, unit: string, healthy: bool)

  /** What `project` keeps of a diagnostics reply. */
  datatype Reading = Reading(
    observedAt: int, pushSupported: bool, pushKnown: bool, systems: seq<System>, firmware: seq<Firmware>,
    faults: seq<(string, bool)>, sensors: seq<Sensor>, logsAvailable: bool, logUsedPercent: Option<nat>)

  /** `current` is the `fresh` verdict of `project`. */
  datatype Diagnostic = Diagnostic(current: bool, reading: Reading)

  const NO_READING := Reading(0, false, false, [], [], [], [], false, None)
  const NO_DIAGNOSTIC := Diagnostic(false, NO_READING)

  /** `accepted` is an auxiliary history: every key ever counted in this copy of the state, oldest
      first. No operation branches on it. */
  datatype ControllerState = ControllerState(
    identityValid: bool, available: bool, pollAt: int, pushAt: int, eventsTotal: nat, seen: seq<Key>,
    diagnostic: Diagnostic, enrollment: Option<Enrollment>, accepted: seq<Key>)

  const DEFAULT_STATE := ControllerState(false, false, 0, 0, 0, [], NO_DIAGNOSTIC, None, [])

  /** The `controllers` map of state.json. */
  type Document = map<Id, ControllerState>

  datatype Controller = Controller(id: Id, protocol: string, endpoint: string, manages: seq<Id>, eventToken: bool)

  datatype Config = Config(
    controllers: seq<Controller>, enrollPush: bool, staleSeconds: int, inventoryMaxAgeSeconds: int)

  predicate IdOk(s: Id) {
    && 0 < |s| <= 128
    && Alphanumeric(s[0])
    && forall i | 0 <= i < |s| :: Alphanumeric(s[i]) || s[i] in "_.:-"
  }

  predicate Alphanumeric(c: char) {
    '0' <= c <= '9' || 'A' <= c <= 'Z' || 'a' <= c <= 'z'
  }

  predicate ControllerOk(c: Controller) {
    && IdOk(c.id)
    && (c.protocol == "ipmi" || c.protocol == "redfish" || c.protocol == "turingpi")
    && 0 < |c.endpoint| <= 512
    && 0 < |c.manages| <= 32
    && forall i | 0 <= i < |c.manages| :: IdOk(c.manages[i])
  }

  /** `Config::validate`, without the listener, the paths and the name of the token variable. A polling
      interval of 60 to 900 seconds that is at most half of staleSeconds exists from 120 seconds on. */
  predicate ValidConfig(c: Config) {
    && 0 < |c.controllers| <= MAX_CONTROLLERS
    && 120 <= c.staleSeconds <= 3600
    && 300 <= c.inventoryMaxAgeSeconds <= 86400
    && (forall i | 0 <= i < |c.controllers| :: ControllerOk(c.controllers[i]))
    && (forall i, j | 0 <= i < j < |c.controllers| :: c.controllers[i].id != c.controllers[j].id)
  }

  function Ids(cs: seq<Controller>): set<Id> {
    set c | c in cs :: c.id
  }

  lemma {:induction false} IdsAreFew(cs: seq<Controller>)
    ensures |Ids(cs)| <= |cs|
  {
    if cs != [] {
      var rest := cs[..|cs| - 1];
      IdsAreFew(rest);
      assert cs == rest + [cs[|cs| - 1]];
      assert Ids(cs) == Ids(rest) + {cs[|cs| - 1].id};
    } else {
      assert Ids(cs) == {};
    }
  }

  predicate Fresh(t: int, at: int, age: int) {
    t > 0 && t <= at && at - t <= age
  }

  datatype Registered = Registered(id: Id, endpoint: string, protocol: string, manages: seq<Id>, pushEnabled: bool)
  datatype Device = Device(id: Id, controllerId: Id)

  /** `knownCurrent` says the reply's `stale` member is exactly `false`. */
  datatype Inventory = Inventory(
    knownCurrent: bool, generatedAt: int, revision: Option<string>, controllers: seq<Registered>, devices: seq<Device>)

  function FindRegistered(rs: seq<Registered>, id: Id): (r: Option<Registered>)
    ensures r.Some? ==> r.value in rs && r.value.id == id
    ensures r.None? ==> forall x | x in rs :: x.id != id
  {
    if rs == [] then None
    else if rs[0].id == id then Some(rs[0])
    else FindRegistered(rs[1..], id)
  }

  /** Two sorted lists are equal exactly when they hold the same elements as often. */
  predicate InventoryMatches(c: Controller, inv: Inventory, at: int, maxAge: int) {
    && inv.knownCurrent
    && Fresh(inv.generatedAt, at, maxAge)
    && var b := FindRegistered(inv.controllers, c.id);
    && b.Some?
    && multiset(b.value.manages) == multiset(c.manages)
    && b.value.endpoint == c.endpoint
    && b.value.protocol == c.protocol
    && forall h | h in c.manages :: Device(h, c.id) in inv.devices
  }
}
