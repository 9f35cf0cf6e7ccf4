/** What a configuration must be (`Config::validate` in nmc_bmc_observer/src/lib.rs). */
module ConfigCheck {
  import opened Sequences
  import opened BmcState

  predicate IsLetterOrDigit(c: char) {
    'a' <= c <= 'z' || 'A' <= c <= 'Z' || '0' <= c <= '9'
  }

  /** 1 to 128 letters, digits, underscores, dots, colons and dashes, the first a letter or a digit. */
  predicate IsName(s: string) {
    && 1 <= |s| <= 128 && IsLetterOrDigit(s[0])
    && forall c | c in s :: IsLetterOrDigit(c) || c == '_' || c == '.' || c == ':' || c == '-'
  }

  predicate IsPinned(c: Controller) {
    && IsName(c.id)
    && (c.protocol == "ipmi" || c.protocol == "redfish" || c.protocol == "turingpi")
    && 1 <= |c.endpoint| <= 512
    && 1 <= |c.manages| <= 32
    && forall h | h in c.manages :: IsName(h)
  }

  predicate InRange(cfg: Config, interval: int) {
    && 60 <= interval <= 900 && 2 * interval <= cfg.staleSeconds <= 3600
    && 300 <= cfg.inventoryMaxAgeSeconds <= 86400
  }

  predicate IsFleet(cs: seq<Controller>) {
    && 1 <= |cs| <= 32
    && (forall c | c in cs :: IsPinned(c))
    && forall i, j | 0 <= i < |cs| && 0 <= j < |cs| && cs[i].id == cs[j].id :: i == j
  }

  /** The checks in their order; ids holds the names seen so far. */
  method Validate(cfg: Config, interval: int) returns (ok: bool)
    ensures ok <==> IsFleet(cfg.controllers) && InRange(cfg, interval)
  {
    hide ControllerOk, IsPinned;
    var cs := cfg.controllers;
    if cs == [] || |cs| > MAX_CONTROLLERS { return false; }
    if !(60 <= interval <= 900 && interval * 2 <= cfg.staleSeconds <= 3600) { return false; }
    if !(300 <= cfg.inventoryMaxAgeSeconds <= 86400) { return false; }
    var ids := {};
    for i := 0 to |cs|
      invariant ids == Ids(cs[..i])
      invariant forall j | 0 <= j < i :: IsPinned(cs[j])
      invariant forall j, k | 0 <= j < k < i :: cs[j].id != cs[k].id
    {
      var c := cs[i];
      ControllerIsPinnedIff(c);
      if c.id in ids {
        assert exists j :: 0 <= j < i && cs[j].id == c.id;
        return false;
      }
      if !ControllerOk(c) { assert c in cs; return false; }
      assert cs[..i + 1] == cs[..i] + [c];
      ids := ids + {c.id};
    }
    return true;
  }

  lemma NameIff(s: string)
    ensures IdOk(s) <==> IsName(s)
  {
    if IsName(s) {
      assert forall i | 0 <= i < |s| :: s[i] in s;
    }
  }

  lemma ControllerIsPinnedIff(c: Controller)
    ensures ControllerOk(c) <==> IsPinned(c)
  {
    hide IdOk, IsName;
    NameIff(c.id);
    forall i | 0 <= i < |c.manages| ensures IdOk(c.manages[i]) <==> IsName(c.manages[i]) {
      NameIff(c.manages[i]);
    }
    if IsPinned(c) { assert forall i | 0 <= i < |c.manages| :: c.manages[i] in c.manages; }
  }

  /** The configurations a restart of the machine may bring are those that some polling interval makes valid. */
  lemma ValidConfigIff(cfg: Config)
    ensures ValidConfig(cfg) <==> IsFleet(cfg.controllers) && exists interval :: InRange(cfg, interval)
  {
    hide ControllerOk, IsPinned;
    var cs := cfg.controllers;
    forall i | 0 <= i < |cs| ensures ControllerOk(cs[i]) <==> IsPinned(cs[i]) {
      ControllerIsPinnedIff(cs[i]);
    }
    if IsFleet(cs) { assert forall i | 0 <= i < |cs| :: cs[i] in cs; }
    if 120 <= cfg.staleSeconds <= 3600 && 300 <= cfg.inventoryMaxAgeSeconds <= 86400 { assert InRange(cfg, 60); }
  }
}
