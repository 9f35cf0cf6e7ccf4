/** The local connection registry of the client (nmc_client/src/Core/CloudAPIClient.cpp). */
module Connections {

  import opened Sequences

  datatype Connection = Connection(name: string, endpoint: string, isActive: bool, token: string)

  /** In-memory state: the entries and the name of the default, empty if there is none. */
  datatype Registry = Registry(connections: seq<Connection>, current: string)

  const NO_CONNECTIONS := Registry([], "")

  /** The configuration file. */
  datatype File = Missing | Corrupt | Stored(registry: Registry)

  /** How one save goes: completed, refused on opening, or cut off in the middle. */
  datatype Write = Written | CannotOpen | Torn

  function Saved(f: File, r: Registry, w: Write): File {
    match w
    case Written => Stored(r)
    case CannotOpen => f
    case Torn => Corrupt
  }

  function Loaded(f: File): Registry {
    if f.Stored? then f.registry else NO_CONNECTIONS
  }

  function FindName(cs: seq<Connection>, name: string): (i: nat)
    ensures i <= |cs| && (i < |cs| ==> cs[i].name == name)
    ensures forall j | 0 <= j < i :: cs[j].name != name
  {
    if cs == [] || cs[0].name == name then 0 else 1 + FindName(cs[1..], name)
  }

  predicate Has(cs: seq<Connection>, name: string) {
    FindName(cs, name) < |cs|
  }

  // ---------------------------------------------------------------- operations

  /** Every entry except the one called `name` becomes inactive. */
  function DeactivateOthers(cs: seq<Connection>, name: string): (r: seq<Connection>)
    ensures |r| == |cs|
    ensures forall i | 0 <= i < |cs| :: r[i] == if cs[i].name != name then cs[i].(isActive := false) else cs[i]
  {
    if cs == [] then []
    else
      var c := cs[|cs| - 1];
      DeactivateOthers(cs[..|cs| - 1], name) + [if c.name != name then c.(isActive := false) else c]
  }

  function DeactivateAll(cs: seq<Connection>): (r: seq<Connection>)
    ensures |r| == |cs|
    ensures forall i | 0 <= i < |cs| :: r[i] == cs[i].(isActive := false)
  {
    if cs == [] then [] else DeactivateAll(cs[..|cs| - 1]) + [cs[|cs| - 1].(isActive := false)]
  }

  function Without(cs: seq<Connection>, name: string): seq<Connection> {
    if cs == [] then []
    else Without(cs[..|cs| - 1], name) + if cs[|cs| - 1].name == name then [] else [cs[|cs| - 1]]
  }

  function Make(r: Registry, name: string, endpoint: string, setDefault: bool, token: string): Registry {
    if Has(r.connections, name) then r
    else
      var cs := r.connections + [Connection(name, endpoint, setDefault, token)];
      if setDefault then Registry(DeactivateOthers(cs, name), name) else Registry(cs, r.current)
  }

  function Drop(r: Registry, name: string): Registry {
    if !Has(r.connections, name) then r
    else Registry(Without(r.connections, name), if r.current == name then "" else r.current)
  }

  function Select(r: Registry, name: string): Registry {
    var i := FindName(r.connections, name);
    if i == |r.connections| then r
    else Registry(DeactivateAll(r.connections)[i := r.connections[i].(isActive := true)], name)
  }

  function Unset(r: Registry): Registry {
    if r.current == "" then r
    else
      var i := FindName(r.connections, r.current);
      Registry(if i < |r.connections| then r.connections[i := r.connections[i].(isActive := false)] else r.connections, "")
  }

  function SetToken(r: Registry, name: string, token: string): Registry {
    var i := FindName(r.connections, name);
    if i == |r.connections| then r else r.(connections := r.connections[i := r.connections[i].(token := token)])
  }

  /** `getConnectionStatus` clears a default that names no entry. */
  function Status(r: Registry): Registry {
    if r.current != "" && !Has(r.connections, r.current) then r.(current := "") else r
  }

  // ---------------------------------------------------------------- the client object

  class Client {
    var connections: seq<Connection>
    var current: string
    var file: File

    function View(): Registry
      reads this
    {
      Registry(connections, current)
    }

    /** Loading creates the file when it is missing. */
    constructor (file: File, w: Write)
      ensures View() == Loaded(file)
      ensures this.file == if file.Missing? then Saved(file, NO_CONNECTIONS, w) else file
    {
      connections, current := Loaded(file).connections, Loaded(file).current;
      this.file := if file.Missing? then Saved(file, NO_CONNECTIONS, w) else file;
    }

    method Save(w: Write)
      modifies this`file
      ensures file == Saved(old(file), View(), w)
    {
      match w
      case Written => file := Stored(View());
      case CannotOpen =>
      case Torn => file := Corrupt;
    }

    method ClearOthers(name: string)
      modifies this`connections
      ensures connections == DeactivateOthers(old(connections), name)
    {
      for i := 0 to |connections|
        invariant |connections| == |old(connections)|
        invariant forall j | 0 <= j < i :: connections[j] == DeactivateOthers(old(connections), name)[j]
        invariant forall j | i <= j < |connections| :: connections[j] == old(connections)[j]
      {
        if connections[i].name != name {
          connections := connections[i := connections[i].(isActive := false)];
        }
      }
    }

    method ClearAll()
      modifies this`connections
      ensures connections == DeactivateAll(old(connections))
    {
      for i := 0 to |connections|
        invariant |connections| == |old(connections)|
        invariant forall j | 0 <= j < i :: connections[j] == DeactivateAll(old(connections))[j]
        invariant forall j | i <= j < |connections| :: connections[j] == old(connections)[j]
      {
        connections := connections[i := connections[i].(isActive := false)];
      }
    }

    method MakeConnection(name: string, endpoint: string, setDefault: bool, token: string, w: Write) returns (ok: bool)
      modifies this
      ensures View() == Make(old(View()), name, endpoint, setDefault, token)
      ensures ok <==> !Has(old(connections), name)
      ensures file == if ok then Saved(old(file), View(), w) else old(file)
    {
      if Has(connections, name) { return false; }
      connections := connections + [Connection(name, endpoint, setDefault, token)];
      if setDefault {
        ClearOthers(name);
        current := name;
      }
      Save(w);
      ok := true;
    }

    method DropConnection(name: string, w: Write) returns (ok: bool)
      modifies this
      ensures View() == Drop(old(View()), name)
      ensures ok <==> Has(old(connections), name)
      ensures file == if ok then Saved(old(file), View(), w) else old(file)
    {
      var kept := [];
      for i := 0 to |connections|
        invariant kept == Without(connections[..i], name)
      {
        assert connections[..i + 1][..i] == connections[..i];
        if connections[i].name != name { kept := kept + [connections[i]]; }
      }
      assert connections[..|connections|] == connections;
      WithoutIsShorterIff(connections, name);
      ok := |kept| < |connections|;
      connections := kept;
      if ok {
        if current == name { current := ""; }
        Save(w);
      }
    }

    method SelectConnection(name: string, w: Write) returns (ok: bool)
      modifies this
      ensures View() == Select(old(View()), name)
      ensures ok <==> Has(old(connections), name)
      ensures file == if ok then Saved(old(file), View(), w) else old(file)
    {
      var found := FindName(connections, name);
      if found == |connections| { return false; }
      ClearAll();
      connections := connections[found := connections[found].(isActive := true)];
      current := name;
      Save(w);
      ok := true;
    }

    method UnsetDefault(w: Write)
      modifies this
      ensures View() == Unset(old(View()))
      ensures file == if old(current) != "" then Saved(old(file), View(), w) else old(file)
    {
      if current == "" { return; }
      var i := FindName(connections, current);
      if i < |connections| { connections := connections[i := connections[i].(isActive := false)]; }
      current := "";
      Save(w);
    }

    method SetConnectionToken(name: string, token: string, w: Write) returns (ok: bool)
      modifies this
      ensures View() == SetToken(old(View()), name, token)
      ensures ok <==> Has(old(connections), name)
      ensures file == if ok then Saved(old(file), View(), w) else old(file)
    {
      var i := FindName(connections, name);
      if i == |connections| { return false; }
      connections := connections[i := connections[i].(token := token)];
      Save(w);
      ok := true;
    }
  }

  lemma {:induction false} WithoutIsShorterIff(cs: seq<Connection>, name: string)
    ensures |Without(cs, name)| <= |cs|
    ensures |Without(cs, name)| < |cs| <==> Has(cs, name)
    ensures !Has(cs, name) ==> Without(cs, name) == cs
    ensures forall c :: c in Without(cs, name) <==> c in cs && c.name != name
  {
    if cs != [] {
      var front, last := cs[..|cs| - 1], cs[|cs| - 1];
      WithoutIsShorterIff(front, name);
      assert cs == front + [last];
      assert Has(cs, name) <==> exists i :: 0 <= i < |cs| && cs[i].name == name;
      assert Has(front, name) <==> exists i :: 0 <= i < |front| && front[i].name == name;
    }
  }

  // ---------------------------------------------------------------- invariant

  predicate Named(cs: seq<Connection>) {
    && (forall i | 0 <= i < |cs| :: cs[i].name != "")
    && (forall i, j | 0 <= i < j < |cs| :: cs[i].name != cs[j].name)
  }

  /** Names are distinct; an entry is active exactly when it is the default; a default names an entry. */
  predicate Consistent(r: Registry) {
    && Named(r.connections)
    && (forall i | 0 <= i < |r.connections| :: r.connections[i].isActive <==> r.connections[i].name == r.current)
    && (r.current != "" ==> Has(r.connections, r.current))
  }

  lemma {:induction false} WithoutKeepsOrder(cs: seq<Connection>, name: string)
    requires Named(cs)
    ensures Named(Without(cs, name))
  {
    if cs != [] {
      var front, last := cs[..|cs| - 1], cs[|cs| - 1];
      WithoutKeepsOrder(front, name);
      WithoutIsShorterIff(front, name);
      var kept := Without(front, name);
      assert Without(cs, name) == kept || Without(cs, name) == kept + [last];
      hide Without;
      forall i | 0 <= i < |kept| ensures kept[i].name != last.name && kept[i].name != "" {
        assert kept[i] in front;
      }
      if Without(cs, name) == kept + [last] { NamedOneMore(kept, last); }
    }
  }

  lemma NamedOneMore(cs: seq<Connection>, c: Connection)
    requires Named(cs) && c.name != "" && forall i | 0 <= i < |cs| :: cs[i].name != c.name
    ensures Named(cs + [c])
  {
  }

  /** Making a connection keeps the registry consistent if and only if its name is not empty. */
  lemma MakeKeepsIff(r: Registry, name: string, endpoint: string, setDefault: bool, token: string)
    requires Consistent(r)
    ensures Consistent(Make(r, name, endpoint, setDefault, token)) <==> name != ""
  {
    var made := Make(r, name, endpoint, setDefault, token);
    if name == "" {
      assert !Has(r.connections, name);
      assert made.connections[|r.connections|].name == "";
    } else if !Has(r.connections, name) {
      var cs := r.connections + [Connection(name, endpoint, setDefault, token)];
      assert Named(cs);
      assert cs[|r.connections|].name == name;
      if r.current != "" {
        assert cs[FindName(r.connections, r.current)].name == r.current;
      }
      if setDefault {
        assert made.connections[|r.connections|].name == name;
      }
    }
  }

  lemma DropKeeps(r: Registry, name: string)
    requires Consistent(r)
    ensures Consistent(Drop(r, name))
  {
    WithoutIsShorterIff(r.connections, name);
    WithoutKeepsOrder(r.connections, name);
    var d := Drop(r, name);
    forall i | 0 <= i < |d.connections| ensures d.connections[i].isActive <==> d.connections[i].name == d.current {
      assert d.connections[i] in r.connections;
    }
    if d.current != "" {
      var c := r.connections[FindName(r.connections, r.current)];
      assert c in r.connections;
      assert c in d.connections;
      var i :| 0 <= i < |d.connections| && d.connections[i] == c;
    }
  }

  lemma SelectKeeps(r: Registry, name: string)
    requires Consistent(r)
    ensures Consistent(Select(r, name))
  {
    var i := FindName(r.connections, name);
    if i < |r.connections| {
      var s := Select(r, name);
      assert s.connections[i].name == name;
    }
  }

  lemma UnsetKeeps(r: Registry)
    requires Consistent(r)
    ensures Consistent(Unset(r))
  {
  }

  lemma SetTokenKeeps(r: Registry, name: string, token: string)
    requires Consistent(r)
    ensures Consistent(SetToken(r, name, token))
  {
    var s := SetToken(r, name, token);
    if r.current != "" {
      assert s.connections[FindName(r.connections, r.current)].name == r.current;
    }
  }

  // ---------------------------------------------------------------- whole histories

  /** What a user can do; `connection make` refuses empty names and endpoints before calling the client. */
  datatype Command =
    | MakeCommand(name: string, endpoint: string, setDefault: bool, token: string)
    | DropCommand(name: string)
    | SelectCommand(name: string)
    | UnsetCommand
    | TokenCommand(name: string, token: string)
    | StatusCommand
    | NewProcess

  datatype Session = Session(registry: Registry, file: File)

  function Execute(s: Session, c: Command, w: Write): Session {
    if c.NewProcess? then
      Session(Loaded(s.file), if s.file.Missing? then Saved(s.file, NO_CONNECTIONS, w) else s.file)
    else
      var r := match c
        case MakeCommand(n, e, d, t) => if n == "" || e == "" then s.registry else Make(s.registry, n, e, d, t)
        case DropCommand(n) => Drop(s.registry, n)
        case SelectCommand(n) => Select(s.registry, n)
        case UnsetCommand => Unset(s.registry)
        case TokenCommand(n, t) => SetToken(s.registry, n, t)
        case StatusCommand => Status(s.registry)
        case NewProcess => s.registry;
      Session(r, if Saves(s.registry, c) then Saved(s.file, r, w) else s.file)
  }

  /** Whether the command reaches `saveConnections`. */
  predicate Saves(r: Registry, c: Command) {
    match c
    case MakeCommand(n, e, _, _) => n != "" && e != "" && !Has(r.connections, n)
    case DropCommand(n) => Has(r.connections, n)
    case SelectCommand(n) => Has(r.connections, n)
    case UnsetCommand => r.current != ""
    case TokenCommand(n, _) => Has(r.connections, n)
    case StatusCommand => r.current != "" && !Has(r.connections, r.current)
    case NewProcess => false
  }

  function History(start: File, cs: seq<(Command, Write)>): Session {
    if cs == [] then Session(Loaded(start), start)
    else Execute(History(start, cs[..|cs| - 1]), cs[|cs| - 1].0, cs[|cs| - 1].1)
  }

  predicate FileOk(f: File) {
    f.Stored? ==> Consistent(f.registry)
  }

  lemma ExecuteKeeps(s: Session, c: Command, w: Write)
    requires Consistent(s.registry) && FileOk(s.file)
    ensures Consistent(Execute(s, c, w).registry) && FileOk(Execute(s, c, w).file)
  {
    match c
    case MakeCommand(n, e, d, t) => MakeKeepsIff(s.registry, n, e, d, t);
    case DropCommand(n) => DropKeeps(s.registry, n);
    case SelectCommand(n) => SelectKeeps(s.registry, n);
    case UnsetCommand => UnsetKeeps(s.registry);
    case TokenCommand(n, t) => SetTokenKeeps(s.registry, n, t);
    case StatusCommand =>
    case NewProcess =>
  }

  /** Over every history of commands, failed or torn saves and new processes the registry and the file
      stay consistent. */
  lemma {:induction false} HistoryStaysConsistent(start: File, cs: seq<(Command, Write)>)
    requires FileOk(start)
    ensures Consistent(History(start, cs).registry) && FileOk(History(start, cs).file)
  {
    if cs != [] {
      HistoryStaysConsistent(start, cs[..|cs| - 1]);
      ExecuteKeeps(History(start, cs[..|cs| - 1]), cs[|cs| - 1].0, cs[|cs| - 1].1);
    }
  }

  /** The inconsistency branch of the status command is unreachable, and at most one entry is active. */
  lemma StatusNeverRepairs(start: File, cs: seq<(Command, Write)>)
    requires FileOk(start)
    ensures var r := History(start, cs).registry;
      && Status(r) == r
      && forall i, j | 0 <= i < |r.connections| && 0 <= j < |r.connections|
                       && r.connections[i].isActive && r.connections[j].isActive :: i == j
  {
    HistoryStaysConsistent(start, cs);
  }

  /** On any registry it would clear exactly a default that names no entry, and touch nothing else. */
  lemma StatusRepairs(r: Registry)
    ensures Status(r).connections == r.connections
    ensures Status(r).current == r.current || Status(r).current == ""
    ensures Status(r) == r <==> r.current == "" || exists c :: c in r.connections && c.name == r.current
  {
  }

  // ---------------------------------------------------------------- what commands do

  /** Endpoint and token stored under a name. */
  function Lookup(r: Registry, name: string): Option<(string, string)> {
    var i := FindName(r.connections, name);
    if i < |r.connections| then Some((r.connections[i].endpoint, r.connections[i].token)) else None
  }

  lemma FoundAt(r: Registry, i: nat)
    requires Named(r.connections) && i < |r.connections|
    ensures Lookup(r, r.connections[i].name) == Some((r.connections[i].endpoint, r.connections[i].token))
  {
    assert FindName(r.connections, r.connections[i].name) == i;
  }

  lemma SameEntries(a: Registry, b: Registry, name: string)
    requires |a.connections| == |b.connections|
    requires forall i | 0 <= i < |a.connections| ::
      a.connections[i].(isActive := false) == b.connections[i].(isActive := false)
    ensures Lookup(a, name) == Lookup(b, name)
  {
    assert forall i | 0 <= i < |a.connections| ::
      a.connections[i].name == b.connections[i].name && a.connections[i].endpoint == b.connections[i].endpoint
      && a.connections[i].token == b.connections[i].token;
    var (i, j) := (FindName(a.connections, name), FindName(b.connections, name));
    assert i == j;
  }

  /** A new entry has the endpoint and the token it was made with; no other entry changes, and an existing
      one is left alone. The default moves only if asked for. */
  lemma MakeStores(r: Registry, name: string, endpoint: string, setDefault: bool, token: string, other: string)
    requires Named(r.connections) && name != ""
    ensures var m := Make(r, name, endpoint, setDefault, token);
      && Lookup(m, name) == (if Lookup(r, name).Some? then Lookup(r, name) else Some((endpoint, token)))
      && (other != name ==> Lookup(m, other) == Lookup(r, other))
      && m.current == if Lookup(r, name).None? && setDefault then name else r.current
  {
    if !Has(r.connections, name) {
      var plain := Registry(r.connections + [Connection(name, endpoint, setDefault, token)], r.current);
      Appended(r, plain, Connection(name, endpoint, setDefault, token), other);
      SameEntries(plain, Make(r, name, endpoint, setDefault, token), name);
      SameEntries(plain, Make(r, name, endpoint, setDefault, token), other);
    }
  }

  lemma Appended(r: Registry, m: Registry, c: Connection, other: string)
    requires m.connections == r.connections + [c] && !Has(r.connections, c.name)
    ensures Lookup(m, c.name) == Some((c.endpoint, c.token))
    ensures other != c.name ==> Lookup(m, other) == Lookup(r, other)
  {
    assert m.connections[|r.connections|] == c;
    assert FindName(m.connections, c.name) == |r.connections|;
    if other != c.name {
      var i := FindName(r.connections, other);
      if i < |r.connections| {
        assert m.connections[i] == r.connections[i];
        assert FindName(m.connections, other) == i;
      } else {
        assert forall j | 0 <= j < |m.connections| :: m.connections[j].name != other;
      }
    }
  }

  /** Dropping removes the entry and no other, and clears the default exactly if it was that entry. */
  lemma DropRemoves(r: Registry, name: string, other: string)
    requires Named(r.connections)
    ensures Lookup(Drop(r, name), name).None?
    ensures other != name ==> Lookup(Drop(r, name), other) == Lookup(r, other)
    ensures Drop(r, name).current == if r.current == name && Lookup(r, name).Some? then "" else r.current
  {
    WithoutIsShorterIff(r.connections, name);
    WithoutKeepsOrder(r.connections, name);
    var d := Drop(r, name);
    assert forall i | 0 <= i < |d.connections| :: d.connections[i] in d.connections && d.connections[i].name != name;
    if other != name { OthersSurvive(r, name, other); }
  }

  lemma OthersSurvive(r: Registry, name: string, other: string)
    requires Named(r.connections) && Named(Drop(r, name).connections) && other != name
    ensures Lookup(Drop(r, name), other) == Lookup(r, other)
  {
    WithoutIsShorterIff(r.connections, name);
    hide Without, Named;
    var d := Drop(r, name);
    var i := FindName(r.connections, other);
    if Has(r.connections, name) {
      assert forall k | 0 <= k < |d.connections| :: d.connections[k] in d.connections && d.connections[k] in r.connections;
      if i < |r.connections| {
        assert r.connections[i] in r.connections && r.connections[i] in d.connections;
        var k :| 0 <= k < |d.connections| && d.connections[k] == r.connections[i];
        FoundAt(d, k);
      }
    }
  }

  /** Selecting changes no entry's endpoint or token, and the default exactly if the name is known. */
  lemma SelectMovesDefault(r: Registry, name: string, other: string)
    ensures Lookup(Select(r, name), other) == Lookup(r, other)
    ensures Select(r, name).current == if Lookup(r, name).Some? then name else r.current
  {
    SameEntries(r, Select(r, name), other);
  }

  /** Unsetting and the status command change no entry's endpoint or token. */
  lemma UnsetClearsDefault(r: Registry, other: string)
    ensures Lookup(Unset(r), other) == Lookup(r, other) && Lookup(Status(r), other) == Lookup(r, other)
    ensures Unset(r).current == ""
  {
    SameEntries(r, Unset(r), other);
  }

  /** Setting a token changes that entry's token and nothing else. */
  lemma SetTokenStores(r: Registry, name: string, token: string, other: string)
    ensures Lookup(r, name).Some? ==> Lookup(SetToken(r, name, token), name) == Some((Lookup(r, name).value.0, token))
    ensures other != name || Lookup(r, name).None? ==> Lookup(SetToken(r, name, token), other) == Lookup(r, other)
    ensures SetToken(r, name, token).current == r.current
  {
    var s := SetToken(r, name, token);
    assert |s.connections| == |r.connections|;
    assert forall i | 0 <= i < |r.connections| :: s.connections[i].name == r.connections[i].name;
    assert FindName(s.connections, name) == FindName(r.connections, name);
    assert FindName(s.connections, other) == FindName(r.connections, other);
  }

  /** When every save is written, a new process finds what the last one left. */
  lemma {:induction false} RestartLosesNothing(start: File, cs: seq<(Command, Write)>)
    requires start != Corrupt && forall c | c in cs :: c.1 == Written
    ensures var s := History(start, cs); Loaded(s.file) == s.registry && s.file != Corrupt
  {
    if cs != [] {
      var (front, last) := (cs[..|cs| - 1], cs[|cs| - 1]);
      assert last in cs && forall c | c in front :: c in cs;
      RestartLosesNothing(start, front);
      UnsavedChangesNothing(History(start, front).registry, last.0);
      hide Make, Drop, Select, Unset, SetToken, Status, Saves;
    }
  }

  /** A command that does not reach the save has changed nothing. */
  lemma UnsavedChangesNothing(r: Registry, c: Command)
    ensures !Saves(r, c) && !c.NewProcess? ==> forall f: File, w: Write :: Execute(Session(r, f), c, w) == Session(r, f)
  {
  }

  predicate EndpointsOk(r: Registry) {
    forall i | 0 <= i < |r.connections| :: r.connections[i].endpoint != ""
  }

  /** No command leaves an entry without an endpoint. */
  lemma {:induction false} EndpointsAreKept(start: File, cs: seq<(Command, Write)>)
    requires start.Stored? ==> EndpointsOk(start.registry)
    ensures EndpointsOk(History(start, cs).registry)
    ensures History(start, cs).file.Stored? ==> EndpointsOk(History(start, cs).file.registry)
  {
    if cs != [] {
      var s := History(start, cs[..|cs| - 1]);
      EndpointsAreKept(start, cs[..|cs| - 1]);
      CommandKeepsEndpoints(s.registry, cs[|cs| - 1].0);
    }
  }

  lemma CommandKeepsEndpoints(r: Registry, c: Command)
    requires EndpointsOk(r)
    ensures c.MakeCommand? && c.endpoint != "" ==> EndpointsOk(Make(r, c.name, c.endpoint, c.setDefault, c.token))
    ensures c.DropCommand? ==> EndpointsOk(Drop(r, c.name))
    ensures c.SelectCommand? ==> EndpointsOk(Select(r, c.name))
    ensures c.TokenCommand? ==> EndpointsOk(SetToken(r, c.name, c.token))
    ensures EndpointsOk(Unset(r)) && EndpointsOk(Status(r))
  {
    if c.DropCommand? {
      WithoutIsShorterIff(r.connections, c.name);
      var d := Drop(r, c.name);
      forall i | 0 <= i < |d.connections| ensures d.connections[i].endpoint != "" {
        assert d.connections[i] in d.connections && d.connections[i] in r.connections;
      }
    }
  }

  // ---------------------------------------------------------------- token resolution

  /** The six environment variables, empty when unset. */
  datatype Environment = Environment(
    nmcOidc: string, nmOidc: string, nmcBearer: string, nmBearer: string, nmcAuth: string, nmAuth: string)

  function FirstNonEmpty(candidates: seq<string>): (r: string)
    ensures (r == "" && forall i | 0 <= i < |candidates| :: candidates[i] == "")
         || (r != "" && exists i :: 0 <= i < |candidates| && candidates[i] == r && forall j | 0 <= j < i :: candidates[j] == "")
  {
    if candidates == [] then "" else if candidates[0] != "" then candidates[0] else FirstNonEmpty(candidates[1..])
  }

  function CurrentToken(r: Registry): string {
    var i := FindName(r.connections, r.current);
    if r.current != "" && i < |r.connections| then r.connections[i].token else ""
  }

  /** The fallback scan: the token of the first active entry that has one. */
  function ScannedToken(cs: seq<Connection>): (r: string)
    ensures r == "" <==> forall i | 0 <= i < |cs| :: !cs[i].isActive || cs[i].token == ""
  {
    if cs == [] then ""
    else if cs[0].isActive && cs[0].token != "" then cs[0].token
    else ScannedToken(cs[1..])
  }

  function ResolveAuthToken(env: Environment, r: Registry): string {
    FirstNonEmpty([env.nmcOidc, env.nmOidc, env.nmcBearer, env.nmBearer,
                   CurrentToken(r), ScannedToken(r.connections), env.nmcAuth, env.nmAuth])
  }

  /** The documented precedence, which knows no scan. */
  function DocumentedToken(env: Environment, r: Registry): string {
    FirstNonEmpty([env.nmcOidc, env.nmOidc, env.nmcBearer, env.nmBearer, CurrentToken(r), env.nmcAuth, env.nmAuth])
  }

  /** The documented precedence, spelled out: the two OIDC variables, the two bearer variables, the token stored
      for the default connection, the two plain variables; the first that is set wins. */
  lemma PrecedenceIs(env: Environment, r: Registry)
    ensures var stored := Lookup(r, r.current);
      DocumentedToken(env, r)
        == if env.nmcOidc != "" then env.nmcOidc
           else if env.nmOidc != "" then env.nmOidc
           else if env.nmcBearer != "" then env.nmcBearer
           else if env.nmBearer != "" then env.nmBearer
           else if r.current != "" && stored.Some? && stored.value.1 != "" then stored.value.1
           else if env.nmcAuth != "" then env.nmcAuth
           else env.nmAuth
  {
    FirstOfSeven(env.nmcOidc, env.nmOidc, env.nmcBearer, env.nmBearer, CurrentToken(r), env.nmcAuth, env.nmAuth);
  }

  lemma FirstOfSeven(a: string, b: string, c: string, d: string, e: string, f: string, g: string)
    ensures FirstNonEmpty([a, b, c, d, e, f, g])
         == if a != "" then a else if b != "" then b else if c != "" then c else if d != "" then d
            else if e != "" then e else if f != "" then f else g
  {
    var all := [a, b, c, d, e, f, g];
    assert all[0] == a && all[1] == b && all[2] == c && all[3] == d && all[4] == e && all[5] == f && all[6] == g;
  }

  lemma {:induction false} ScanFindsActive(cs: seq<Connection>)
    ensures ScannedToken(cs) != "" ==> exists i :: 0 <= i < |cs| && cs[i].isActive && cs[i].token == ScannedToken(cs)
  {
    if cs != [] && !(cs[0].isActive && cs[0].token != "") {
      ScanFindsActive(cs[1..]);
      if ScannedToken(cs) != "" {
        var i :| 0 <= i < |cs[1..]| && cs[1..][i].isActive && cs[1..][i].token == ScannedToken(cs);
        assert cs[i + 1] == cs[1..][i];
      }
    }
  }

  /** In every reachable state the fallback scan changes nothing: resolution is the documented precedence. */
  lemma ScanNeverMatters(start: File, cs: seq<(Command, Write)>, env: Environment)
    requires FileOk(start)
    ensures ResolveAuthToken(env, History(start, cs).registry) == DocumentedToken(env, History(start, cs).registry)
  {
    var r := History(start, cs).registry;
    HistoryStaysConsistent(start, cs);
    ScanFindsActive(r.connections);
    if ScannedToken(r.connections) != "" {
      var i :| 0 <= i < |r.connections| && r.connections[i].isActive && r.connections[i].token == ScannedToken(r.connections);
      assert FindName(r.connections, r.current) == i;
      assert CurrentToken(r) == ScannedToken(r.connections);
    }
    ScanOrNot(env, CurrentToken(r), ScannedToken(r.connections));
  }

  lemma ScanOrNot(env: Environment, current: string, scanned: string)
    requires scanned == "" || scanned == current
    ensures FirstNonEmpty([env.nmcOidc, env.nmOidc, env.nmcBearer, env.nmBearer, current, scanned, env.nmcAuth, env.nmAuth])
         == FirstNonEmpty([env.nmcOidc, env.nmOidc, env.nmcBearer, env.nmBearer, current, env.nmcAuth, env.nmAuth])
  {
    hide FirstNonEmpty;
    var before, after := [env.nmcOidc, env.nmOidc, env.nmcBearer, env.nmBearer], [env.nmcAuth, env.nmAuth];
    ScanAfterCurrent(before, current, scanned, after);
    assert before + [current, scanned] + after
        == [env.nmcOidc, env.nmOidc, env.nmcBearer, env.nmBearer, current, scanned, env.nmcAuth, env.nmAuth];
    assert before + [current] + after
        == [env.nmcOidc, env.nmOidc, env.nmcBearer, env.nmBearer, current, env.nmcAuth, env.nmAuth];
  }

  lemma {:induction false} ScanAfterCurrent(before: seq<string>, current: string, scanned: string, after: seq<string>)
    requires scanned == "" || scanned == current
    ensures FirstNonEmpty(before + [current, scanned] + after) == FirstNonEmpty(before + [current] + after)
  {
    if before == [] {
      assert before + [current, scanned] + after == [current, scanned] + after;
      assert before + [current] + after == [current] + after;
      assert ([current, scanned] + after)[1..] == [scanned] + after && ([scanned] + after)[1..] == after;
      assert ([current] + after)[1..] == after;
    } else {
      assert (before + [current, scanned] + after)[1..] == before[1..] + [current, scanned] + after;
      assert (before + [current] + after)[1..] == before[1..] + [current] + after;
      ScanAfterCurrent(before[1..], current, scanned, after);
    }
  }
}
