/** What `Store::commit` does to durable storage, seen from outside: the journal, and the
    versions of state.json that a power loss may bring back. */
module Durability {
  import opened Sequences
  import opened BmcState

  datatype Record =
    | PushEvent(id: Id, at: int, key: Key)
    | PushReceipt(id: Id, at: int)
    | Observation(id: Id, at: int, diagnostic: Diagnostic)
    | EnrollmentIntent(id: Id, at: int, enrollment: Option<Enrollment>)
    | EnrollmentResult(id: Id, at: int, result: Enrollment)
    | IdentityGap(id: Id, at: int)
    | CollectionGap(id: Id, at: int)

  /** views: the documents state.json may show after a power loss, the last one being what it shows now;
      there is more than one while renames wait for a directory sync.
      written: every journal record ever written, retained or rotated away. */
  datatype Disk = Disk(views: seq<Document>, written: seq<Record>)

  /** How far one commit got: failed before the rename (its journal line may be there or not),
      renamed without a directory sync, or complete. */
  datatype Fate = Lost(journaled: bool) | Renamed | Committed

  function CommitTo(d: Disk, doc: Document, r: Record, f: Fate): Disk {
    match f
    case Lost(journaled) => Disk(d.views, if journaled then d.written + [r] else d.written)
    case Renamed => Disk(d.views + [doc], d.written + [r])
    case Committed => Disk([doc], d.written + [r])
  }

  /** The process: its memory (`store.state.controllers`) and its disk. */
  datatype Node = Node(mem: Document, disk: Disk)

  /** A controller without an entry counts as freshly initialised. */
  function Entry(doc: Document, id: Id): ControllerState {
    if id in doc then doc[id] else DEFAULT_STATE
  }

  function Total(doc: Document, id: Id): nat {
    if id in doc then doc[id].eventsTotal else 0
  }

  /** Keys of the push_event records of one controller, oldest first. */
  function PushKeys(written: seq<Record>, id: Id): seq<Key> {
    if written == [] then []
    else
      var r := written[|written| - 1];
      var before := PushKeys(written[..|written| - 1], id);
      if r.PushEvent? && r.id == id then before + [r.key] else before
  }
}
