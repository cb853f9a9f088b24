/**
 * The process-wide `active_connections` dictionary: one entry per call,
 * keyed by the call's connection id, holding the Twilio stream id once the
 * caller's `start` event has named it. The two websocket handles the entry
 * also holds are never read by the relay logic and are not modelled.
 */
module Connections {
  import opened Wrappers

  type ConnectionId = string

  /** An entry; `streamSid` is None until a `start` event is seen. */
  datatype Entry = Entry(streamSid: Option<string>)

  type Table = map<ConnectionId, Entry>

  /** Storing a fresh entry for a call that has just reached the agent. As a
      dictionary assignment does, this replaces an entry already under id. */
  function Registered(m: Table, id: ConnectionId): (r: Table)
    ensures r.Keys == m.Keys + {id}
    ensures r[id] == Entry(None)
    ensures forall k | k in m && k != id :: r[k] == m[k]
  {
    m[id := Entry(None)]
  }

  /** Recording the stream id named by a `start` event, only when the call
      still has an entry. */
  function WithStreamSid(m: Table, id: ConnectionId, sid: string): (r: Table)
    ensures r.Keys == m.Keys
    ensures id in m ==> r[id] == Entry(Some(sid))
    ensures forall k | k in m && k != id :: r[k] == m[k]
  {
    if id in m then m[id := m[id].(streamSid := Some(sid))] else m
  }

  /** The guarded removal in the handler's `finally` block. */
  function Released(m: Table, id: ConnectionId): (r: Table)
    ensures r.Keys == m.Keys - {id}
    ensures forall k | k in r :: r[k] == m[k]
  {
    if id in m then m - {id} else m
  }

  /** `active_connections.get(connection_id)`. */
  function Lookup(m: Table, id: ConnectionId): (r: Option<Entry>)
    ensures r.Some? <==> id in m
    ensures r.Some? ==> r.value == m[id]
  {
    if id in m then Some(m[id]) else None
  }

  /**
   * The stream id the agent handler may tag its messages with: the test
   * `conn and conn['stream_sid']` passes only for an existing entry whose
   * stream id is set and, Python truthiness being what it is, not empty.
   */
  function KnownSid(e: Option<Entry>): (sid: Option<string>)
    ensures sid.Some? <==> e.Some? && e.value.streamSid.Some? && e.value.streamSid.value != ""
    ensures sid.Some? ==> sid == e.value.streamSid
  {
    match e
    case None => None
    case Some(entry) =>
      match entry.streamSid
      case None => None
      case Some(s) => if s == "" then None else Some(s)
  }

  /** A `start` event makes the call's stream id known exactly when the call
      still has an entry and the id is not empty; another call's view is
      unaffected. */
  lemma StartMakesSidKnown(m: Table, id: ConnectionId, sid: string, other: ConnectionId)
    ensures KnownSid(Lookup(WithStreamSid(m, id, sid), id)) == Some(sid) <==> id in m && sid != ""
    ensures id !in m ==> KnownSid(Lookup(WithStreamSid(m, id, sid), id)) == None
    ensures other != id ==> Lookup(WithStreamSid(m, id, sid), other) == Lookup(m, other)
  {
  }

  /** Removal is idempotent: a second `finally` (or one for a call that never
      registered) finds nothing to remove. */
  lemma ReleaseIdempotent(m: Table, id: ConnectionId)
    ensures Released(Released(m, id), id) == Released(m, id)
    ensures id !in m ==> Released(m, id) == m
  {
  }

  /** Registering a new id and releasing it restores the table: a call that
      ends leaves no entry behind. */
  lemma RegisterRelease(m: Table, id: ConnectionId)
    requires id !in m
    ensures Released(Registered(m, id), id) == m
  {
    assert Released(Registered(m, id), id).Keys == m.Keys;
  }

  /** The dictionary itself, shared by every call of the process. */
  class ConnectionTable {
    var entries: Table

    constructor ()
      ensures entries == map[]
    {
      entries := map[];
    }

    method Register(id: ConnectionId)
      modifies this
      ensures entries == Registered(old(entries), id)
    {
      entries := entries[id := Entry(None)];
    }

    method SetStreamSid(id: ConnectionId, sid: string)
      modifies this
      ensures entries == WithStreamSid(old(entries), id, sid)
    {
      if id in entries {
        entries := entries[id := Entry(Some(sid))];
      }
    }

    method Discard(id: ConnectionId)
      modifies this
      ensures entries == Released(old(entries), id)
    {
      if id in entries {
        entries := entries - {id};
      }
    }
  }
}
