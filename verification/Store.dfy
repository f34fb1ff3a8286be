/** The daemon's shared state: the entity and edge tables, the vault files, the per-artifact
    write locks and the event bus, with the contracts their callers rely on. */
module Store {
  import opened Base
  import opened Vault
  import Diff

  /** A row of `entities`; `data` is None for a thin label row (stored as the literal null). */
  datatype Row = Row(kind: string, data: Option<map<string, Value>>, gapState: map<string, GapEntry>, archived: bool)

  datatype Event =
    | EntityCreated(id: string, kind: string, causedBy: string)
    | EntityUpdated(id: string, kind: string, change: Diff.Change)
    | EdgeAdded(edge: Edge)
    | FillCompleted(id: string, gap: string)

  function ThinRow(kind: string): Row {
    Row(kind, None, map[], false)
  }

  /** A counter table entry; absent means zero. */
  function Count(m: map<(string, string), nat>, k: (string, string)): nat {
    if k in m then m[k] else 0
  }

  function Wiped(edges: set<Edge>, from: string, typ: string): set<Edge> {
    set e | e in edges && !(e.from == from && e.typ == typ)
  }

  function Unlinked(edges: set<Edge>, id: string): set<Edge> {
    set e | e in edges && e.from != id && e.to != id
  }

  class Catalog {
    var rows: map<string, Row>
    var edges: set<Edge>
    var droppedKinds: map<(string, string), nat>
    var droppedTypes: map<(string, string), nat>
    var files: map<string, Entity>
    var locks: map<string, string>
    var bus: seq<Event>

    /** INSERT .. ON CONFLICT DO UPDATE: everything but archived_at is replaced. */
    method UpsertEntity(id: string, kind: string, data: Option<map<string, Value>>, gapState: map<string, GapEntry>)
      modifies this`rows
      ensures rows == old(rows)[id := Row(kind, data, gapState, id in old(rows) && old(rows)[id].archived)]
    {
      rows := rows[id := Row(kind, data, gapState, id in rows && rows[id].archived)];
    }

    /** Inserts under the foreign key; false is ErrMissingEntity. */
    method CreateEdge(e: Edge) returns (landed: bool)
      modifies this`edges
      ensures landed <==> e.from in rows && e.to in rows
      ensures edges == if landed then old(edges) + {e} else old(edges)
    {
      landed := e.from in rows && e.to in rows;
      if landed { edges := edges + {e}; }
    }

    method DeleteEdgesByTypeFrom(from: string, typ: string)
      modifies this`edges
      ensures edges == Wiped(old(edges), from, typ)
    {
      edges := Wiped(edges, from, typ);
    }

    /** EnsureLabelRow: inserts a thin row unless one exists; None is the malformed-label error. */
    method EnsureLabelRow(id: string) returns (created: Option<bool>)
      modifies this`rows
      ensures created.None? <==> LabelKind(id).None?
      ensures created.Some? ==> created.value == (id !in old(rows))
      ensures rows == if LabelKind(id).Some? && id !in old(rows)
                      then old(rows)[id := ThinRow(LabelKind(id).value)] else old(rows)
    {
      var kind := LabelKind(id);
      if kind.None? { return None; }
      if id in rows { return Some(false); }
      UpsertEntity(id, kind.value, None, map[]);
      return Some(true);
    }

    /** ArchiveEntity and RestoreEntity; the row was loaded under the same lock. */
    method SetArchived(id: string, archived: bool)
      requires id in rows
      modifies this`rows
      ensures rows == old(rows)[id := old(rows)[id].(archived := archived)]
    {
      rows := rows[id := rows[id].(archived := archived)];
    }

    /** The row, and every edge from or to it. */
    method DeleteEntityCascade(id: string)
      modifies this`rows, this`edges
      ensures rows == old(rows) - {id}
      ensures edges == Unlinked(old(edges), id)
    {
      edges := Unlinked(edges, id);
      rows := rows - {id};
    }

    method IncDroppedKind(plugin: string, kind: string)
      modifies this`droppedKinds
      ensures droppedKinds == old(droppedKinds)[(plugin, kind) := Count(old(droppedKinds), (plugin, kind)) + 1]
    {
      droppedKinds := droppedKinds[(plugin, kind) := Count(droppedKinds, (plugin, kind)) + 1];
    }

    method IncDroppedType(plugin: string, typ: string)
      modifies this`droppedTypes
      ensures droppedTypes == old(droppedTypes)[(plugin, typ) := Count(old(droppedTypes), (plugin, typ)) + 1]
    {
      droppedTypes := droppedTypes[(plugin, typ) := Count(droppedTypes, (plugin, typ)) + 1];
    }

    /** Fail-fast: a held artifact is a conflict and leaves the lock table alone. */
    method Acquire(artifact: string, holder: string) returns (ok: bool)
      modifies this`locks
      ensures ok <==> artifact !in old(locks)
      ensures locks == if ok then old(locks)[artifact := holder] else old(locks)
    {
      ok := artifact !in locks;
      if ok { locks := locks[artifact := holder]; }
    }

    method Release(artifact: string)
      modifies this`locks
      ensures locks == old(locks) - {artifact}
    {
      locks := locks - {artifact};
    }

    /** Publishing runs the subscribers at once, and they may want the publisher's lock, so it
        must be gone: `artifact` is the lock the publisher held. */
    method Publish(e: Event, artifact: string)
      requires artifact !in locks
      modifies this`bus
      ensures bus == old(bus) + [e]
    {
      bus := bus + [e];
    }

    /** PendingEvents.Drain. */
    method Drain(pending: seq<Event>, artifact: string)
      requires artifact !in locks
      modifies this`bus
      ensures bus == old(bus) + pending
    {
      for i := 0 to |pending|
        invariant bus == old(bus) + pending[..i]
      {
        Publish(pending[i], artifact);
        assert pending[..i + 1] == pending[..i] + [pending[i]];
      }
      assert pending[..|pending|] == pending;
    }

    /** The deferred tail of a locked writer: the lock goes first, then the queue. */
    method ReleaseAndDrain(artifact: string, first: seq<Event>, rest: seq<Event>)
      modifies this`locks, this`bus
      ensures locks == old(locks) - {artifact}
      ensures bus == old(bus) + first + rest
    {
      Release(artifact);
      Drain(first + rest, artifact);
    }
  }
}
