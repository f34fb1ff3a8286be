/** queueEntityUpdated: one entity.updated event per changed top-level data key. */
module Diff {
  import opened Base
  import opened Vault

  type Data = map<string, Value>

  /** A change of one key; an absent value is reported as null, as the Go code does. */
  datatype Change = Change(field: string, old_: Value, new_: Value)

  function ValueOr(d: Data, k: string): Value {
    if k in d then d[k] else VNull
  }

  /** A key whose presence or value differs. */
  predicate Changed(a: Data, b: Data, k: string) {
    (k in a || k in b) && !(k in a && k in b && a[k] == b[k])
  }

  predicate IsChange(a: Data, b: Data, c: Change) {
    Changed(a, b, c.field) && c.old_ == ValueOr(a, c.field) && c.new_ == ValueOr(b, c.field)
  }

  ghost predicate Ordered(events: seq<Change>) {
    forall i, j :: 0 <= i < j < |events| ==> Less(events[i].field, events[j].field)
  }

  /** In key order, exactly one event per changed key, with the values before and after. */
  ghost predicate IsDelta(a: Data, b: Data, events: seq<Change>) {
    Ordered(events) && forall c :: c in events <==> IsChange(a, b, c)
  }

  /** The keys of both maps, each once; the orders are whatever the two map walks give. */
  method CollectKeys(a: Data, b: Data, oldOrder: seq<string>, newOrder: seq<string>) returns (keys: seq<string>)
    requires forall k :: k in oldOrder <==> k in a
    requires forall k :: k in newOrder <==> k in b
    ensures Distinct(keys) && forall k :: k in keys <==> k in a || k in b
  {
    keys := [];
    var seen: set<string> := {};
    for i := 0 to |oldOrder|
      invariant Distinct(keys) && (forall k :: k in seen <==> k in keys)
      invariant forall k :: k in keys <==> k in oldOrder[..i]
    {
      if oldOrder[i] !in seen {
        keys, seen := keys + [oldOrder[i]], seen + {oldOrder[i]};
      }
    }
    for i := 0 to |newOrder|
      invariant Distinct(keys) && (forall k :: k in seen <==> k in keys)
      invariant forall k :: k in keys <==> k in oldOrder || k in newOrder[..i]
    {
      if newOrder[i] !in seen {
        keys, seen := keys + [newOrder[i]], seen + {newOrder[i]};
      }
    }
  }

  method QueueEntityUpdated(a: Data, b: Data, oldOrder: seq<string>, newOrder: seq<string>)
      returns (events: seq<Change>)
    requires forall k :: k in oldOrder <==> k in a
    requires forall k :: k in newOrder <==> k in b
    ensures IsDelta(a, b, events)
  {
    var keys := CollectKeys(a, b, oldOrder, newOrder);
    SortStringsCorrect(keys);
    events := EmitChanges(a, b, SortStrings(keys));
    ChangesAreDelta(a, b, SortStrings(keys));
  }

  method EmitChanges(a: Data, b: Data, sorted: seq<string>) returns (events: seq<Change>)
    requires forall k :: k in sorted ==> k in a || k in b
    ensures events == Changes(a, b, sorted)
  {
    events := [];
    for i := 0 to |sorted|
      invariant events == Changes(a, b, sorted[..i])
    {
      assert sorted[..i + 1][..i] == sorted[..i];
      var k := sorted[i];
      if k in a && k in b && a[k] == b[k] {
        continue;
      }
      events := events + [Change(k, ValueOr(a, k), ValueOr(b, k))];
    }
    assert sorted[..|sorted|] == sorted;
  }

  ghost function Changes(a: Data, b: Data, keys: seq<string>): seq<Change>
    requires forall k :: k in keys ==> k in a || k in b
  {
    if keys == [] then []
    else
      var k := keys[|keys| - 1];
      Changes(a, b, keys[..|keys| - 1]) +
      if Changed(a, b, k) then [Change(k, ValueOr(a, k), ValueOr(b, k))] else []
  }

  lemma {:induction false} ChangesMembers(a: Data, b: Data, keys: seq<string>, c: Change)
    requires forall k :: k in keys ==> k in a || k in b
    ensures c in Changes(a, b, keys) <==> c.field in keys && IsChange(a, b, c)
  {
    if keys == [] {
    } else {
      ChangesMembers(a, b, keys[..|keys| - 1], c);
      assert keys == keys[..|keys| - 1] + [keys[|keys| - 1]];
    }
  }

  lemma {:induction false} ChangesOrdered(a: Data, b: Data, keys: seq<string>)
    requires (forall k :: k in keys ==> k in a || k in b) && Increasing(keys)
    ensures Ordered(Changes(a, b, keys))
  {
    if keys == [] {
    } else {
      var init, last := keys[..|keys| - 1], keys[|keys| - 1];
      ChangesOrdered(a, b, init);
      var earlier := Changes(a, b, init);
      forall i | 0 <= i < |earlier| ensures Less(earlier[i].field, last) {
        ChangesMembers(a, b, init, earlier[i]);
        var j :| 0 <= j < |init| && init[j] == earlier[i].field;
        assert keys[j] == init[j];
      }
    }
  }

  lemma ChangesAreDelta(a: Data, b: Data, keys: seq<string>)
    requires Increasing(keys) && forall k :: k in keys <==> k in a || k in b
    ensures IsDelta(a, b, Changes(a, b, keys))
  {
    ChangesOrdered(a, b, keys);
    forall c ensures c in Changes(a, b, keys) <==> IsChange(a, b, c) {
      ChangesMembers(a, b, keys, c);
    }
  }

  // ---------------------------------------------------------------- replaying the events

  function Put(d: Data, k: string, v: Value): Data {
    if v == VNull then d - {k} else d[k := v]
  }

  /** A subscriber applying the events in order. */
  function Replay(d: Data, events: seq<Change>): Data {
    if events == [] then d
    else Put(Replay(d, events[..|events| - 1]), events[|events| - 1].field, events[|events| - 1].new_)
  }

  /** A subscriber undoing them, last one first. */
  function Undo(d: Data, events: seq<Change>): Data
    decreases |events|
  {
    if events == [] then d
    else Undo(Put(d, events[|events| - 1].field, events[|events| - 1].old_), events[..|events| - 1])
  }

  lemma {:induction false} ReplayAt(d: Data, events: seq<Change>, k: string)
    requires forall i, j :: 0 <= i < j < |events| ==> events[i].field != events[j].field
    ensures forall i :: 0 <= i < |events| && events[i].field == k ==>
              (k in Replay(d, events) <==> events[i].new_ != VNull) && ValueOr(Replay(d, events), k) == events[i].new_
    ensures (forall i :: 0 <= i < |events| ==> events[i].field != k) ==>
              (k in Replay(d, events) <==> k in d) && ValueOr(Replay(d, events), k) == ValueOr(d, k)
  {
    if events == [] {
    } else {
      var init := events[..|events| - 1];
      assert forall i :: 0 <= i < |init| ==> events[i] == init[i];
      ReplayAt(d, init, k);
    }
  }

  lemma {:induction false} UndoAt(d: Data, events: seq<Change>, k: string)
    requires forall i, j :: 0 <= i < j < |events| ==> events[i].field != events[j].field
    ensures forall i :: 0 <= i < |events| && events[i].field == k ==>
              (k in Undo(d, events) <==> events[i].old_ != VNull) && ValueOr(Undo(d, events), k) == events[i].old_
    ensures (forall i :: 0 <= i < |events| ==> events[i].field != k) ==>
              (k in Undo(d, events) <==> k in d) && ValueOr(Undo(d, events), k) == ValueOr(d, k)
    decreases |events|
  {
    if events == [] {
    } else {
      var last, init := events[|events| - 1], events[..|events| - 1];
      assert forall i :: 0 <= i < |init| ==> events[i] == init[i];
      UndoAt(Put(d, last.field, last.old_), init, k);
    }
  }

  lemma DeltaFieldsDiffer(a: Data, b: Data, events: seq<Change>)
    requires IsDelta(a, b, events)
    ensures forall i, j :: 0 <= i < j < |events| ==> events[i].field != events[j].field
  {
    forall i, j | 0 <= i < j < |events| ensures events[i].field != events[j].field {
      LessIrreflexive(events[i].field);
    }
  }

  lemma DeltaHas(a: Data, b: Data, events: seq<Change>, k: string)
    requires IsDelta(a, b, events)
    ensures Changed(a, b, k) ==> exists i :: 0 <= i < |events| && events[i] == Change(k, ValueOr(a, k), ValueOr(b, k))
    ensures !Changed(a, b, k) ==> forall i :: 0 <= i < |events| ==> events[i].field != k
  {
    if Changed(a, b, k) {
      assert Change(k, ValueOr(a, k), ValueOr(b, k)) in events;
    } else {
      forall i | 0 <= i < |events| ensures events[i].field != k { assert events[i] in events; }
    }
  }

  /** The round trip, exactly: replaying the events on the old data gives the new data if and
      only if no changed key holds an explicit null in the new data. */
  lemma {:induction false} ReplayIff(a: Data, b: Data, events: seq<Change>)
    requires IsDelta(a, b, events)
    ensures Replay(a, events) == b <==> forall k :: k in b && Changed(a, b, k) ==> b[k] != VNull
  {
    DeltaFieldsDiffer(a, b, events);
    var r := Replay(a, events);
    forall k
      ensures Changed(a, b, k) ==> (k in r <==> ValueOr(b, k) != VNull) && ValueOr(r, k) == ValueOr(b, k)
      ensures !Changed(a, b, k) ==> (k in r <==> k in b) && ValueOr(r, k) == ValueOr(b, k)
    {
      ReplayAt(a, events, k);
      DeltaHas(a, b, events, k);
    }
    if forall k :: k in b && Changed(a, b, k) ==> b[k] != VNull {
      assert forall k :: k in r <==> k in b;
      assert forall k :: k in r ==> r[k] == ValueOr(r, k) == ValueOr(b, k) == b[k];
      assert r == b;
    } else {
      var k :| k in b && Changed(a, b, k) && b[k] == VNull;
      assert k !in r;
    }
  }

  /** And backwards: undoing the events on the new data gives the old data if and only if no
      changed key held an explicit null in the old data. */
  lemma {:induction false} UndoIff(a: Data, b: Data, events: seq<Change>)
    requires IsDelta(a, b, events)
    ensures Undo(b, events) == a <==> forall k :: k in a && Changed(a, b, k) ==> a[k] != VNull
  {
    DeltaFieldsDiffer(a, b, events);
    var r := Undo(b, events);
    forall k
      ensures Changed(a, b, k) ==> (k in r <==> ValueOr(a, k) != VNull) && ValueOr(r, k) == ValueOr(a, k)
      ensures !Changed(a, b, k) ==> (k in r <==> k in a) && ValueOr(r, k) == ValueOr(a, k)
    {
      UndoAt(b, events, k);
      DeltaHas(a, b, events, k);
    }
    if forall k :: k in a && Changed(a, b, k) ==> a[k] != VNull {
      assert forall k :: k in r <==> k in a;
      assert forall k :: k in r ==> r[k] == ValueOr(r, k) == ValueOr(a, k) == a[k];
      assert r == a;
    } else {
      var k :| k in a && Changed(a, b, k) && a[k] == VNull;
      assert k !in r;
    }
  }
}
