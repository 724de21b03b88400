/** The stored log of a shared document: internal/httpapi/collab_state.go, and the
    restore of internal/httpapi/documents.go. A merged state stands for the set of
    updates it merges. */
module CollabLog {
  import opened Text

  const COMPACT_COUNT := 400
  const COMPACT_BYTES := 4194304
  const MAX_UPDATE_BYTES := 1048576
  const MAX_SNAPSHOT_BYTES := 16777216

  /** An update, and the generation of the state it was made on. */
  datatype Update = Update(generation: int, number: nat, bytes: nat)

  datatype Row = Row(number: nat, generation: int, update: Update)

  datatype Snapshot = Snapshot(base: nat, holds: set<Update>)

  /** The tables as far as one document goes; rows stand in sequence order. */
  datatype Store = Store(generation: int, next: nat, updates: seq<Row>, snapshots: map<int, Snapshot>)

  /** What a joining client is sent. */
  datatype Loaded = Loaded(snapshot: set<Update>, base: nat, updates: seq<Update>, last: nat, bytes: nat) {
    function Holds(): set<Update> { snapshot + set u | u in updates }
  }

  predicate ShouldCompact(count: nat, bytes: nat) {
    count >= COMPACT_COUNT || bytes >= COMPACT_BYTES
  }

  /** The rows of a generation after a sequence number. */
  function Tail(rows: seq<Row>, generation: int, base: nat): (r: seq<Row>)
    ensures forall x :: x in r <==> x in rows && x.generation == generation && x.number > base
  {
    if rows == [] then []
    else
      var last := rows[|rows| - 1];
      Tail(rows[..|rows| - 1], generation, base)
      + if last.generation == generation && last.number > base then [last] else []
  }

  /** The rows left when a prefix of a generation is deleted. */
  function Dropped(rows: seq<Row>, generation: int, base: nat): (r: seq<Row>)
    ensures forall x :: x in r <==> x in rows && !(x.generation == generation && x.number <= base)
  {
    if rows == [] then []
    else
      var last := rows[|rows| - 1];
      Dropped(rows[..|rows| - 1], generation, base)
      + if last.generation == generation && last.number <= base then [] else [last]
  }

  /** The updates of some rows with the highest number and the bytes, on top of a snapshot. */
  function Replayed(snapshot: set<Update>, base: nat, rows: seq<Row>): Loaded {
    if rows == [] then Loaded(snapshot, base, [], base, 0)
    else
      var before, row := Replayed(snapshot, base, rows[..|rows| - 1]), rows[|rows| - 1];
      Loaded(snapshot, base, before.updates + [row.update], if row.number > before.last then row.number else before.last,
             before.bytes + row.update.bytes)
  }

  lemma {:induction false} ReplayedHolds(snapshot: set<Update>, base: nat, rows: seq<Row>)
    ensures Replayed(snapshot, base, rows).Holds() == snapshot + (set x | x in rows :: x.update)
  {
    if rows != [] {
      var n := |rows| - 1;
      ReplayedHolds(snapshot, base, rows[..n]);
      assert rows == rows[..n] + [rows[n]];
      var before, l := Replayed(snapshot, base, rows[..n]), Replayed(snapshot, base, rows);
      assert (set u | u in l.updates) == (set u | u in before.updates) + {rows[n].update};
      assert (set x | x in rows :: x.update) == (set x | x in rows[..n] :: x.update) + {rows[n].update};
    }
  }

  lemma {:induction false} ReplayedReaches(snapshot: set<Update>, base: nat, rows: seq<Row>)
    ensures var last := Replayed(snapshot, base, rows).last;
            && last >= base && (forall x | x in rows :: x.number <= last)
            && (last == base || exists x :: x in rows && x.number == last)
  {
    if rows != [] {
      var n := |rows| - 1;
      ReplayedReaches(snapshot, base, rows[..n]);
      assert rows == rows[..n] + [rows[n]];
    }
  }

  lemma ReplayedNext(snapshot: set<Update>, base: nat, rows: seq<Row>, k: nat)
    requires k <= |rows|
    ensures Replayed(snapshot, base, rows[..0]) == Loaded(snapshot, base, [], base, 0)
    ensures k < |rows| ==>
        var before, row := Replayed(snapshot, base, rows[..k]), rows[k];
        Replayed(snapshot, base, rows[..k + 1])
          == Loaded(snapshot, base, before.updates + [row.update],
                    if row.number > before.last then row.number else before.last, before.bytes + row.update.bytes)
  {
    if k < |rows| { assert rows[..k + 1][..k] == rows[..k]; }
  }

  function LoadFrom(updates: seq<Row>, generation: int, snapshot: Option<Snapshot>): Loaded {
    var (holds, base) := if snapshot.Some? then (snapshot.value.holds, snapshot.value.base) else ({}, 0);
    Replayed(holds, base, Tail(updates, generation, base))
  }

  function SnapshotOf(store: Store, generation: int): Option<Snapshot> {
    if generation in store.snapshots then Some(store.snapshots[generation]) else None
  }

  /** The state of a generation, snapshot and tail read at one instant. */
  function Load(store: Store, generation: int): Loaded {
    LoadFrom(store.updates, generation, SnapshotOf(store, generation))
  }

  lemma LoadGives(store: Store, generation: int)
    ensures var snapshot := SnapshotOf(store, generation);
            var (holds, base) := if snapshot.Some? then (snapshot.value.holds, snapshot.value.base) else ({}, 0);
            var l := Load(store, generation);
            && l.Holds() == holds + (set x | x in store.updates && x.generation == generation && x.number > base :: x.update)
            && l.last >= base
            && (forall x | x in store.updates && x.generation == generation && x.number > base :: x.number <= l.last)
            && (l.last == base || exists x :: x in store.updates && x.number == l.last)
  {
    var snapshot := SnapshotOf(store, generation);
    var (holds, base) := if snapshot.Some? then (snapshot.value.holds, snapshot.value.base) else ({}, 0);
    var rows := Tail(store.updates, generation, base);
    ReplayedHolds(holds, base, rows);
    ReplayedReaches(holds, base, rows);
    assert (set x | x in rows :: x.update)
        == (set x | x in store.updates && x.generation == generation && x.number > base :: x.update);
  }

  function Insert(store: Store, generation: int, update: Update): Store {
    store.(next := store.next + 1, updates := store.updates + [Row(store.next, generation, update)])
  }

  /** The insert-or-update of a snapshot: an earlier marker never replaces a later one. */
  function Upsert(store: Store, generation: int, base: nat, holds: set<Update>): Store {
    if generation in store.snapshots && store.snapshots[generation].base >= base then store
    else store.(snapshots := store.snapshots[generation := Snapshot(base, holds)])
  }

  /** Of two snapshots of one generation the one with the later marker stays, whichever
      is stored first; of two with the same marker, the first. */
  lemma LaterMarkerStays(store: Store, generation: int, base: nat, holds: set<Update>, other: nat, others: set<Update>)
    requires generation !in store.snapshots
    ensures var after := Upsert(Upsert(store, generation, base, holds), generation, other, others);
            && after.updates == store.updates && after.snapshots.Keys == store.snapshots.Keys + {generation}
            && after.snapshots[generation] == (if other > base then Snapshot(other, others) else Snapshot(base, holds))
            && forall g | g in store.snapshots :: after.snapshots[g] == store.snapshots[g]
  {
  }

  function DeletePrefix(store: Store, generation: int, base: nat): Store {
    store.(updates := Dropped(store.updates, generation, base))
  }

  function Restore(store: Store): Store {
    store.(generation := store.generation + 1, updates := [], snapshots := map[])
  }

  lemma NothingStored(store: Store)
    requires store.updates == [] && store.snapshots == map[]
    ensures forall g :: Load(store, g) == Loaded({}, 0, [], 0, 0) && Load(store, g).Holds() == {}
  {
  }

  // ---- The code's own form ----

  class Tables {
    var generation: int
    var next: nat
    var updates: seq<Row>
    var snapshots: map<int, Snapshot>

    function Contents(): Store
      reads this
    {
      Store(generation, next, updates, snapshots)
    }

    constructor ()
      ensures Contents() == Store(1, 1, [], map[])
    {
      generation, next, updates, snapshots := 1, 1, [], map[];
    }

    method LoadCollabState(generation: int) returns (state: Loaded)
      ensures state == Load(Contents(), generation)
    {
      var snapshot, base: nat, last: nat := {}, 0, 0;
      if generation in snapshots {
        snapshot := snapshots[generation].holds;
        base := snapshots[generation].base;
        last := base;
      }
      hide Replayed;
      var rows := Tail(updates, generation, base);
      ReplayedNext(snapshot, base, rows, 0);
      var read, bytes: nat := [], 0;
      var k := 0;
      while k < |rows|
        invariant k <= |rows|
        invariant Loaded(snapshot, base, read, last, bytes) == Replayed(snapshot, base, rows[..k])
      {
        ReplayedNext(snapshot, base, rows, k);
        read := read + [rows[k].update];
        bytes := bytes + rows[k].update.bytes;
        if rows[k].number > last {
          last := rows[k].number;
        }
        k := k + 1;
      }
      assert rows[..k] == rows;
      state := Loaded(snapshot, base, read, last, bytes);
    }

    method InsertUpdate(generation: int, update: Update)
      modifies this
      ensures Contents() == Insert(old(Contents()), generation, update)
    {
      updates := updates + [Row(next, generation, update)];
      next := next + 1;
    }

    /** Two statements; others may run between them. */
    method StoreCollabSnapshot(generation: int, base: nat, holds: set<Update>)
      modifies this
      ensures Contents() == DeletePrefix(Upsert(old(Contents()), generation, base, holds), generation, base)
    {
      if generation !in snapshots || snapshots[generation].base < base {
        snapshots := snapshots[generation := Snapshot(base, holds)];
      }
      updates := Dropped(updates, generation, base);
    }

    /** Whoever loads the new generation finds nothing in it, and a number is never
        given out twice. */
    method RestoreRevision()
      modifies this
      ensures Contents() == Restore(old(Contents()))
      ensures Load(Contents(), generation) == Loaded({}, 0, [], 0, 0) && generation > old(generation)
      ensures forall g :: Load(Contents(), g).Holds() == {}
      ensures next == old(next)
    {
      generation := generation + 1;
      updates := [];
      snapshots := map[];
      NothingStored(Contents());
    }
  }
}
