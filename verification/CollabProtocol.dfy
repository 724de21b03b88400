/** The join and message loop of internal/httpapi/collaboration.go as steps of many
    clients over one document's log and room (internal/realtime/hub.go), with the
    restore of internal/httpapi/documents.go. A load is taken at one instant unless
    said otherwise; an append is seen in sequence order. */
module CollabProtocol {
  import opened Text
  import opened CollabLog

  datatype Place = Connecting | InRoom | Closed

  /** One connection. Its generation is read first, then the state, then it enters the
      room. "held" is what the client's document holds; an update on its way from the
      table to the room is "sending", a snapshot whose prefix is still to be deleted
      is "deleting". */
  datatype Session = Session(
    generation: int, writeAllowed: bool, loaded: Option<Loaded>, place: Place, held: set<Update>, compact: bool,
    sending: Option<Update>, deleting: Option<nat>)
  {
    /** The message loop runs and is at no message. */
    predicate Ready() {
      !place.Connecting? && loaded.Some? && sending.None? && deleting.None?
    }
  }

  /** "persisted" remembers every row ever inserted. */
  datatype World = World(store: Store, sessions: map<nat, Session>, persisted: set<Row>)

  datatype Action =
    | Join(id: nat, writeAllowed: bool)
    | Receive(id: nat)
    | Enter(id: nat)
    | Leave(id: nat)
    | Edit(id: nat, update: Update)
    | Append(id: nat, update: Update)
    | Broadcast(id: nat)
    | StoreSnapshot(id: nat, body: set<Update>, bytes: nat)
    | DropPrefix(id: nat)
    | CommitRestore
    | CloseRoom

  const START := World(Store(1, 1, [], map[]), map[], {})

  function Put(w: World, id: nat, s: Session): World {
    w.(sessions := w.sessions[id := s])
  }

  /** An update sent to everyone in the room but its sender. */
  function Hear(sessions: map<nat, Session>, sender: nat, update: Update): map<nat, Session> {
    map id | id in sessions ::
      if id != sender && sessions[id].place.InRoom? then sessions[id].(held := sessions[id].held + {update}) else sessions[id]
  }

  /** One step; what the code refuses leaves everything as it was. A connection joins
      once; who comes back is another one. A message that was read before the
      connection was closed is still handled. */
  function Do(w: World, a: Action): World {
    match a
    case CommitRestore => w.(store := Restore(w.store))
    case CloseRoom =>
      w.(sessions := map id | id in w.sessions ::
           if w.sessions[id].place.InRoom? then w.sessions[id].(place := Closed) else w.sessions[id])
    case Join(id, writeAllowed) =>
      if id in w.sessions then w
      else Put(w, id, Session(w.store.generation, writeAllowed, None, Connecting, {}, false, None, None))
    case Receive(id) =>
      if id !in w.sessions || w.sessions[id].loaded.Some? then w
      else Put(w, id, w.sessions[id].(loaded := Some(Load(w.store, w.sessions[id].generation))))
    case Enter(id) =>
      if id !in w.sessions || !w.sessions[id].place.Connecting? || w.sessions[id].loaded.None? then w
      else
        var s := w.sessions[id];
        var state := s.loaded.value;
        Put(w, id, s.(place := InRoom, held := s.held + state.Holds(),
                      compact := s.writeAllowed && ShouldCompact(|state.updates|, state.bytes)))
    case Leave(id) =>
      if id !in w.sessions || !w.sessions[id].place.InRoom? then w
      else Put(w, id, w.sessions[id].(place := Closed))
    case Edit(id, update) =>
      if id !in w.sessions || update.generation != w.sessions[id].generation then w
      else Put(w, id, w.sessions[id].(held := w.sessions[id].held + {update}))
    case Append(id, update) =>
      if id !in w.sessions then w
      else
        var s := w.sessions[id];
        if !s.Ready() || update !in s.held || !s.writeAllowed || update.bytes > MAX_UPDATE_BYTES then w
        else
          Put(w, id, s.(sending := Some(update))).(
            store := Insert(w.store, s.generation, update),
            persisted := w.persisted + {Row(w.store.next, s.generation, update)})
    case Broadcast(id) =>
      if id !in w.sessions || w.sessions[id].sending.None? then w
      else
        var s := w.sessions[id];
        w.(sessions := Hear(w.sessions, id, s.sending.value)[id := s.(sending := None)])
    case StoreSnapshot(id, body, bytes) =>
      if id !in w.sessions then w
      else
        var s := w.sessions[id];
        if !s.Ready() || !s.compact || !s.writeAllowed || bytes == 0 || bytes > MAX_SNAPSHOT_BYTES
           || !(s.loaded.value.Holds() <= body <= s.held) then w
        else
          Put(w, id, s.(deleting := Some(s.loaded.value.last))).(
            store := Upsert(w.store, s.generation, s.loaded.value.last, body))
    case DropPrefix(id) =>
      if id !in w.sessions || w.sessions[id].deleting.None? then w
      else
        var s := w.sessions[id];
        Put(w, id, s.(deleting := None, compact := false)).(
          store := DeletePrefix(w.store, s.generation, s.deleting.value))
  }

  function RunFrom(w: World, actions: seq<Action>): World {
    if actions == [] then w else Do(RunFrom(w, actions[..|actions| - 1]), actions[|actions| - 1])
  }

  function Run(actions: seq<Action>): World {
    RunFrom(START, actions)
  }

  lemma RunStep(w: World, actions: seq<Action>, a: Action)
    ensures RunFrom(w, actions + [a]) == Do(RunFrom(w, actions), a)
  {
    assert (actions + [a])[..|actions|] == actions;
  }

  // ---- Nothing is lost ----

  /** A persisted row of the current generation is still a row, or merged into the snapshot. */
  ghost predicate Kept(w: World, row: Row) {
    row in w.store.updates ||
    (row.generation in w.store.snapshots &&
     row.number <= w.store.snapshots[row.generation].base && row.update in w.store.snapshots[row.generation].holds)
  }

  ghost predicate NothingLost(w: World) {
    forall row | row in w.persisted && row.generation == w.store.generation :: Kept(w, row)
  }

  /** A snapshot has merged everything up to its marker. */
  ghost predicate SnapshotsComplete(w: World) {
    forall row | row in w.persisted && row.generation == w.store.generation && row.generation in w.store.snapshots
                 && row.number <= w.store.snapshots[row.generation].base ::
      row.update in w.store.snapshots[row.generation].holds
  }

  /** So has every client that was sent the state. */
  ghost predicate ClientsComplete(w: World) {
    forall id, row | id in w.sessions && row in w.persisted && row.generation == w.store.generation
                     && w.sessions[id].generation == row.generation && w.sessions[id].loaded.Some?
                     && row.number <= w.sessions[id].loaded.value.last ::
      row.update in w.sessions[id].loaded.value.Holds()
  }

  /** What is about to be deleted is behind the snapshot's marker. */
  ghost predicate DeletesCovered(w: World) {
    forall id | id in w.sessions && w.sessions[id].deleting.Some? && w.sessions[id].generation == w.store.generation ::
      w.store.generation in w.store.snapshots && w.sessions[id].deleting.value <= w.store.snapshots[w.store.generation].base
  }

  /** Numbers and generations never run ahead of the tables. */
  ghost predicate Behind(w: World) {
    && w.store.next > 0
    && (forall row | row in w.persisted :: 0 < row.number < w.store.next && row.generation <= w.store.generation)
    && (forall row | row in w.store.updates :: row in w.persisted)
    && (forall g | g in w.store.snapshots :: g <= w.store.generation && w.store.snapshots[g].base < w.store.next)
    && (forall id | id in w.sessions :: SessionBehind(w.sessions[id], w.store))
  }

  ghost predicate SessionBehind(s: Session, store: Store) {
    && s.generation <= store.generation
    && (s.loaded.Some? ==> s.loaded.value.last < store.next)
    && (s.deleting.Some? ==> s.loaded.Some? && s.deleting.value == s.loaded.value.last)
    && (s.sending.Some? ==> s.sending.value in s.held)
    && (!s.place.Connecting? ==> s.loaded.Some? && s.loaded.value.Holds() <= s.held)
  }

  ghost predicate Invariant(w: World) {
    NothingLost(w) && SnapshotsComplete(w) && ClientsComplete(w) && DeletesCovered(w) && Behind(w)
  }

  /** Every persisted update of the current generation, between the two statements of
      a compaction as well. */
  lemma LoadCovers(w: World, row: Row)
    requires NothingLost(w) && SnapshotsComplete(w) && Behind(w) && row in w.persisted && row.generation == w.store.generation
    ensures row.update in Load(w.store, w.store.generation).Holds()
  {
    assert Kept(w, row);
    LoadGives(w.store, w.store.generation);
  }

  lemma LastIsBehind(w: World, generation: int)
    requires Behind(w)
    ensures Load(w.store, generation).last < w.store.next
  {
    LoadGives(w.store, generation);
  }

  lemma ReceiveKeeps(w: World, id: nat)
    requires Invariant(w)
    ensures Invariant(Do(w, Receive(id)))
  {
    hide Load, Loaded.Holds;
    if id in w.sessions && w.sessions[id].loaded.None? {
      var after, g := Do(w, Receive(id)), w.sessions[id].generation;
      forall row | row in w.persisted && row.generation == w.store.generation && g == row.generation
        ensures row.update in Load(w.store, g).Holds()
      {
        LoadCovers(w, row);
      }
      LastIsBehind(w, g);
      assert ClientsComplete(after);
    }
  }

  lemma JoinKeeps(w: World, id: nat, writeAllowed: bool)
    requires Invariant(w)
    ensures Invariant(Do(w, Join(id, writeAllowed)))
  {
  }

  lemma EnterKeeps(w: World, id: nat)
    requires Invariant(w)
    ensures Invariant(Do(w, Enter(id)))
  {
  }

  lemma EditKeeps(w: World, id: nat, update: Update)
    requires Invariant(w)
    ensures Invariant(Do(w, Edit(id, update)))
  {
  }

  lemma BroadcastKeeps(w: World, id: nat)
    requires Invariant(w)
    ensures Invariant(Do(w, Broadcast(id)))
  {
  }

  lemma LeaveKeeps(w: World, id: nat)
    requires Invariant(w)
    ensures Invariant(Do(w, Leave(id)))
  {
  }

  lemma CloseRoomKeeps(w: World)
    requires Invariant(w)
    ensures Invariant(Do(w, CloseRoom))
  {
  }

  lemma AppendKeeps(w: World, id: nat, update: Update)
    requires Invariant(w)
    ensures Invariant(Do(w, Append(id, update)))
  {
  }

  lemma StoreSnapshotKeeps(w: World, id: nat, body: set<Update>, bytes: nat)
    requires Invariant(w)
    ensures Invariant(Do(w, StoreSnapshot(id, body, bytes)))
  {
  }

  lemma DropPrefixKeeps(w: World, id: nat)
    requires Invariant(w)
    ensures Invariant(Do(w, DropPrefix(id)))
  {
  }

  lemma RestoreKeeps(w: World)
    requires Invariant(w)
    ensures Invariant(Do(w, CommitRestore))
  {
  }

  lemma StepKeeps(w: World, a: Action)
    requires Invariant(w)
    ensures Invariant(Do(w, a))
  {
    hide Do, Invariant;
    match a
    case Join(id, writeAllowed) => JoinKeeps(w, id, writeAllowed);
    case Receive(id) => ReceiveKeeps(w, id);
    case Enter(id) => EnterKeeps(w, id);
    case Leave(id) => LeaveKeeps(w, id);
    case Edit(id, update) => EditKeeps(w, id, update);
    case Broadcast(id) => BroadcastKeeps(w, id);
    case Append(id, update) => AppendKeeps(w, id, update);
    case StoreSnapshot(id, body, bytes) => StoreSnapshotKeeps(w, id, body, bytes);
    case DropPrefix(id) => DropPrefixKeeps(w, id);
    case CommitRestore => RestoreKeeps(w);
    case CloseRoom => CloseRoomKeeps(w);
  }

  lemma {:induction false} RunKeeps(w: World, actions: seq<Action>)
    requires Invariant(w)
    ensures Invariant(RunFrom(w, actions))
  {
    hide Do, Invariant;
    if actions != [] {
      var n := |actions| - 1;
      RunKeeps(w, actions[..n]);
      StepKeeps(RunFrom(w, actions[..n]), actions[n]);
    }
  }

  lemma EveryRunKeeps(actions: seq<Action>)
    ensures Invariant(Run(actions))
  {
    hide Invariant;
    assert Invariant(START) by { StartIsFine(); }
    RunKeeps(START, actions);
  }

  lemma StartIsFine()
    ensures Invariant(START)
  {
  }

  /** However clients join, edit, race with their snapshots and come back late, and
      whenever the document is restored: a load of the current generation holds every
      update persisted in it. */
  lemma EveryLoadIsComplete(actions: seq<Action>)
    ensures var w := Run(actions);
            forall row | row in w.persisted && row.generation == w.store.generation ::
              row.update in Load(w.store, w.store.generation).Holds()
  {
    EveryRunKeeps(actions);
    var w := Run(actions);
    forall row | row in w.persisted && row.generation == w.store.generation
      ensures row.update in Load(w.store, w.store.generation).Holds()
    {
      LoadCovers(w, row);
    }
  }

  /** A compaction replaces the log without changing what it says: the next load
      holds the same updates, and no row at or before the marker is left. */
  lemma CompactionLosesNothing(w: World, id: nat)
    requires Invariant(w) && id in w.sessions && w.sessions[id].deleting.Some? && w.sessions[id].generation == w.store.generation
    ensures var after := Do(w, DropPrefix(id));
            && Load(after.store, w.store.generation).Holds() == Load(w.store, w.store.generation).Holds()
            && forall row | row in after.store.updates && row.generation == w.store.generation ::
                 row.number > w.sessions[id].deleting.value
  {
    hide Invariant, Load;
    var g, base := w.store.generation, w.sessions[id].deleting.value;
    DeletingIsCovered(w, id);
    DroppedIsCovered(w.store, g, base);
  }

  lemma DeletingIsCovered(w: World, id: nat)
    requires Invariant(w) && id in w.sessions && w.sessions[id].deleting.Some? && w.sessions[id].generation == w.store.generation
    ensures w.store.generation in w.store.snapshots
    ensures w.sessions[id].deleting.value <= w.store.snapshots[w.store.generation].base
  {
  }

  /** Rows behind the snapshot's marker may go: a load does not look at them. */
  lemma DroppedIsCovered(store: Store, g: int, base: nat)
    requires g in store.snapshots && base <= store.snapshots[g].base
    ensures Load(DeletePrefix(store, g, base), g).Holds() == Load(store, g).Holds()
  {
    LoadGives(store, g);
    LoadGives(DeletePrefix(store, g, base), g);
  }

  // ---- Nothing is mixed, unless the room is ----

  ghost predicate Only(updates: set<Update>, generation: int) {
    forall u | u in updates :: u.generation == generation
  }

  /** Nothing of one generation is found in another. */
  ghost predicate Unmixed(w: World) {
    && (forall row | row in w.store.updates :: row.update.generation == row.generation)
    && (forall g | g in w.store.snapshots :: Only(w.store.snapshots[g].holds, g))
    && (forall id | id in w.sessions ::
          Only(w.sessions[id].held, w.sessions[id].generation)
          && (w.sessions[id].loaded.Some? ==> Only(w.sessions[id].loaded.value.Holds(), w.sessions[id].generation)))
  }

  /** In a run so far, at every moment. */
  ghost predicate Pure(actions: seq<Action>) {
    forall n | 0 <= n <= |actions| :: Unmixed(Run(actions[..n]))
  }

  /** The test the code does not make: a broadcast goes to the room of the document,
      whatever generation those in it have. */
  ghost predicate Crosses(w: World, a: Action) {
    a.Broadcast? && a.id in w.sessions && w.sessions[a.id].sending.Some?
    && exists other :: InRoomWithout(w, a.id, other) && w.sessions[other].generation != w.sessions[a.id].generation
  }

  ghost predicate InRoomWithout(w: World, id: nat, other: nat) {
    other != id && other in w.sessions && w.sessions[other].place.InRoom?
  }

  lemma LoadIsPure(w: World, generation: int)
    requires Unmixed(w)
    ensures Only(Load(w.store, generation).Holds(), generation)
  {
    LoadGives(w.store, generation);
  }

  lemma QuietStepIsPure(w: World, a: Action)
    requires Unmixed(w) && Behind(w) && !a.Broadcast? && !a.Receive?
    ensures Unmixed(Do(w, a))
  {
    hide Load;
  }

  lemma ReceiveIsPure(w: World, id: nat)
    requires Unmixed(w)
    ensures Unmixed(Do(w, Receive(id)))
  {
    hide Load;
    if id in w.sessions { LoadIsPure(w, w.sessions[id].generation); }
  }

  /** A step keeps the generations apart exactly when it is no broadcast across them. */
  lemma StepIsPure(w: World, a: Action)
    requires Unmixed(w) && Behind(w)
    ensures Unmixed(Do(w, a)) <==> !Crosses(w, a)
  {
    match a
    case Broadcast(id) => BroadcastIsPure(w, id);
    case Receive(id) => ReceiveIsPure(w, id);
    case _ => QuietStepIsPure(w, a);
  }

  lemma BroadcastIsPure(w: World, id: nat)
    requires Unmixed(w) && Behind(w)
    ensures Unmixed(Do(w, Broadcast(id))) <==> !Crosses(w, Broadcast(id))
  {
    if id in w.sessions && w.sessions[id].sending.Some? {
      var after, update := Do(w, Broadcast(id)), w.sessions[id].sending.value;
      assert SessionBehind(w.sessions[id], w.store);
      assert update.generation == w.sessions[id].generation;
      if Crosses(w, Broadcast(id)) {
        var other :| InRoomWithout(w, id, other) && w.sessions[other].generation != w.sessions[id].generation;
        assert update in after.sessions[other].held;
      }
    }
  }

  lemma Prefixes(actions: seq<Action>, n: nat)
    requires n < |actions|
    ensures Run(actions[..n + 1]) == Do(Run(actions[..n]), actions[n])
  {
    RunStep(START, actions[..n], actions[n]);
    assert actions[..n] + [actions[n]] == actions[..n + 1];
  }

  lemma {:induction false} PureUpTo(actions: seq<Action>, n: nat)
    requires n <= |actions| && forall k | 0 <= k < n :: !Crosses(Run(actions[..k]), actions[k])
    ensures Unmixed(Run(actions[..n]))
    decreases n
  {
    hide Do, Crosses, Unmixed, Invariant;
    if n == 0 {
      assert Unmixed(START) by { NothingMixed(); }
      assert actions[..0] == [];
    } else {
      PureUpTo(actions, n - 1);
      Prefixes(actions, n - 1);
      EveryRunKeeps(actions[..n - 1]);
      assert Behind(Run(actions[..n - 1])) by { BehindOf(Run(actions[..n - 1])); }
      StepIsPure(Run(actions[..n - 1]), actions[n - 1]);
    }
  }

  lemma BehindOf(w: World)
    requires Invariant(w)
    ensures Behind(w)
  {
  }

  lemma NothingMixed()
    ensures Unmixed(START)
  {
  }

  /** A run keeps the generations apart, in tables, clients and loads, if and only if
      no update in it is broadcast into a room that holds a client of another. */
  lemma PureExactly(actions: seq<Action>)
    ensures Pure(actions) <==> forall n | 0 <= n < |actions| :: !Crosses(Run(actions[..n]), actions[n])
  {
    hide Do, Crosses, Unmixed, Invariant;
    if forall n | 0 <= n < |actions| :: !Crosses(Run(actions[..n]), actions[n]) {
      forall n | 0 <= n <= |actions|
        ensures Unmixed(Run(actions[..n]))
      {
        PureUpTo(actions, n);
      }
    } else {
      var n :| 0 <= n < |actions| && Crosses(Run(actions[..n]), actions[n]);
      if Pure(actions) {
        EveryRunKeeps(actions[..n]);
        assert Behind(Run(actions[..n])) by { BehindOf(Run(actions[..n])); }
        Prefixes(actions, n);
        assert Unmixed(Run(actions[..n])) && Unmixed(Run(actions[..n + 1]));
        StepIsPure(Run(actions[..n]), actions[n]);
      }
    }
  }

  /** In such a run a load holds the current generation's updates, all and only. */
  lemma PureLoads(actions: seq<Action>)
    requires Pure(actions)
    ensures var w := Run(actions);
            var held := Load(w.store, w.store.generation).Holds();
            && (forall row | row in w.persisted && row.generation == w.store.generation :: row.update in held)
            && Only(held, w.store.generation)
  {
    hide Unmixed;
    EveryLoadIsComplete(actions);
    assert actions[..|actions|] == actions;
    LoadIsPure(Run(actions), Run(actions).store.generation);
  }

  // ---- Who enters when ----

  /** Everyone in the room has one generation. */
  ghost predicate OneGeneration(w: World) {
    forall id, other | id in w.sessions && other in w.sessions && w.sessions[id].place.InRoom? && w.sessions[other].place.InRoom? ::
      w.sessions[id].generation == w.sessions[other].generation
  }

  /** Nobody enters a room of another generation, as between the commit of a restore
      and the closing of the room, or with a generation read before the commit; and
      nobody who is out of the room sends to it. */
  ghost predicate Orderly(w: World, a: Action) {
    match a
    case Enter(id) =>
      id in w.sessions ==>
        forall other | InRoomWithout(w, id, other) :: w.sessions[other].generation == w.sessions[id].generation
    case Broadcast(id) => id in w.sessions ==> w.sessions[id].place.InRoom?
    case _ => true
  }

  lemma OrderlyStep(w: World, a: Action)
    requires OneGeneration(w) && Orderly(w, a)
    ensures OneGeneration(Do(w, a)) && !Crosses(w, a)
  {
    hide Load;
    if a.Enter? && a.id in w.sessions {
      assert forall other | other in w.sessions && other != a.id && w.sessions[other].place.InRoom? :: InRoomWithout(w, a.id, other);
    }
  }

  lemma {:induction false} OrderlyUpTo(actions: seq<Action>, n: nat)
    requires n <= |actions| && forall k | 0 <= k < n :: Orderly(Run(actions[..k]), actions[k])
    ensures OneGeneration(Run(actions[..n]))
    decreases n
  {
    hide Do, Orderly, OneGeneration, Crosses;
    if n == 0 {
      assert OneGeneration(START) by { EmptyRoom(); }
      assert actions[..0] == [];
    } else {
      OrderlyUpTo(actions, n - 1);
      Prefixes(actions, n - 1);
      OrderlyStep(Run(actions[..n - 1]), actions[n - 1]);
    }
  }

  lemma EmptyRoom()
    ensures OneGeneration(START)
  {
  }

  /** When nobody enters beside another generation and nobody outside the room sends to
      it, nothing is ever mixed. */
  lemma OrderlyRunsArePure(actions: seq<Action>)
    requires forall n | 0 <= n < |actions| :: Orderly(Run(actions[..n]), actions[n])
    ensures Pure(actions)
  {
    hide Do, Orderly, OneGeneration, Crosses, Pure;
    forall n | 0 <= n < |actions|
      ensures !Crosses(Run(actions[..n]), actions[n])
    {
      OrderlyUpTo(actions, n);
      OrderlyStep(Run(actions[..n]), actions[n]);
    }
    PureExactly(actions);
  }

  /** Whenever somebody did enter beside another generation, it takes three steps of a
      client that may write to mix what the other holds, and one more, where that other
      is of the current generation and may write, to mix what everyone loads. */
  lemma MixedRoomMixes(w: World, from: nat, other: nat, update: Update)
    requires Behind(w) && from in w.sessions && InRoomWithout(w, from, other) && w.sessions[from].Ready() && w.sessions[from].writeAllowed
    requires w.sessions[other].generation != w.sessions[from].generation == update.generation && update.bytes <= MAX_UPDATE_BYTES
    ensures var heard := RunFrom(w, [Edit(from, update), Append(from, update), Broadcast(from)]);
            && !Unmixed(heard)
            && (w.sessions[other].Ready() && w.sessions[other].writeAllowed && w.sessions[other].generation == w.store.generation ==>
                  var after := Do(heard, Append(other, update));
                  !Only(Load(after.store, after.store.generation).Holds(), after.store.generation))
  {
    hide Load, RunFrom, Do, Behind;
    ThreeSteps(w, Edit(from, update), Append(from, update), Broadcast(from));
    var heard := Do(Do(Do(w, Edit(from, update)), Append(from, update)), Broadcast(from));
    OtherHears(w, from, other, update);
    if w.sessions[other].Ready() && w.sessions[other].writeAllowed && w.sessions[other].generation == w.store.generation {
      assert forall g | g in heard.store.snapshots :: heard.store.snapshots[g].base < heard.store.next by { InsertedBehind(w, update); }
      AppendedIsLoaded(heard, other, update);
      assert Do(heard, Append(other, update)).store.generation == w.store.generation by { AppendKeepsGeneration(heard, other, update); }
    }
  }

  lemma OtherHears(w: World, from: nat, other: nat, update: Update)
    requires Behind(w) && from in w.sessions && InRoomWithout(w, from, other) && w.sessions[from].Ready() && w.sessions[from].writeAllowed
    requires w.sessions[from].generation == update.generation && update.bytes <= MAX_UPDATE_BYTES
    ensures var heard := Do(Do(Do(w, Edit(from, update)), Append(from, update)), Broadcast(from));
            && other in heard.sessions && heard.sessions[other] == w.sessions[other].(held := w.sessions[other].held + {update})
            && heard.store == Insert(w.store, update.generation, update) && heard.store.next > 0
  {
    EditedAndAppended(w, from, update);
  }

  lemma InsertedBehind(w: World, update: Update)
    requires Behind(w)
    ensures var store := Insert(w.store, update.generation, update); forall g | g in store.snapshots :: store.snapshots[g].base < store.next
  {
  }

  lemma ThreeSteps(w: World, a: Action, b: Action, c: Action)
    ensures RunFrom(w, [a, b, c]) == Do(Do(Do(w, a), b), c)
  {
    hide Do;
    RunStep(w, [], a);
    RunStep(w, [a], b);
    RunStep(w, [a, b], c);
    assert [] + [a] == [a] && [a] + [b] == [a, b] && [a, b] + [c] == [a, b, c];
  }

  lemma EditedAndAppended(w: World, from: nat, update: Update)
    requires Behind(w) && from in w.sessions && w.sessions[from].Ready() && w.sessions[from].writeAllowed
    requires w.sessions[from].generation == update.generation && update.bytes <= MAX_UPDATE_BYTES
    ensures var after := Do(Do(w, Edit(from, update)), Append(from, update));
            && from in after.sessions && after.sessions[from].sending == Some(update)
            && after.sessions[from].generation == update.generation
            && (forall id | id in w.sessions && id != from :: id in after.sessions && after.sessions[id] == w.sessions[id])
            && after.sessions.Keys == w.sessions.Keys
            && after.store == Insert(w.store, update.generation, update)
            && after.persisted == w.persisted + {Row(w.store.next, update.generation, update)}
  {
    hide Load;
  }

  lemma AppendKeepsGeneration(w: World, id: nat, update: Update)
    ensures Do(w, Append(id, update)).store.generation == w.store.generation
  {
    hide Load;
  }

  lemma AppendedIsLoaded(w: World, id: nat, update: Update)
    requires id in w.sessions && w.sessions[id].Ready() && w.sessions[id].writeAllowed && update in w.sessions[id].held
    requires update.bytes <= MAX_UPDATE_BYTES && w.sessions[id].generation == w.store.generation
    requires forall g | g in w.store.snapshots :: w.store.snapshots[g].base < w.store.next
    requires w.store.next > 0
    ensures var after := Do(w, Append(id, update));
            update in Load(after.store, after.store.generation).Holds()
  {
    var after := Do(w, Append(id, update));
    LoadGives(after.store, after.store.generation);
    assert Row(w.store.next, w.store.generation, update) in after.store.updates;
  }

  /** A restore whose room closes too late: the second client enters between the commit
      and the closing, hears what the first made of the old state, and writes it into
      the new. */
  const LATE: seq<Action> := [
    Join(1, true), Receive(1), Enter(1), CommitRestore, Join(2, true), Receive(2), Enter(2)]
  const STALE := Update(1, 0, 10)

  lemma LateRoom()
    ensures var w := Run(LATE);
            && w.store == Store(2, 1, [], map[]) && Behind(w)
            && w.sessions.Keys == {1, 2}
            && w.sessions[1] == Session(1, true, Some(Loaded({}, 0, [], 0, 0)), InRoom, {}, false, None, None)
            && w.sessions[2] == Session(2, true, Some(Loaded({}, 0, [], 0, 0)), InRoom, {}, false, None, None)
  {
    hide Do, Load, Run, Loaded.Holds, Behind, Invariant;
    var s1, s2, s3 := ComesIn(START, 1);
    var s4 := Do(s3, CommitRestore);
    assert s4 == s3.(store := Restore(s3.store)) by { Restored(s3); }
    var s5, s6, s7 := ComesIn(s4, 2);
    SevenSteps(LATE, s1, s2, s3, s4, s5, s6, s7);
    EveryRunKeeps(LATE);
    BehindOf(Run(LATE));
  }

  lemma Restored(w: World)
    ensures Do(w, CommitRestore) == w.(store := Restore(w.store))
  {
  }

  /** Somebody who may write comes into the room of an empty document. */
  lemma ComesIn(w: World, id: nat) returns (joined: World, received: World, entered: World)
    requires id !in w.sessions && w.store.updates == [] && w.store.snapshots == map[]
    ensures joined == Do(w, Join(id, true)) && received == Do(joined, Receive(id)) && entered == Do(received, Enter(id))
    ensures entered
         == Put(w, id, Session(w.store.generation, true, Some(Loaded({}, 0, [], 0, 0)), InRoom, {}, false, None, None))
  {
    NothingStored(w.store);
    hide Load;
    var nothing := Loaded({}, 0, [], 0, 0);
    assert nothing.Holds() == {};
    joined := Do(w, Join(id, true));
    received := Do(joined, Receive(id));
    entered := Do(received, Enter(id));
    assert received == Put(w, id, Session(w.store.generation, true, Some(nothing), Connecting, {}, false, None, None));
  }

  lemma SevenSteps(a: seq<Action>, s1: World, s2: World, s3: World, s4: World, s5: World, s6: World, s7: World)
    requires |a| == 7 && s1 == Do(START, a[0]) && s2 == Do(s1, a[1]) && s3 == Do(s2, a[2]) && s4 == Do(s3, a[3])
    requires s5 == Do(s4, a[4]) && s6 == Do(s5, a[5]) && s7 == Do(s6, a[6])
    ensures Run(a) == s7
  {
    hide Do;
    assert a[..0] == [] && a[..7] == a;
    Prefixes(a, 0);
    Prefixes(a, 1);
    Prefixes(a, 2);
    Prefixes(a, 3);
    Prefixes(a, 4);
    Prefixes(a, 5);
    Prefixes(a, 6);
  }

  /** That run, to its end: a load of the new generation holds an update of the old. */
  lemma StaleBroadcastSpreads()
    ensures var heard := RunFrom(Run(LATE), [Edit(1, STALE), Append(1, STALE), Broadcast(1)]);
            var after := Do(Do(heard, Append(2, STALE)), CloseRoom);
            !Only(Load(after.store, after.store.generation).Holds(), after.store.generation)
  {
    hide Load, RunFrom;
    LateRoom();
    var w := Run(LATE);
    assert InRoomWithout(w, 1, 2);
    MixedRoomMixes(w, 1, 2, STALE);
  }

  // ---- A load in two queries ----

  lemma {:induction false} Grows(w: World, actions: seq<Action>)
    requires Behind(w)
    ensures var after := RunFrom(w, actions);
            && w.persisted <= after.persisted && w.store.next <= after.store.next
            && forall row | row in after.persisted && row !in w.persisted :: row.number >= w.store.next
  {
    if actions != [] {
      var n := |actions| - 1;
      Grows(w, actions[..n]);
      hide RunFrom, Load;
      var before := RunFrom(w, actions[..n]);
      StepGrows(before, actions[n]);
    }
  }

  lemma StepGrows(w: World, a: Action)
    ensures var after := Do(w, a);
            && w.persisted <= after.persisted && w.store.next <= after.store.next
            && forall row | row in after.persisted && row !in w.persisted :: row.number >= w.store.next
  {
    hide Load;
  }

  /** No update is in the log twice. */
  ghost predicate AppendedOnce(w: World) {
    forall row, other | row in w.persisted && other in w.persisted && row.generation == other.generation && row.update == other.update ::
      row == other
  }

  /** What the snapshot read first holds, and its marker. */
  function ReadFirst(store: Store, generation: int): (set<Update>, nat) {
    if generation in store.snapshots then (store.snapshots[generation].holds, store.snapshots[generation].base) else ({}, 0)
  }

  /** A row above the marker that was read, gone before the tail was. */
  ghost predicate Overtaken(first: World, second: World, row: Row) {
    && row in second.persisted && row.generation == first.store.generation && row !in second.store.updates
    && row.number > ReadFirst(first.store, first.store.generation).1
  }

  ghost predicate TornIsComplete(first: World, second: World) {
    var g := first.store.generation;
    forall row | row in second.persisted && row.generation == g ::
      row.update in LoadFrom(second.store.updates, g, SnapshotOf(first.store, g)).Holds()
  }

  lemma TornHolds(first: World, second: World, update: Update)
    ensures var g := first.store.generation;
            var (holds, base) := ReadFirst(first.store, g);
            update in LoadFrom(second.store.updates, g, SnapshotOf(first.store, g)).Holds()
            <==> update in holds
                 || exists row :: row in second.store.updates && row.generation == g && row.number > base && row.update == update
  {
    var g := first.store.generation;
    var torn := Store(g, second.store.next, second.store.updates, first.store.snapshots);
    LoadGives(torn, g);
    assert SnapshotOf(torn, g) == SnapshotOf(first.store, g);
  }

  /** A state whose snapshot is read first and whose tail later, any steps but a restore
      in between, is complete if and only if every row above the marker read first that
      was deleted in between was in the snapshot read first. It is whenever the marker
      has not moved; and if that snapshot was no further than its marker, exactly when
      no row above the marker was deleted. */
  lemma TornLoadExactly(before: seq<Action>, between: seq<Action>)
    requires var second := RunFrom(Run(before), between);
             second.store.generation == Run(before).store.generation && AppendedOnce(second)
    ensures var first, second := Run(before), RunFrom(Run(before), between);
            var g := first.store.generation;
            var (holds, base) := ReadFirst(first.store, g);
            && (TornIsComplete(first, second) <==> forall row | Overtaken(first, second, row) :: row.update in holds)
            && (ReadFirst(second.store, g).1 == base ==> TornIsComplete(first, second))
            && ((forall row | row in second.persisted && row.generation == g && row.update in holds :: row.number <= base) ==>
                  (TornIsComplete(first, second) <==> forall row :: !Overtaken(first, second, row)))
  {
    var first, second := Run(before), RunFrom(Run(before), between);
    EveryRunKeeps(before);
    RunKeeps(first, between);
    Grows(first, between);
    hide Run, RunFrom, Load;
    forall row | row in second.persisted && row.generation == first.store.generation
      ensures TornHas(first, second, row) <==> !Overtaken(first, second, row) || row.update in ReadFirst(first.store, first.store.generation).0
    {
      TornRow(first, second, row);
    }
    MarkerStays(first, second);
  }

  ghost predicate TornHas(first: World, second: World, row: Row) {
    row.update in LoadFrom(second.store.updates, first.store.generation, SnapshotOf(first.store, first.store.generation)).Holds()
  }

  lemma TornRow(first: World, second: World, row: Row)
    requires Invariant(first) && Behind(second) && AppendedOnce(second) && row in second.persisted
    requires row.generation == first.store.generation == second.store.generation
    requires first.persisted <= second.persisted
    requires forall r | r in second.persisted && r !in first.persisted :: r.number >= first.store.next
    ensures TornHas(first, second, row)
        <==> !Overtaken(first, second, row) || row.update in ReadFirst(first.store, first.store.generation).0
  {
    TornHolds(first, second, row.update);
    var (holds, base) := ReadFirst(first.store, first.store.generation);
    if row.number <= base {
      assert row in first.persisted;
    }
  }

  /** With the marker where it was, nothing above it can have been deleted. */
  lemma MarkerStays(first: World, second: World)
    requires Invariant(second) && first.store.generation == second.store.generation
    ensures ReadFirst(second.store, first.store.generation).1 == ReadFirst(first.store, first.store.generation).1 ==>
              forall row :: !Overtaken(first, second, row)
  {
    forall row | Overtaken(first, second, row)
      ensures ReadFirst(second.store, first.store.generation).1 != ReadFirst(first.store, first.store.generation).1
    {
      assert Kept(second, row);
    }
  }

  /** Reading the snapshot and then the tail: a compaction in between leaves a hole. */
  lemma TwoReadsMiss()
    ensures var u := Update(1, 0, 10);
            var before := Insert(Store(1, 1, [], map[]), 1, u);
            var after := DeletePrefix(Upsert(before, 1, 1, {u}), 1, 1);
            && LoadFrom(after.updates, 1, SnapshotOf(before, 1)).Holds() == {}
            && Load(before, 1).Holds() == Load(after, 1).Holds() == {u}
  {
    var u := Update(1, 0, 10);
    var before := Insert(Store(1, 1, [], map[]), 1, u);
    var after := DeletePrefix(Upsert(before, 1, 1, {u}), 1, 1);
    LoadGives(before, 1);
    LoadGives(after, 1);
    assert Row(1, 1, u) in before.updates;
    var torn := Store(1, 2, after.updates, map[]);
    LoadGives(torn, 1);
    assert after.updates == [] by { assert Dropped([], 1, 1) == [] && before.updates[..0] == []; }
  }
}
