/** What those in the room hear: "Broadcast" of internal/realtime/hub.go between the
    steps of internal/httpapi/collaboration.go. */
module CollabRoom {
  import opened Text
  import opened CollabLog
  import opened CollabProtocol

  /** A broadcast gives the update to everyone else in the room and changes nothing more. */
  lemma BroadcastReaches(w: World, id: nat)
    requires id in w.sessions && w.sessions[id].sending.Some?
    ensures var after, update := Do(w, Broadcast(id)), w.sessions[id].sending.value;
            && after.store == w.store && after.persisted == w.persisted && after.sessions.Keys == w.sessions.Keys
            && after.sessions[id] == w.sessions[id].(sending := None)
            && forall other | other in w.sessions && other != id ::
                 after.sessions[other] == if w.sessions[other].place.InRoom?
                                          then w.sessions[other].(held := w.sessions[other].held + {update})
                                          else w.sessions[other]
  {
  }

  /** What a client has it keeps, and it enters the room at most once. */
  lemma StepKeepsHeld(w: World, a: Action, id: nat)
    requires id in w.sessions
    ensures var after := Do(w, a);
            && id in after.sessions && after.sessions[id].generation == w.sessions[id].generation
            && w.sessions[id].held <= after.sessions[id].held
            && (after.sessions[id].place.InRoom? ==> w.sessions[id].place.InRoom? || a == Enter(id))
            && (!w.sessions[id].place.Connecting? ==> !after.sessions[id].place.Connecting?)
            && (w.sessions[id].loaded.Some? ==> after.sessions[id].loaded == w.sessions[id].loaded)
  {
    hide Load;
  }

  lemma {:induction false} RunKeepsHeld(w: World, actions: seq<Action>, id: nat)
    requires id in w.sessions
    ensures var after := RunFrom(w, actions);
            && id in after.sessions && after.sessions[id].generation == w.sessions[id].generation
            && w.sessions[id].held <= after.sessions[id].held
            && (!w.sessions[id].place.Connecting? ==>
                  !after.sessions[id].place.Connecting? && (after.sessions[id].place.InRoom? ==> w.sessions[id].place.InRoom?))
            && (w.sessions[id].loaded.Some? ==> after.sessions[id].loaded == w.sessions[id].loaded)
  {
    hide Do;
    if actions != [] {
      var n := |actions| - 1;
      RunKeepsHeld(w, actions[..n], id);
      var before, after := RunFrom(w, actions[..n]), RunFrom(w, actions);
      StepKeepsHeld(before, actions[n], id);
      if !before.sessions[id].place.Connecting? && actions[n] == Enter(id) {
        EntersOnce(before, id);
      }
    }
  }

  lemma EntersOnce(w: World, id: nat)
    requires id in w.sessions && !w.sessions[id].place.Connecting?
    ensures Do(w, Enter(id)) == w
  {
  }

  lemma RunSplits(w: World, a: seq<Action>, b: seq<Action>)
    ensures RunFrom(w, a + b) == RunFrom(RunFrom(w, a), b)
  {
    if b == [] {
      assert a + b == a;
    } else {
      var n := |b| - 1;
      RunSplits(w, a, b[..n]);
      assert (a + b)[..|a| + n] == a + b[..n];
    }
  }

  /** The update that a step sends to the room, if it sends one past this client. */
  ghost predicate Sends(w: World, a: Action, id: nat, update: Update) {
    a.Broadcast? && a.id != id && a.id in w.sessions && w.sessions[a.id].sending == Some(update)
  }

  /** In every run a client that has entered holds everything it was sent at first, and
      every update that was broadcast while it was in the room, at whatever step. */
  lemma RoomHears(actions: seq<Action>, id: nat)
    requires id in Run(actions).sessions && !Run(actions).sessions[id].place.Connecting?
    ensures var s := Run(actions).sessions[id];
            && s.loaded.Some? && s.loaded.value.Holds() <= s.held
            && forall n, update | 0 <= n < |actions| && Sends(Run(actions[..n]), actions[n], id, update)
                                  && id in Run(actions[..n]).sessions && Run(actions[..n]).sessions[id].place.InRoom? ::
                 update in s.held
  {
    EveryRunKeeps(actions);
    assert SessionBehind(Run(actions).sessions[id], Run(actions).store);
    hide Do, Invariant;
    forall n, update | 0 <= n < |actions| && Sends(Run(actions[..n]), actions[n], id, update)
                       && id in Run(actions[..n]).sessions && Run(actions[..n]).sessions[id].place.InRoom?
      ensures update in Run(actions).sessions[id].held
    {
      var w := Run(actions[..n]);
      BroadcastReaches(w, actions[n].id);
      Prefixes(actions, n);
      assert actions[..n + 1] + actions[n + 1..] == actions;
      RunSplits(START, actions[..n + 1], actions[n + 1..]);
      RunKeepsHeld(Do(w, actions[n]), actions[n + 1..], id);
    }
  }

  // ---- Who writes ----

  /** The stored state of a document changes only by an update of at most a megabyte from
      a client that may write; by the snapshot of one that may, that was asked for it,
      and that merged everything it had been sent and nothing it does not hold; by the
      prefix that snapshot covers going; or by a restore. */
  lemma WhoWrites(w: World, a: Action)
    requires Behind(w) && Do(w, a).store != w.store
    ensures a.CommitRestore? || a.Append? || a.StoreSnapshot? || a.DropPrefix?
    ensures a.Append? || a.StoreSnapshot? ==> a.id in w.sessions && w.sessions[a.id].writeAllowed
    ensures a.Append? ==> a.update in w.sessions[a.id].held && a.update.bytes <= 1048576
    ensures a.StoreSnapshot? ==>
        var s := w.sessions[a.id];
        && s.loaded.Some? && s.loaded.value.Holds() <= a.body <= s.held && s.compact && 0 < a.bytes <= 16777216
        && Do(w, a).store == Upsert(w.store, s.generation, s.loaded.value.last, a.body)
    ensures a.DropPrefix? ==>
        && a.id in w.sessions && w.sessions[a.id].deleting.Some? && w.sessions[a.id].loaded.Some?
        && Do(w, a).store == DeletePrefix(w.store, w.sessions[a.id].generation, w.sessions[a.id].loaded.value.last)
  {
    hide Load;
    if a.DropPrefix? { assert SessionBehind(w.sessions[a.id], w.store); }
  }

  /** Who enters is asked for a snapshot exactly when it may write and was sent four
      hundred updates or four megabytes of them. */
  lemma AskedToCompact(w: World, id: nat)
    requires id in w.sessions && w.sessions[id].place.Connecting? && w.sessions[id].loaded.Some?
    ensures var state, after := w.sessions[id].loaded.value, Do(w, Enter(id)).sessions[id];
            && (after.compact <==> w.sessions[id].writeAllowed && (|state.updates| >= 400 || state.bytes >= 4194304))
            && after.place.InRoom? && after.held == w.sessions[id].held + state.Holds()
  {
  }

  /** What it then sends, if it merges what it was sent, is stored, and the rows that were
      sent go: a later load starts from a snapshot no older than that. */
  lemma CompactionRuns(w: World, id: nat, body: set<Update>, bytes: nat)
    requires id in w.sessions && w.sessions[id].Ready() && w.sessions[id].writeAllowed && w.sessions[id].compact
    requires w.sessions[id].loaded.value.Holds() <= body <= w.sessions[id].held && 0 < bytes <= MAX_SNAPSHOT_BYTES
    ensures var s := w.sessions[id];
            var after := Do(Do(w, StoreSnapshot(id, body, bytes)), DropPrefix(id));
            && s.generation in after.store.snapshots && after.store.snapshots[s.generation].base >= s.loaded.value.last
            && ((s.generation in w.store.snapshots && w.store.snapshots[s.generation].base >= s.loaded.value.last)
                || after.store.snapshots[s.generation] == Snapshot(s.loaded.value.last, body))
            && (forall row :: row in after.store.updates <==>
                  row in w.store.updates && !(row.generation == s.generation && row.number <= s.loaded.value.last))
            && id in after.sessions && after.sessions[id].Ready() && !after.sessions[id].compact
  {
  }

  /** A connection has its snapshot stored at most once: when the prefix is gone it is
      asked for none again. */
  lemma {:induction false} CompactsOnce(w: World, actions: seq<Action>, id: nat)
    requires id in w.sessions && !w.sessions[id].compact && !w.sessions[id].place.Connecting?
    ensures var after := RunFrom(w, actions);
            && id in after.sessions && !after.sessions[id].compact && !after.sessions[id].place.Connecting?
            && forall body, bytes :: Do(after, StoreSnapshot(id, body, bytes)) == after
  {
    hide Load;
    if actions != [] {
      var n := |actions| - 1;
      CompactsOnce(w, actions[..n], id);
    }
  }

  /** After the prefix has gone the connection is one of those. */
  lemma DroppedIsDone(w: World, id: nat)
    requires Behind(w) && id in w.sessions && w.sessions[id].deleting.Some? && !w.sessions[id].place.Connecting?
    ensures var after := Do(w, DropPrefix(id)).sessions[id];
            !after.compact && after.deleting.None? && !after.place.Connecting?
  {
  }

  /** Closing the room leaves nobody in it, and who leaves hears nothing more. */
  lemma ClosedRoomIsEmpty(w: World, id: nat)
    ensures forall other | other in Do(w, CloseRoom).sessions :: !Do(w, CloseRoom).sessions[other].place.InRoom?
    ensures id in Do(w, Leave(id)).sessions ==> !Do(w, Leave(id)).sessions[id].place.InRoom?
  {
  }

  // ---- Who is up to date ----

  ghost predicate OnItsWay(w: World, row: Row) {
    exists other :: other in w.sessions && w.sessions[other].sending == Some(row.update)
  }

  /** In the room, with every update persisted in the current generation, but for those
      still to be broadcast. */
  ghost predicate UpToDate(w: World, id: nat) {
    && id in w.sessions && w.sessions[id].place.InRoom?
    && (w.sessions[id].generation == w.store.generation ==>
          forall row | row in w.persisted && row.generation == w.store.generation ::
            row.update in w.sessions[id].held || OnItsWay(w, row))
  }

  lemma AppendStaysUpToDate(w: World, a: Action, id: nat)
    requires Behind(w) && UpToDate(w, id) && a.Append?
    ensures UpToDate(Do(w, a), id)
  {
    var after := Do(w, a);
    if after != w {
      forall row | row in after.persisted && row.generation == after.store.generation
        ensures row.update in w.sessions[id].held || w.sessions[id].generation != w.store.generation || OnItsWay(after, row)
      {
        if row in w.persisted {
          if w.sessions[id].generation == w.store.generation && row.update !in w.sessions[id].held {
            var other :| other in w.sessions && w.sessions[other].sending == Some(row.update);
            assert other != a.id && after.sessions[other].sending == Some(row.update);
          }
        } else {
          assert after.sessions[a.id].sending == Some(row.update);
        }
      }
    }
  }

  lemma BroadcastStaysUpToDate(w: World, sender: nat, id: nat)
    requires Behind(w) && UpToDate(w, id)
    ensures UpToDate(Do(w, Broadcast(sender)), id)
  {
    if sender in w.sessions && w.sessions[sender].sending.Some? {
      BroadcastReaches(w, sender);
      var after := Do(w, Broadcast(sender));
      assert SessionBehind(w.sessions[sender], w.store);
      hide Do, Behind;
      forall row | row in after.persisted && row.generation == after.store.generation && w.sessions[id].generation == w.store.generation
        ensures row.update in after.sessions[id].held || OnItsWay(after, row)
      {
        if row.update !in after.sessions[id].held {
          var other :| other in w.sessions && w.sessions[other].sending == Some(row.update);
          assert other != sender;
          assert after.sessions[other].sending == Some(row.update);
        }
      }
    }
  }

  lemma QuietStepStaysUpToDate(w: World, a: Action, id: nat)
    requires Behind(w) && UpToDate(w, id) && !a.Append? && !a.Broadcast?
    requires Do(w, a).sessions[id].place.InRoom?
    ensures UpToDate(Do(w, a), id)
  {
    hide Load;
    var after := Do(w, a);
    assert SessionBehind(w.sessions[id], w.store);
    StepKeepsHeld(w, a, id);
    assert forall other | other in w.sessions :: other in after.sessions && after.sessions[other].sending == w.sessions[other].sending;
    hide Do, Behind;
    forall row | row in w.persisted && OnItsWay(w, row)
      ensures OnItsWay(after, row)
    {
    }
  }

  lemma StepStaysUpToDate(w: World, a: Action, id: nat)
    requires Invariant(w) && UpToDate(w, id)
    requires id in Do(w, a).sessions ==> Do(w, a).sessions[id].place.InRoom?
    ensures UpToDate(Do(w, a), id)
  {
    BehindOf(w);
    StepKeepsHeld(w, a, id);
    hide Do, Invariant, Behind, UpToDate;
    match a
    case Append(_, _) => AppendStaysUpToDate(w, a, id);
    case Broadcast(sender) => BroadcastStaysUpToDate(w, sender, id);
    case _ => QuietStepStaysUpToDate(w, a, id);
  }

  /** Once up to date, always: whatever anyone does, as long as it stays in the room. */
  lemma {:induction false} StaysUpToDate(w: World, actions: seq<Action>, id: nat)
    requires Invariant(w) && UpToDate(w, id)
    requires id in RunFrom(w, actions).sessions ==> RunFrom(w, actions).sessions[id].place.InRoom?
    ensures UpToDate(RunFrom(w, actions), id)
  {
    RunKeepsHeld(w, actions, id);
    if actions != [] {
      var n := |actions| - 1;
      assert id in w.sessions && w.sessions[id].place.InRoom? && !w.sessions[id].place.Connecting?;
      RunKeepsHeld(w, actions[..n], id);
      RunKeeps(w, actions[..n]);
      var before := RunFrom(w, actions[..n]);
      assert before.sessions[id].place.InRoom? by { StepKeepsHeld(before, actions[n], id); if actions[n] == Enter(id) { EntersOnce(before, id); } }
      hide Do, Invariant, UpToDate;
      StaysUpToDate(w, actions[..n], id);
      StepStaysUpToDate(before, actions[n], id);
    }
  }

  /** A client that enters is up to date if and only if every update appended since its
      state was read is still on its way to the room, or held by it already. */
  lemma EntersUpToDate(w: World, id: nat)
    requires Invariant(w) && id in w.sessions && w.sessions[id].place.Connecting? && w.sessions[id].loaded.Some?
    ensures var state := w.sessions[id].loaded.value;
            UpToDate(Do(w, Enter(id)), id) <==>
              (w.sessions[id].generation == w.store.generation ==>
                 forall row | row in w.persisted && row.generation == w.store.generation && row.number > state.last ::
                   row.update in w.sessions[id].held || row.update in state.Holds() || OnItsWay(w, row))
  {
    var after := Do(w, Enter(id));
    assert after.sessions[id].place.InRoom? && after.sessions[id].held == w.sessions[id].held + w.sessions[id].loaded.value.Holds();
    assert forall row :: OnItsWay(after, row) <==> OnItsWay(w, row) by { EnteringSendsNothing(w, id); }
    assert ClientsComplete(w);
  }

  lemma EnteringSendsNothing(w: World, id: nat)
    ensures forall row :: OnItsWay(Do(w, Enter(id)), row) <==> OnItsWay(w, row)
  {
    var after := Do(w, Enter(id));
    assert after.sessions.Keys == w.sessions.Keys;
    assert forall other | other in w.sessions :: after.sessions[other].sending == w.sessions[other].sending;
  }

  /** A client may write an update. */
  ghost predicate Writes(w: World, id: nat, update: Update) {
    && id in w.sessions && w.sessions[id].Ready() && w.sessions[id].writeAllowed
    && w.sessions[id].generation == update.generation && update.bytes <= MAX_UPDATE_BYTES
  }

  ghost predicate NotSent(w: World, update: Update) {
    forall other | other in w.sessions :: w.sessions[other].sending != Some(update)
  }

  function Written(w: World, from: nat, update: Update): World {
    Do(Do(Do(w, Edit(from, update)), Append(from, update)), Broadcast(from))
  }

  lemma WrittenGives(w: World, from: nat, update: Update)
    requires Behind(w) && Writes(w, from, update) && NotSent(w, update)
    ensures var after := Written(w, from, update);
            && after.store == Insert(w.store, update.generation, update)
            && after.persisted == w.persisted + {Row(w.store.next, update.generation, update)}
            && after.sessions.Keys == w.sessions.Keys && NotSent(after, update)
            && forall id | id in w.sessions && !w.sessions[id].place.InRoom? && id != from :: after.sessions[id] == w.sessions[id]
  {
    EditedAndAppended(w, from, update);
    var sent := Do(Do(w, Edit(from, update)), Append(from, update));
    hide Do;
    BroadcastReaches(sent, from);
  }

  /** An update that is appended and broadcast after a client's state was read and
      before it enters is in the log, and in nothing that client holds. */
  lemma LateEntryMisses(w: World, id: nat, from: nat, update: Update)
    requires Invariant(w) && id in w.sessions && id != from && Writes(w, from, update) && NotSent(w, update)
    requires w.sessions[id].place.Connecting? && w.sessions[id].loaded.Some?
    requires w.sessions[id].generation == w.store.generation == update.generation
    requires update !in w.sessions[id].held && update !in w.sessions[id].loaded.value.Holds()
    ensures var after := Do(Written(w, from, update), Enter(id));
            && id in after.sessions && after.sessions[id].place.InRoom?
            && update !in after.sessions[id].held && !UpToDate(after, id)
            && update in Load(after.store, after.store.generation).Holds()
  {
    BehindOf(w);
    WrittenGives(w, from, update);
    InsertedIsLoaded(w.store, w.store.generation, update) by { assert Behind(w); }
    var written := Written(w, from, update);
    hide Written, Invariant, Behind, Load, Loaded.Holds;
    var after := Do(written, Enter(id));
    assert after.store == written.store && after.persisted == written.persisted;
    EnteringSendsNothing(written, id);
    assert !OnItsWay(written, Row(w.store.next, update.generation, update));
  }

  lemma InsertedIsLoaded(store: Store, generation: int, update: Update)
    requires store.next > 0 && forall g | g in store.snapshots :: store.snapshots[g].base < store.next
    ensures update in Load(Insert(store, generation, update), generation).Holds()
  {
    var after := Insert(store, generation, update);
    LoadGives(after, generation);
    assert Row(store.next, generation, update) in after.updates;
  }
}
