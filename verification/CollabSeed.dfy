/** Who fills an empty document: "ClaimSeed" and "ReleaseSeed" of
    internal/realtime/hub.go, called from internal/httpapi/collaboration.go. Two clients
    that do would each insert the whole text. */
module CollabSeed {
  import opened Text
  import opened CollabLog
  import opened CollabProtocol

  datatype Claim = Claim(generation: int, holder: nat)

  /** The room with its claim, and who was ever asked to fill the document. */
  datatype Hub = Hub(world: World, claim: Option<Claim>, asked: set<nat>)

  const OPENED := Hub(START, None, {})

  predicate Enters(w: World, id: nat) {
    id in w.sessions && w.sessions[id].place.Connecting? && w.sessions[id].loaded.Some?
  }

  /** The state it was sent is empty. */
  predicate SentNothing(s: Session) {
    s.loaded.Some? && s.loaded.value.snapshot == {} && s.loaded.value.updates == []
  }

  predicate Present(w: World, id: nat) {
    id in w.sessions && w.sessions[id].place.InRoom?
  }

  /** Somebody else who is still there has the claim for this generation. */
  predicate Claimed(h: Hub, generation: int, id: nat) {
    h.claim.Some? && h.claim.value.generation == generation && h.claim.value.holder != id && Present(h.world, h.claim.value.holder)
  }

  function Step(h: Hub, a: Action): Hub {
    var after := Do(h.world, a);
    match a
    case Enter(id) =>
      if !Enters(h.world, id) then h
      else
        var s := h.world.sessions[id];
        if !s.writeAllowed || !SentNothing(s) || Claimed(h, s.generation, id) then h.(world := after)
        else Hub(after, Some(Claim(s.generation, id)), h.asked + {id})
    case Append(_, _) => if after == h.world then h else Hub(after, None, h.asked)
    case CloseRoom => Hub(after, None, h.asked)
    case _ => h.(world := after)
  }

  function Run(actions: seq<Action>): Hub {
    if actions == [] then OPENED else Step(Run(actions[..|actions| - 1]), actions[|actions| - 1])
  }

  /** The claim changes nothing of what CollabProtocol says. */
  lemma {:induction false} SameRuns(actions: seq<Action>)
    ensures Run(actions).world == CollabProtocol.Run(actions)
  {
    hide Do;
    if actions != [] {
      var n := |actions| - 1;
      SameRuns(actions[..n]);
      StepIsDo(Run(actions[..n]), actions[n]);
    }
  }

  lemma StepIsDo(h: Hub, a: Action)
    ensures Step(h, a).world == Do(h.world, a)
  {
    hide Load;
  }

  /** Nothing of this generation was ever stored. */
  ghost predicate Unwritten(w: World, generation: int) {
    forall row | row in w.persisted :: row.generation != generation
  }

  /** Everyone in the room has the generation of who enters it or writes. */
  ghost predicate Fitting(w: World, a: Action) {
    a.Enter? || a.Append? ==>
      forall other | Present(w, other) && a.id in w.sessions && other != a.id :: w.sessions[other].generation == w.sessions[a.id].generation
  }

  /** While nothing is written the one who was asked and is there has the claim. */
  ghost predicate Invariant(h: Hub) {
    && OneGeneration(h.world)
    && (forall id | id in h.asked :: id in h.world.sessions && !h.world.sessions[id].place.Connecting?)
    && forall id | id in h.asked && Present(h.world, id) && Unwritten(h.world, h.world.sessions[id].generation) ::
         h.claim == Some(Claim(h.world.sessions[id].generation, id))
  }

  lemma EnterKeeps(h: Hub, id: nat)
    requires Invariant(h) && Fitting(h.world, Enter(id))
    ensures Invariant(Step(h, Enter(id)))
  {
  }

  lemma AppendKeeps(h: Hub, id: nat, update: Update)
    requires Invariant(h) && Fitting(h.world, Append(id, update))
    ensures Invariant(Step(h, Append(id, update)))
  {
    var after := Do(h.world, Append(id, update));
    if after != h.world {
      assert Row(h.world.store.next, h.world.sessions[id].generation, update) in after.persisted;
    }
  }

  lemma OtherKeeps(h: Hub, a: Action)
    requires Invariant(h) && !a.Enter? && !a.Append?
    ensures Invariant(Step(h, a))
  {
    hide Load;
    assert Do(h.world, a).persisted == h.world.persisted;
  }

  lemma StepKeeps(h: Hub, a: Action)
    requires Invariant(h) && Fitting(h.world, a)
    ensures Invariant(Step(h, a))
  {
    hide Step, Invariant, Fitting;
    match a
    case Enter(id) => EnterKeeps(h, id);
    case Append(id, update) => AppendKeeps(h, id, update);
    case _ => OtherKeeps(h, a);
  }

  lemma {:induction false} RunKeeps(actions: seq<Action>)
    requires forall n | 0 <= n < |actions| :: Fitting(Run(actions[..n]).world, actions[n])
    ensures Invariant(Run(actions))
  {
    if actions != [] {
      var n := |actions| - 1;
      assert forall k | 0 <= k < n :: actions[..n][..k] == actions[..k];
      RunKeeps(actions[..n]);
      StepKeeps(Run(actions[..n]), actions[n]);
    }
  }

  /** As long as nobody enters or writes beside another generation: of those in the room
      at most one was asked, until something is written. */
  lemma OneSeeds(actions: seq<Action>, id: nat, other: nat)
    requires forall n | 0 <= n < |actions| :: Fitting(Run(actions[..n]).world, actions[n])
    requires var h := Run(actions);
             && id in h.asked && other in h.asked && Present(h.world, id) && Present(h.world, other)
             && Unwritten(h.world, h.world.sessions[id].generation)
    ensures id == other
  {
    RunKeeps(actions);
  }

  /** Who enters is asked exactly when it may write, was sent an empty state, and nobody
      else who is still there was asked last for this generation. So when the one asked
      leaves before writing, the next to enter is asked. */
  lemma AskedExactly(h: Hub, id: nat)
    requires Enters(h.world, id) && id !in h.asked
    ensures var s, after := h.world.sessions[id], Step(h, Enter(id));
            && (id in after.asked <==>
                  && s.writeAllowed && s.loaded.value.snapshot == {} && s.loaded.value.updates == []
                  && forall other | Present(h.world, other) && other != id :: h.claim != Some(Claim(s.generation, other)))
            && h.asked <= after.asked <= h.asked + {id} && Present(after.world, id)
            && (id in after.asked ==> after.claim == Some(Claim(s.generation, id)))
  {
  }

  /** Whoever is asked, in any run, although something is written in the current
      generation, had its state read before any of that was. */
  lemma SecondIsLate(h: Hub, id: nat, row: Row)
    requires CollabProtocol.Invariant(h.world) && Enters(h.world, id) && id !in h.asked && id in Step(h, Enter(id)).asked
    requires row in h.world.persisted && row.generation == h.world.store.generation == h.world.sessions[id].generation
    ensures row.number > h.world.sessions[id].loaded.value.last
  {
    assert ClientsComplete(h.world);
    assert h.world.sessions[id].loaded.value.Holds() == {};
  }

  /** And such a one is asked: when the first writes between the reading of another's
      state and its entering, both are, and both are there. */
  lemma LateLoaderIsAskedToo(h: Hub, first: nat, second: nat, update: Update)
    requires first != second && first in h.asked && Present(h.world, first) && Enters(h.world, second)
    requires var s := h.world.sessions[first];
             s.Ready() && s.writeAllowed && update in s.held && update.bytes <= MAX_UPDATE_BYTES
    requires h.world.sessions[second].writeAllowed && SentNothing(h.world.sessions[second])
    ensures var after := Step(Step(h, Append(first, update)), Enter(second));
            && first in after.asked && second in after.asked && Present(after.world, first) && Present(after.world, second)
            && !Unwritten(after.world, h.world.sessions[first].generation)
  {
    var written := Do(h.world, Append(first, update));
    var row := Row(h.world.store.next, h.world.sessions[first].generation, update);
    assert row in written.persisted;
    assert written.store.next != h.world.store.next;
    assert row in Do(written, Enter(second)).persisted;
  }

  /** Where generations meet it can go wrong before anything is written: when somebody of
      another generation is asked, or writes, the next of the first one's generation to
      enter is asked while the first is still there. */
  lemma MeetingAsksAgain(h: Hub, first: nat, step: Action, second: nat)
    requires OneGeneration(h.world) && first in h.asked && Present(h.world, first)
    requires (step.Enter? || step.Append?) && step.id in h.world.sessions && step.id != first && step.id != second
    requires h.world.sessions[step.id].generation != h.world.sessions[first].generation
    requires Step(h, step).claim != h.claim && Unwritten(h.world, h.world.sessions[first].generation)
    requires first != second && Enters(h.world, second)
    requires var s := h.world.sessions[second];
             s.generation == h.world.sessions[first].generation && s.writeAllowed && SentNothing(s)
    ensures var after := Step(Step(h, step), Enter(second));
            && first in after.asked && second in after.asked && Present(after.world, first) && Present(after.world, second)
            && Unwritten(after.world, h.world.sessions[first].generation)
  {
    var between := Step(h, step);
    assert Present(between.world, first) && between.world.sessions[second] == h.world.sessions[second];
    assert Unwritten(between.world, h.world.sessions[first].generation);
    assert between.claim.None? || between.claim.value.generation != h.world.sessions[first].generation;
  }

  /** The claim goes with the first thing anyone writes and with the closing of the room. */
  lemma ClaimGoes(h: Hub, a: Action)
    requires a.CloseRoom? || (a.Append? && Do(h.world, a) != h.world)
    ensures Step(h, a).claim == None
  {
  }
}
