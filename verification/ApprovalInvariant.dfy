/** What every run of review steps keeps. */
module ApprovalInvariant {
  import opened Text
  import opened ApprovalLine
  import opened Approvals

  // ---- One request ----

  ghost predicate DistinctPlaces(places: seq<Place>) {
    forall i, j | 0 <= i < j < |places| :: places[i].approver != places[j].approver
  }

  /** No step was approved while a lower one was waiting. */
  ghost predicate InTurn(places: seq<Place>) {
    forall i, j | 0 <= i < j < |places| && places[j].status.Decided? :: !places[i].status.Waiting?
  }

  ghost predicate SomePlace(places: seq<Place>, status: StepStatus) {
    exists i :: 0 <= i < |places| && places[i].status == status
  }

  /** The status of a request with a line, told by its places. */
  ghost predicate LineTells(places: seq<Place>, status: RequestStatus) {
    match status
    case Pending => SomePlace(places, Waiting) && !SomePlace(places, Decided(Rejected))
    case Settled(Approved) =>
      !SomePlace(places, Waiting) && !SomePlace(places, Decided(Rejected)) && SomePlace(places, Decided(Approved))
    case Settled(Rejected) => !SomePlace(places, Waiting) && SomePlace(places, Decided(Rejected))
    case Cancelled => !SomePlace(places, Waiting) && !SomePlace(places, Decided(Rejected))
  }

  ghost predicate DecidedBy(places: seq<Place>, d: Decision) {
    exists i :: 0 <= i < |places| && places[i].approver == d.reviewer && places[i].status == Decided(d.verdict)
  }

  /** The decisions recorded are those of the places. */
  ghost predicate Recorded(places: seq<Place>, decisions: seq<Decision>) {
    && (forall d | d in decisions :: DecidedBy(places, d))
    && (forall i | 0 <= i < |places| && places[i].status.Decided? ::
          Decision(places[i].approver, places[i].status.verdict) in decisions)
  }

  ghost predicate LineFine(r: Request) {
    r.places != [] && DistinctPlaces(r.places) && InTurn(r.places) && LineTells(r.places, r.status) && Recorded(r.places, r.decisions)
  }

  predicate SomeRejection(decisions: seq<Decision>) {
    exists d :: d in decisions && d.verdict.Rejected?
  }

  /** The status of a request that any reviewer may decide, told by the decisions. */
  ghost predicate VotesTell(r: Request) {
    match r.status
    case Pending => !SomeRejection(r.decisions) && ApprovalCount(r.decisions) < r.required
    case Settled(Approved) => !SomeRejection(r.decisions) && ApprovalCount(r.decisions) >= r.required
    case Settled(Rejected) => SomeRejection(r.decisions)
    case Cancelled => false
  }

  ghost predicate OncePerReviewer(decisions: seq<Decision>) {
    forall i, j | 0 <= i < j < |decisions| :: decisions[i].reviewer != decisions[j].reviewer
  }

  ghost predicate RequestFine(r: Request) {
    && r.required > 0 && OncePerReviewer(r.decisions)
    && if r.sequential then LineFine(r) else r.places == [] && VotesTell(r)
  }

  lemma SomeWaiting(places: seq<Place>)
    ensures AnyWaiting(places) <==> SomePlace(places, Waiting)
  {
    if AnyWaiting(places) {
      assert places[FirstWaiting(places)].status == Waiting;
    }
  }

  /** A decision in a line keeps it in order and tells the right outcome. */
  lemma DecidedLine(places: seq<Place>, verdict: Verdict)
    requires AnyWaiting(places) && DistinctPlaces(places) && InTurn(places) && LineTells(places, Pending)
    ensures var (after, status) := DecideLine(places, verdict);
            && |after| == |places| && DistinctPlaces(after) && InTurn(after) && LineTells(after, status) && !status.Cancelled?
  {
    var k := FirstWaiting(places);
    var decided := places[k := places[k].(status := Decided(verdict))];
    var (after, status) := DecideLine(places, verdict);
    assert after[k].status == Decided(verdict);
    SomeWaiting(decided);
    assert forall i | 0 <= i < |places| :: after[i].approver == places[i].approver;
    assert forall i | 0 <= i < |places| && i != k && places[i].status.Decided? :: after[i] == places[i];
    assert forall i | 0 <= i < |places| && after[i].status == Decided(Rejected) :: i == k || SomePlace(places, Decided(Rejected));
  }

  lemma DecidedRecorded(r: Request, verdict: Verdict)
    requires r.sequential && LineFine(r) && AnyWaiting(r.places)
    ensures var user := r.places[FirstWaiting(r.places)].approver;
            Recorded(DecideLine(r.places, verdict).0, r.decisions + [Decision(user, verdict)])
  {
    var k := FirstWaiting(r.places);
    var own := Decision(r.places[k].approver, verdict);
    var after := DecideLine(r.places, verdict).0;
    assert after[k] == r.places[k].(status := Decided(verdict));
    assert (r.decisions + [own])[|r.decisions|] == own;
    assert forall i | 0 <= i < |after| && i != k :: after[i].status.Decided? ==> after[i] == r.places[i];
    assert forall i | 0 <= i < |after| && r.places[i].status.Decided? :: after[i] == r.places[i];
    forall d | d in r.decisions
      ensures DecidedBy(after, d)
    {
      assert DecidedBy(r.places, d);
      var i :| 0 <= i < |r.places| && r.places[i].approver == d.reviewer && r.places[i].status == Decided(d.verdict);
      assert after[i] == r.places[i];
    }
  }

  lemma DecideFine(r: Request, user: User, verdict: Verdict, canReview: bool, allowSelf: bool)
    requires RequestFine(r) && MayDecide(r, user, canReview, allowSelf)
    ensures RequestFine(DecideRequest(r, user, verdict))
    ensures !DecideRequest(r, user, verdict).status.Cancelled?
  {
    var decisions := r.decisions + [Decision(user, verdict)];
    assert decisions[..|r.decisions|] == r.decisions;
    assert OncePerReviewer(decisions) by {
      forall i, j | 0 <= i < j < |decisions|
        ensures decisions[i].reviewer != decisions[j].reviewer
      {
        if j == |r.decisions| { assert r.decisions[i] in r.decisions; }
      }
    }
    if r.sequential {
      DecidedLine(r.places, verdict);
      DecidedRecorded(r, verdict);
    } else {
      assert SomeRejection(decisions) <==> verdict.Rejected? by {
        assert decisions[|r.decisions|] == Decision(user, verdict);
      }
    }
  }

  /** Handing a place over keeps the line: everyone stands in it once. */
  lemma HandedOver(r: Request, from: User, recipient: User)
    requires RequestFine(r) && from != recipient
    ensures RequestFine(OffboardRequest(r, from, recipient))
    ensures OffboardRequest(r, from, recipient).status != r.status ==> OffboardRequest(r, from, recipient).status.Cancelled? && r.status.Pending?
  {
    hide HandOver, Recorded, DistinctPlaces, InTurn, LineTells, SomePlace, AnyWaiting;
    if r.status.Pending? && r.sequential {
      HandedOverLine(r.places, from, recipient);
      HandedOverRecorded(r, from, recipient);
    } else if r.status.Pending? {
      assert HandOver(r.places, from, recipient) == [];
    }
  }

  lemma HandedOverLine(places: seq<Place>, from: User, recipient: User)
    requires DistinctPlaces(places) && InTurn(places) && LineTells(places, Pending) && from != recipient
    ensures var after := HandOver(places, from, recipient);
            && |after| == |places| && DistinctPlaces(after) && InTurn(after)
            && LineTells(after, if AnyWaiting(after) then Pending else Cancelled)
  {
    hide HandOver, DistinctPlaces, InTurn, LineTells;
    HandedOverDistinct(places, from, recipient);
    HandedOverInTurn(places, from, recipient);
    HandedOverTells(places, from, recipient);
  }

  lemma HandedOverDistinct(places: seq<Place>, from: User, recipient: User)
    requires DistinctPlaces(places) && from != recipient
    ensures DistinctPlaces(HandOver(places, from, recipient))
  {
    assert forall i | 0 <= i < |places| :: places[i] in places;
  }

  lemma HandedOverInTurn(places: seq<Place>, from: User, recipient: User)
    requires InTurn(places)
    ensures InTurn(HandOver(places, from, recipient))
  {
    var after := HandOver(places, from, recipient);
    assert forall i | 0 <= i < |places| :: after[i].status.Decided? <==> places[i].status.Decided?;
  }

  lemma HandedOverTells(places: seq<Place>, from: User, recipient: User)
    requires LineTells(places, Pending)
    ensures var after := HandOver(places, from, recipient);
            LineTells(after, if AnyWaiting(after) then Pending else Cancelled)
  {
    var after := HandOver(places, from, recipient);
    SomeWaiting(after);
    assert forall i | 0 <= i < |places| && after[i].status == Decided(Rejected) :: places[i].status == Decided(Rejected);
  }

  lemma HandedOverRecorded(r: Request, from: User, recipient: User)
    requires RequestFine(r) && r.sequential && from != recipient
    ensures Recorded(HandOver(r.places, from, recipient), r.decisions)
  {
    var places := HandOver(r.places, from, recipient);
    assert forall i | 0 <= i < |places| && r.places[i].status.Decided? :: places[i] == r.places[i];
    forall d | d in r.decisions
      ensures DecidedBy(places, d)
    {
      assert DecidedBy(r.places, d);
      var i :| 0 <= i < |r.places| && r.places[i].approver == d.reviewer && r.places[i].status == Decided(d.verdict);
      assert places[i] == r.places[i];
    }
  }

  /** The one whose turn it is has not decided yet: the rule of one decision a reviewer
      never stops a line. */
  lemma TurnIsOpen(r: Request)
    requires RequestFine(r) && r.sequential && r.status.Pending?
    ensures AnyWaiting(r.places)
    ensures MayDecide(r, r.places[FirstWaiting(r.places)].approver, false, true)
  {
    SomeWaiting(r.places);
    var k := FirstWaiting(r.places);
    assert forall d | d in r.decisions :: DecidedBy(r.places, d);
  }

  // ---- The whole state ----

  ghost predicate PendingOn(s: State, q: RequestId, d: DocId) {
    q in s.requests && s.requests[q].status.Pending? && s.requests[q].document == d
  }

  ghost predicate HasPending(s: State, d: DocId) {
    exists q :: PendingOn(s, q, d)
  }

  ghost predicate DocumentFine(s: State, d: DocId)
    requires d in s.documents
  {
    && (s.documents[d].workflow.UnderReview? <==> HasPending(s, d))
    && (s.documents[d].workflow.UnderReview? ==> s.documents[d].status.InReview? && !s.documents[d].trashed)
  }

  ghost predicate Invariant(s: State) {
    && (forall q | q in s.requests :: RequestFine(s.requests[q]) && s.requests[q].document in s.documents)
    && (forall p, q, d | PendingOn(s, p, d) && PendingOn(s, q, d) :: p == q)
    && (forall d | d in s.documents :: DocumentFine(s, d))
  }

  /** A step that leaves requests alone, and of the documents their review as it was. */
  lemma DocumentsOnly(s: State, after: State)
    requires Invariant(s) && after.requests == s.requests && s.documents.Keys <= after.documents.Keys
    requires forall d | d in s.documents ::
        && after.documents[d].workflow == s.documents[d].workflow
        && (s.documents[d].workflow.UnderReview? ==>
              after.documents[d].status == s.documents[d].status && after.documents[d].trashed == s.documents[d].trashed)
    requires forall d | d in after.documents && d !in s.documents :: !after.documents[d].workflow.UnderReview?
    ensures Invariant(after)
  {
    forall d | d in after.documents
      ensures DocumentFine(after, d)
    {
      assert HasPending(after, d) <==> HasPending(s, d) by {
        assert forall q :: PendingOn(after, q, d) <==> PendingOn(s, q, d);
      }
      assert forall q | PendingOn(s, q, d) :: d in s.documents;
    }
    assert forall q, d :: PendingOn(after, q, d) <==> PendingOn(s, q, d);
  }

  lemma SubmitKeeps(s: State, d: DocId, q: RequestId, r: Request)
    requires Invariant(s) && Open(s, d) && !s.documents[d].workflow.UnderReview? && q !in s.requests
    requires RequestFine(r) && r.status.Pending? && r.document == d
    ensures Invariant(SubmitTo(s, d, q, r))
  {
    var after := SubmitTo(s, d, q, r);
    assert PendingOn(after, q, d);
    assert forall p, e | p != q :: PendingOn(after, p, e) <==> PendingOn(s, p, e);
    assert DocumentFine(s, d);
    forall e | e in after.documents
      ensures DocumentFine(after, e)
    {
      if e != d { assert HasPending(after, e) <==> HasPending(s, e); }
    }
  }

  lemma PlannedFine(line: seq<Step>)
    requires line != [] && forall i, j | 0 <= i < j < |line| :: line[i].approver != line[j].approver
    ensures var places := Planned(line);
            DistinctPlaces(places) && InTurn(places) && LineTells(places, Pending) && Recorded(places, [])
  {
    assert Planned(line)[0].status == Waiting;
  }

  lemma DecideKeeps(s: State, q: RequestId, r: Request)
    requires Invariant(s) && q in s.requests && s.requests[q].status.Pending?
    requires RequestFine(r) && !r.status.Cancelled? && r.document == s.requests[q].document
    ensures Invariant(State(s.documents[r.document := AfterDecision(s.documents[r.document], r.status)], s.requests[q := r]))
  {
    var d := r.document;
    var after := State(s.documents[d := AfterDecision(s.documents[d], r.status)], s.requests[q := r]);
    assert PendingOn(s, q, d);
    assert forall p, e | p != q :: PendingOn(after, p, e) <==> PendingOn(s, p, e);
    assert PendingOn(after, q, d) <==> r.status.Pending?;
    assert DocumentFine(s, d);
    forall e | e in after.documents
      ensures DocumentFine(after, e)
    {
      if e != d { assert HasPending(after, e) <==> HasPending(s, e); }
    }
  }

  lemma OffboardKeeps(s: State, from: User, recipient: User)
    requires Invariant(s) && from != recipient
    ensures Invariant(OffboardAll(s, from, recipient))
  {
    var after := OffboardAll(s, from, recipient);
    forall q | q in s.requests
      ensures RequestFine(after.requests[q])
      ensures after.requests[q].status.Pending? ==> s.requests[q].status.Pending?
    {
      HandedOver(s.requests[q], from, recipient);
    }
    assert forall q, d | PendingOn(after, q, d) :: PendingOn(s, q, d);
    forall d | d in after.documents
      ensures DocumentFine(after, d)
    {
      assert DocumentFine(s, d);
      OffboardedDocument(s, from, recipient, d);
    }
  }

  /** The document of a cancelled request is a draft again; any other keeps its request. */
  lemma OffboardedDocument(s: State, from: User, recipient: User, d: DocId)
    requires Invariant(s) && d in s.documents && from != recipient
    ensures var after := OffboardAll(s, from, recipient);
            HasPending(after, d) <==> HasPending(s, d) && !Emptied(s, from, recipient, d)
    ensures Emptied(s, from, recipient, d) ==> HasPending(s, d)
  {
    var after := OffboardAll(s, from, recipient);
    if Emptied(s, from, recipient, d) {
      var q :| q in s.requests && s.requests[q].document == d && s.requests[q].status.Pending?
               && OffboardRequest(s.requests[q], from, recipient).status.Cancelled?;
      assert PendingOn(s, q, d);
      assert forall p | PendingOn(after, p, d) :: PendingOn(s, p, d);
    } else if HasPending(s, d) {
      var q :| PendingOn(s, q, d);
      assert PendingOn(after, q, d);
    } else {
      assert forall p | PendingOn(after, p, d) :: PendingOn(s, p, d);
    }
  }

  lemma PurgeKeeps(s: State, d: DocId)
    requires Invariant(s)
    ensures Invariant(Purged(s, d))
  {
    var after := Purged(s, d);
    assert forall q, e | e != d :: PendingOn(after, q, e) <==> PendingOn(s, q, e);
    assert forall q :: !PendingOn(after, q, d);
    forall e | e in after.documents
      ensures DocumentFine(after, e)
    {
      assert HasPending(after, e) <==> HasPending(s, e);
    }
  }

  lemma WriteKeeps(s: State, a: Action)
    requires Invariant(s) && (a.Create? || a.Save? || a.McpUpdate? || a.RestoreRevision?)
    ensures Invariant(Do(s, a))
  {
    assert forall d | d in s.documents :: DocumentFine(s, d);
    hide RequestFine, Invariant, DocumentFine;
    DocumentsOnly(s, Do(s, a));
  }

  lemma TrashKeeps(s: State, a: Action)
    requires Invariant(s) && (a.Trash? || a.Untrash? || a.ArchiveWorkspace?)
    ensures Invariant(Do(s, a))
  {
    assert forall d | d in s.documents :: DocumentFine(s, d);
    hide RequestFine, Invariant;
    DocumentsOnly(s, Do(s, a));
  }

  lemma QuietStepKeeps(s: State, a: Action)
    requires Invariant(s)
    requires a.Create? || a.Save? || a.McpUpdate? || a.Trash? || a.Untrash? || a.ArchiveWorkspace? || a.RestoreRevision?
    ensures Invariant(Do(s, a))
  {
    hide Invariant, Do;
    if a.Trash? || a.Untrash? || a.ArchiveWorkspace? { TrashKeeps(s, a); } else { WriteKeeps(s, a); }
  }

  lemma SubmitStepKeeps(s: State, a: Action)
    requires Invariant(s) && Allowed(a) && (a.Submit? || a.McpSubmit?)
    ensures Invariant(Do(s, a))
  {
    var after := Do(s, a);
    if after != s {
      assert OncePerReviewer([]);
      if a.Submit? && a.line != [] { PlannedFine(a.line); }
      SubmitKeeps(s, a.document, a.request, after.requests[a.request]);
    }
  }

  lemma StepKeeps(s: State, a: Action)
    requires Invariant(s) && Allowed(a)
    ensures Invariant(Do(s, a))
  {
    match a
    case Submit(_, _, _, _, _) => SubmitStepKeeps(s, a);
    case McpSubmit(_, _, _, _) => SubmitStepKeeps(s, a);
    case Decide(q, user, verdict, canReview, allowSelf) =>
      if q in s.requests && MayDecide(s.requests[q], user, canReview, allowSelf) {
        DecideFine(s.requests[q], user, verdict, canReview, allowSelf);
        hide RequestFine, MayDecide;
        DecideKeeps(s, q, DecideRequest(s.requests[q], user, verdict));
      }
    case Offboard(from, recipient, reassign) =>
      if from != recipient && reassign { OffboardKeeps(s, from, recipient); }
    case Purge(d) => PurgeKeeps(s, d);
    case _ => QuietStepKeeps(s, a);
  }

  lemma {:induction false} EveryRunKeeps(actions: seq<Action>)
    requires forall a | a in actions :: Allowed(a)
    ensures Invariant(Run(actions))
  {
    hide Do, Invariant;
    if actions == [] {
      assert Invariant(Run([])) by { NothingYet(); }
    } else {
      var n := |actions| - 1;
      EveryRunKeeps(actions[..n]);
      StepKeeps(Run(actions[..n]), actions[n]);
    }
  }

  lemma NothingYet()
    ensures Invariant(Run([]))
  {
  }

  // ---- What the invariant says of documents and lines ----

  /** In every run: a document is under review exactly when one request of it, and
      no more than one, is pending, and is then neither published nor in the trash. */
  lemma UnderReviewExactly(actions: seq<Action>, d: DocId)
    requires (forall a | a in actions :: Allowed(a)) && d in Run(actions).documents
    ensures var s := Run(actions);
            && (s.documents[d].workflow.UnderReview? <==> exists q :: PendingOn(s, q, d))
            && (forall p, q | PendingOn(s, p, d) && PendingOn(s, q, d) :: p == q)
            && (s.documents[d].workflow.UnderReview? ==> s.documents[d].status.InReview? && !s.documents[d].trashed)
  {
    EveryRunKeeps(actions);
    assert DocumentFine(Run(actions), d);
  }

  /** In every run, of every line: its people are distinct and decide in turn; a
      pending one has someone to wait for, an approved one has an approval and no
      rejection, and nobody is left waiting. */
  lemma LinesAreTold(actions: seq<Action>, q: RequestId)
    requires (forall a | a in actions :: Allowed(a)) && q in Run(actions).requests && Run(actions).requests[q].sequential
    ensures var r := Run(actions).requests[q];
            DistinctPlaces(r.places) && InTurn(r.places) && LineTells(r.places, r.status) && Recorded(r.places, r.decisions)
  {
    EveryRunKeeps(actions);
  }

  /** Offboarding approves and rejects nothing: a request keeps its status or, pending,
      is cancelled, and a document keeps its review or goes back to a draft. */
  lemma OffboardingDecidesNothing(s: State, from: User, recipient: User, reassign: bool)
    requires Invariant(s)
    ensures var after := Do(s, Offboard(from, recipient, reassign));
            && after.requests.Keys == s.requests.Keys && after.documents.Keys == s.documents.Keys
            && (forall q | q in s.requests ::
                  after.requests[q].status == s.requests[q].status
                  || (s.requests[q].status.Pending? && after.requests[q].status.Cancelled?))
            && (forall q | q in s.requests :: after.requests[q].decisions == s.requests[q].decisions)
            && (forall d | d in s.documents ::
                  after.documents[d] == s.documents[d]
                  || (s.documents[d].workflow.UnderReview? && after.documents[d].workflow.Draft? && after.documents[d].status.InDraft?))
  {
    if from != recipient && reassign {
      forall d | d in s.documents && Emptied(s, from, recipient, d)
        ensures s.documents[d].workflow.UnderReview?
      {
        OffboardedDocument(s, from, recipient, d);
        assert DocumentFine(s, d);
      }
    }
  }

  /** A decision that settles a request settles its document with it, published or
      back to a draft; nothing else changes. */
  lemma DecisionReachesDocument(s: State, q: RequestId, user: User, verdict: Verdict, canReview: bool, allowSelf: bool)
    requires Invariant(s) && q in s.requests && MayDecide(s.requests[q], user, canReview, allowSelf)
    ensures var after := Do(s, Decide(q, user, verdict, canReview, allowSelf));
            var d := s.requests[q].document;
            && after.requests.Keys == s.requests.Keys && after.documents.Keys == s.documents.Keys
            && (forall p | p in s.requests && p != q :: after.requests[p] == s.requests[p])
            && (forall e | e in s.documents && e != d :: after.documents[e] == s.documents[e])
            && after.requests[q].decisions == s.requests[q].decisions + [Decision(user, verdict)]
            && (verdict.Rejected? ==> after.requests[q].status == Settled(Rejected))
            && (after.documents[d].workflow.UnderReview? <==> after.requests[q].status.Pending?)
            && (after.documents[d].workflow.Accepted? <==> after.requests[q].status == Settled(Approved))
            && (after.documents[d].workflow.Declined? <==> after.requests[q].status == Settled(Rejected))
            && (after.documents[d].workflow.Accepted? ==> after.documents[d].status.Published?)
            && (after.documents[d].workflow.Declined? ==> after.documents[d].status.InDraft?)
            && after.documents[d].content == s.documents[d].content
  {
    assert PendingOn(s, q, s.requests[q].document);
    assert DocumentFine(s, s.requests[q].document);
    DecideFine(s.requests[q], user, verdict, canReview, allowSelf);
  }

  /** While under review a document's content and revision stand still, whatever is
      tried, except for the restoring of a revision. */
  lemma FrozenUnderReview(s: State, a: Action, d: DocId)
    requires Invariant(s) && d in s.documents && s.documents[d].workflow.UnderReview? && !a.RestoreRevision?
    ensures var after := Do(s, a);
            && d in after.documents && !after.documents[d].trashed
            && after.documents[d].content == s.documents[d].content && after.documents[d].revision == s.documents[d].revision
            && (after.documents[d].workflow.UnderReview? || a.Decide? || a.Offboard?)
  {
    assert DocumentFine(s, d);
  }

  /** Restoring a revision does change a document under review. */
  lemma RestoringThaws(s: State, d: DocId, content: int)
    requires Invariant(s) && d in s.documents && s.documents[d].workflow.UnderReview?
    ensures var after := Do(s, RestoreRevision(d, content));
            && after.documents[d].workflow.UnderReview? && after.documents[d].content == content
            && after.documents[d].revision == s.documents[d].revision + 1
  {
    assert DocumentFine(s, d);
  }

  // ---- Lines that nobody may decide ----

  ghost predicate SomeoneMayDecide(r: Request, allowSelf: bool) {
    exists user, canReview :: MayDecide(r, user, canReview, allowSelf)
  }

  /** A pending line can go on exactly when it does not wait for its own requester,
      or requesters may decide. */
  lemma LineGoesOn(r: Request, allowSelf: bool)
    requires RequestFine(r) && r.sequential && r.status.Pending?
    ensures AnyWaiting(r.places)
    ensures SomeoneMayDecide(r, allowSelf) <==> allowSelf || r.places[FirstWaiting(r.places)].approver != r.requester
  {
    TurnIsOpen(r);
    var user := r.places[FirstWaiting(r.places)].approver;
    if allowSelf || user != r.requester { assert MayDecide(r, user, false, allowSelf); }
  }

  /** The places that stay waiting when the one whose turn it is leaves and the
      recipient stands in the line already. */
  function WithoutTurn(places: seq<Place>): (r: seq<Place>)
    requires AnyWaiting(places)
    ensures |r| == |places|
  {
    var k := FirstWaiting(places);
    places[k := places[k].(status := Skipped)]
  }

  lemma TurnAfterHandOver(places: seq<Place>, from: User, recipient: User)
    requires AnyWaiting(places) && DistinctPlaces(places)
    ensures var k, after := FirstWaiting(places), HandOver(places, from, recipient);
            && (places[k].approver != from ==> FirstWaiting(after) == k && after[k] == places[k])
            && (places[k].approver == from && !Stands(places, recipient) ==>
                  FirstWaiting(after) == k && after[k].approver == recipient)
            && (places[k].approver == from && Stands(places, recipient) ==> after == WithoutTurn(places))
  {
    var k, after := FirstWaiting(places), HandOver(places, from, recipient);
    if places[k].approver != from || !Stands(places, recipient) {
      assert after[k].status.Waiting?;
      assert forall i | 0 <= i < k :: after[i].status == places[i].status || after[i].status.Skipped?;
    }
  }

  /** What offboarding does to a pending line. It can be decided afterwards if and
      only if requesters may decide or it does not wait for the requester: for the
      recipient where the turn was handed over, for the next approver where it was
      skipped, for the same as before otherwise. */
  lemma OffboardingMayStrand(r: Request, from: User, recipient: User, allowSelf: bool)
    requires RequestFine(r) && r.sequential && r.status.Pending? && from != recipient
    ensures var after := OffboardRequest(r, from, recipient);
            && AnyWaiting(r.places)
            && var turn := r.places[FirstWaiting(r.places)].approver;
            && (turn != from ==> after.status.Pending? && (SomeoneMayDecide(after, allowSelf) <==> allowSelf || turn != r.requester))
            && (turn == from && !Stands(r.places, recipient) ==>
                  after.status.Pending? && (SomeoneMayDecide(after, allowSelf) <==> allowSelf || recipient != r.requester))
            && (turn == from && Stands(r.places, recipient) ==>
                  var left := WithoutTurn(r.places);
                  && (after.status.Pending? <==> AnyWaiting(left))
                  && (SomeoneMayDecide(after, allowSelf) <==>
                        AnyWaiting(left) && (allowSelf || left[FirstWaiting(left)].approver != r.requester)))
  {
    hide HandOver, RequestFine, MayDecide;
    var after := OffboardRequest(r, from, recipient);
    LineGoesOn(r, allowSelf);
    HandedOver(r, from, recipient);
    assert DistinctPlaces(r.places) by { PlacesDistinct(r); }
    TurnAfterHandOver(r.places, from, recipient);
    if after.status.Pending? { LineGoesOn(after, allowSelf); } else { NotPendingNotDecided(after, allowSelf); }
  }

  lemma PlacesDistinct(r: Request)
    requires RequestFine(r) && r.sequential
    ensures DistinctPlaces(r.places)
  {
  }

  lemma NotPendingNotDecided(r: Request, allowSelf: bool)
    requires !r.status.Pending?
    ensures !SomeoneMayDecide(r, allowSelf)
  {
  }
}
