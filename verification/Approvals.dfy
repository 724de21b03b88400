/** Documents under review, and every step that may change one or its requests:
    internal/httpapi/workflow.go, admin_offboard.go, documents.go, mcp.go, bulk.go,
    admin_overview.go and admin_documents.go. Each transaction or guarded statement
    is one step. */
module Approvals {
  import opened Text
  import opened ApprovalLine

  type DocId = nat
  type RequestId = nat

  datatype Workflow = NotSubmitted | Draft | UnderReview | Accepted | Declined
  datatype Status = InDraft | InReview | Published | Archived
  datatype Verdict = Approved | Rejected
  datatype StepStatus = Waiting | Decided(verdict: Verdict) | Skipped
  datatype RequestStatus = Pending | Settled(verdict: Verdict) | Cancelled

  datatype Document = Document(
    workspace: nat, workflow: Workflow, status: Status, trashed: bool, revision: nat, content: int)

  /** One place in a line, with what became of it. */
  datatype Place = Place(approver: User, isFinal: bool, status: StepStatus)

  datatype Decision = Decision(reviewer: User, verdict: Verdict)

  /** A request with a line, or one that any of the reviewers may decide. */
  datatype Request = Request(
    document: DocId, requester: User, required: nat, status: RequestStatus, sequential: bool,
    places: seq<Place>, decisions: seq<Decision>)

  datatype State = State(documents: map<DocId, Document>, requests: map<RequestId, Request>)

  datatype Action =
    | Create(document: DocId, workspace: nat, content: int)
    | Submit(document: DocId, request: RequestId, requester: User, required: nat, line: seq<Step>)
    | McpSubmit(document: DocId, request: RequestId, requester: User, required: nat)
    | Decide(request: RequestId, user: User, verdict: Verdict, canReview: bool, allowSelf: bool)
    | Offboard(from: User, recipient: User, reassign: bool)
    | Save(document: DocId, expected: nat, body: Option<int>, chosen: Option<Status>)
    | McpUpdate(document: DocId, expected: nat, body: Option<int>)
    | Trash(document: DocId)
    | Untrash(document: DocId)
    | ArchiveWorkspace(workspace: nat)
    | Purge(document: DocId)
    | RestoreRevision(document: DocId, content: int)

  // ---- Lines ----

  function FirstWaiting(places: seq<Place>): (k: nat)
    ensures k <= |places|
    ensures forall i | 0 <= i < k :: !places[i].status.Waiting?
    ensures k < |places| ==> places[k].status.Waiting?
  {
    if places == [] || places[0].status.Waiting? then 0 else 1 + FirstWaiting(places[1..])
  }

  predicate AnyWaiting(places: seq<Place>) {
    FirstWaiting(places) < |places|
  }

  function SkipWaiting(places: seq<Place>): (r: seq<Place>)
    ensures |r| == |places|
    ensures forall i | 0 <= i < |r| :: r[i] == if places[i].status.Waiting? then places[i].(status := Skipped) else places[i]
  {
    seq(|places|, i requires 0 <= i < |places| =>
      if places[i].status.Waiting? then places[i].(status := Skipped) else places[i])
  }

  /** The line after the person whose turn it is has decided, and what it comes to. */
  function DecideLine(places: seq<Place>, verdict: Verdict): (seq<Place>, RequestStatus)
    requires AnyWaiting(places)
  {
    var k := FirstWaiting(places);
    var decided := places[k := places[k].(status := Decided(verdict))];
    if verdict.Rejected? then (SkipWaiting(decided), Settled(Rejected))
    else if places[k].isFinal then (SkipWaiting(decided), Settled(Approved))
    else if AnyWaiting(decided) then (decided, Pending)
    else (decided, Settled(Approved))
  }

  function ApprovalCount(decisions: seq<Decision>): nat {
    if decisions == [] then 0
    else ApprovalCount(decisions[..|decisions| - 1]) + if decisions[|decisions| - 1].verdict.Approved? then 1 else 0
  }

  predicate HasDecided(decisions: seq<Decision>, user: User) {
    exists d :: d in decisions && d.reviewer == user
  }

  /** A pending request the user may decide now. */
  predicate MayDecide(r: Request, user: User, canReview: bool, allowSelf: bool) {
    && r.status.Pending?
    && (if r.sequential then AnyWaiting(r.places) && r.places[FirstWaiting(r.places)].approver == user else canReview)
    && (allowSelf || r.requester != user)
    && !HasDecided(r.decisions, user)
  }

  function DecideRequest(r: Request, user: User, verdict: Verdict): Request
    requires r.sequential ==> AnyWaiting(r.places)
  {
    var decisions := r.decisions + [Decision(user, verdict)];
    if r.sequential then
      var (places, status) := DecideLine(r.places, verdict);
      r.(places := places, status := status, decisions := decisions)
    else
      r.(decisions := decisions,
         status := if verdict.Rejected? then Settled(Rejected)
                   else if ApprovalCount(decisions) >= r.required then Settled(Approved) else Pending)
  }

  // ---- Offboarding ----

  predicate Stands(places: seq<Place>, user: User) {
    exists p :: p in places && p.approver == user
  }

  /** The place of someone who leaves goes to the recipient, or is skipped where the
      recipient stands in the line already. */
  function HandOver(places: seq<Place>, from: User, recipient: User): (r: seq<Place>)
    ensures |r| == |places|
    ensures forall i | 0 <= i < |r| ::
        r[i] == if places[i].approver != from || !places[i].status.Waiting? then places[i]
                else if Stands(places, recipient) then places[i].(status := Skipped)
                else places[i].(approver := recipient)
  {
    seq(|places|, i requires 0 <= i < |places| =>
      if places[i].approver != from || !places[i].status.Waiting? then places[i]
      else if Stands(places, recipient) then places[i].(status := Skipped)
      else places[i].(approver := recipient))
  }

  function OffboardRequest(r: Request, from: User, recipient: User): Request {
    if !r.status.Pending? then r
    else
      var places := HandOver(r.places, from, recipient);
      r.(places := places, status := if r.sequential && !AnyWaiting(places) then Cancelled else Pending)
  }

  /** A document whose request was cancelled because nobody was left in its line. */
  predicate Emptied(s: State, from: User, recipient: User, d: DocId) {
    exists q :: q in s.requests && s.requests[q].document == d && s.requests[q].status.Pending?
                && OffboardRequest(s.requests[q], from, recipient).status.Cancelled?
  }

  function OffboardAll(s: State, from: User, recipient: User): State {
    State(
      map d | d in s.documents ::
        if Emptied(s, from, recipient, d) then s.documents[d].(workflow := Draft, status := InDraft) else s.documents[d],
      map q | q in s.requests :: OffboardRequest(s.requests[q], from, recipient))
  }

  // ---- Steps ----

  /** A document that can be found outside the trash. */
  predicate Open(s: State, d: DocId) {
    d in s.documents && !s.documents[d].trashed
  }

  function SubmitTo(s: State, d: DocId, q: RequestId, request: Request): State
    requires d in s.documents
  {
    State(s.documents[d := s.documents[d].(workflow := UnderReview, status := InReview)], s.requests[q := request])
  }

  function Planned(line: seq<Step>): (r: seq<Place>)
    ensures |r| == |line|
    ensures forall i | 0 <= i < |r| :: r[i] == Place(line[i].approver, line[i].isFinal, Waiting)
  {
    seq(|line|, i requires 0 <= i < |line| => Place(line[i].approver, line[i].isFinal, Waiting))
  }

  function AfterDecision(document: Document, status: RequestStatus): Document {
    match status
    case Settled(Approved) => document.(workflow := Accepted, status := Published)
    case Settled(Rejected) => document.(workflow := Declined, status := InDraft)
    case _ => document
  }

  function Saved(document: Document, content: Option<int>, status: Option<Status>): Document {
    var changed := content.Some? && content.value != document.content;
    document.(
      content := if content.Some? then content.value else document.content,
      revision := if changed then document.revision + 1 else document.revision,
      status := if status.Some? then status.value else document.status)
  }

  /** A workspace is archived only when none of its documents is under review. */
  predicate CanArchive(s: State, workspace: nat) {
    forall d | d in s.documents && s.documents[d].workspace == workspace && !s.documents[d].trashed ::
      !s.documents[d].workflow.UnderReview?
  }

  function TrashWorkspace(s: State, workspace: nat): State {
    s.(documents := map d | d in s.documents ::
      if s.documents[d].workspace == workspace then s.documents[d].(trashed := true) else s.documents[d])
  }

  /** Deleting a document's row takes its requests with it. */
  function Purged(s: State, document: DocId): State {
    State(s.documents - {document}, map q | q in s.requests && s.requests[q].document != document :: s.requests[q])
  }

  /** One step; what is refused leaves everything as it was. */
  function Do(s: State, a: Action): State {
    match a
    case Create(d, workspace, content) =>
      if d in s.documents then s
      else s.(documents := s.documents[d := Document(workspace, NotSubmitted, InDraft, false, 1, content)])
    case Submit(d, q, requester, required, line) =>
      if !Open(s, d) || s.documents[d].workflow.UnderReview? || q in s.requests then s
      else
        var sequential := line != [];
        SubmitTo(s, d, q, Request(d, requester, if sequential then |line| else required, Pending, sequential, Planned(line), []))
    case McpSubmit(d, q, requester, required) =>
      if !Open(s, d) || s.documents[d].workflow.UnderReview? || q in s.requests then s
      else SubmitTo(s, d, q, Request(d, requester, required, Pending, false, [], []))
    case Decide(q, user, verdict, canReview, allowSelf) =>
      if q !in s.requests || !MayDecide(s.requests[q], user, canReview, allowSelf) then s
      else
        var r := DecideRequest(s.requests[q], user, verdict);
        State(
          if r.document in s.documents then s.documents[r.document := AfterDecision(s.documents[r.document], r.status)]
          else s.documents,
          s.requests[q := r])
    case Offboard(from, recipient, reassign) =>
      if from == recipient || !reassign then s else OffboardAll(s, from, recipient)
    case Save(d, expected, content, status) =>
      if !Open(s, d) || s.documents[d].workflow.UnderReview? || (expected > 0 && s.documents[d].revision != expected) then s
      else s.(documents := s.documents[d := Saved(s.documents[d], content, status)])
    case McpUpdate(d, expected, content) =>
      if !Open(s, d) || s.documents[d].workflow.UnderReview? || s.documents[d].revision != expected || content.None? then s
      else
        s.(documents := s.documents[d := s.documents[d].(content := content.value, revision := s.documents[d].revision + 1)])
    case Trash(d) =>
      if !Open(s, d) || s.documents[d].workflow.UnderReview? then s
      else s.(documents := s.documents[d := s.documents[d].(trashed := true)])
    case Untrash(d) =>
      if d !in s.documents then s else s.(documents := s.documents[d := s.documents[d].(trashed := false)])
    case ArchiveWorkspace(workspace) =>
      if CanArchive(s, workspace) then TrashWorkspace(s, workspace) else s
    case Purge(d) =>
      if d !in s.documents || !s.documents[d].trashed then s else Purged(s, d)
    case RestoreRevision(d, content) =>
      if !Open(s, d) then s
      else s.(documents := s.documents[d := s.documents[d].(content := content, revision := s.documents[d].revision + 1)])
  }

  /** Lines come from buildApprovalLine, and a policy asks for at least one approval. */
  predicate Allowed(a: Action) {
    match a
    case Submit(_, _, _, required, line) =>
      required > 0 && forall i, j | 0 <= i < j < |line| :: line[i].approver != line[j].approver
    case McpSubmit(_, _, _, required) => required > 0
    case _ => true
  }

  function Run(actions: seq<Action>): State {
    if actions == [] then State(map[], map[]) else Do(Run(actions[..|actions| - 1]), actions[|actions| - 1])
  }
}
